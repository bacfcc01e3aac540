/** `_parse_minimal_yaml` itself: a stack of (indent, object) pairs over dictionaries updated in place,
    and the proof that the object tree it builds is the declarative nesting. */
module YamlParser {
  import opened Prelude
  import opened PyText
  import opened YamlText
  import opened YamlNesting

  datatype Entry = PlainEntry(scalar: Scalar) | Child(node: Node)

  /** A Python object the parser can put on its stack: a dict, or a list. `line` is the line that made it. */
  class Node {
    const isList: bool
    ghost const line: int
    var entries: map<string, Entry>

    constructor (ghost line: int)
      ensures !isList && this.line == line && entries == map[]
    {
      this.isList := false;
      this.line := line;
      entries := map[];
    }
  }

  datatype Frame = Frame(indent: int, node: Node)

  /** Each key of line `j`'s dictionary holds what the line that wrote it last says. */
  ghost predicate Holds(ls: seq<Line>, n: nat, nodes: set<Node>, j: int, entries: map<string, Entry>)
    requires n <= |ls|
  {
    var c := Cell(ls, j, n);
    && entries.Keys == c.Keys
    && forall k | k in c ::
         match entries[k]
         case PlainEntry(scalar) => ls[c[k]].body == Leaf(ls[c[k]].body.key, scalar)
         case Child(node) => ls[c[k]].body.Open? && node in nodes && node.line == c[k]
  }

  /** The objects made so far are dicts, one a mapping line, and hold what the first `n` lines wrote. */
  ghost predicate Built(ls: seq<Line>, n: nat, nodes: set<Node>)
    requires n <= |ls|
    reads nodes
  {
    && (forall d | d in nodes :: !d.isList && -1 <= d.line < n && Holds(ls, n, nodes, d.line, d.entries))
    && (forall d, e | d in nodes && e in nodes && d.line == e.line :: d == e)
  }

  /** The value an object denotes, following references through the heap. */
  ghost function Denotes(ls: seq<Line>, nodes: set<Node>, d: Node): Value
    requires d in nodes && Built(ls, |ls|, nodes)
    reads nodes
    decreases |ls| - d.line
  {
    Dict(map k | k in d.entries ::
      match d.entries[k]
      case PlainEntry(scalar) => Plain(scalar)
      case Child(node) => Denotes(ls, nodes, node))
  }

  lemma {:induction false} DenotesNesting(ls: seq<Line>, nodes: set<Node>, d: Node)
    requires d in nodes && Built(ls, |ls|, nodes)
    ensures Denotes(ls, nodes, d) == TreeOf(ls, d.line)
    decreases |ls| - d.line
  {
    hide Cell;
    var c := Cell(ls, d.line, |ls|);
    forall k | k in d.entries && d.entries[k].Child?
      ensures Denotes(ls, nodes, d.entries[k].node) == TreeOf(ls, c[k])
    {
      DenotesNesting(ls, nodes, d.entries[k].node);
    }
    assert forall k | k in c ::
      ValueAt(ls, d.line, c[k]) ==
        match d.entries[k]
        case PlainEntry(scalar) => Plain(scalar)
        case Child(node) => Denotes(ls, nodes, node);
  }

  // ---- the stack ----

  /** Line `j` is a mapping that line `n` would still find open: everything since is indented deeper. */
  ghost predicate OpenAt(ls: seq<Line>, j: int, n: int) {
    0 <= j < n <= |ls| && ls[j].body.Open? && forall k | j < k < n :: ls[k].indent > ls[j].indent
  }

  ghost predicate OnStack(stack: seq<Frame>, j: int) {
    exists t | 0 < t < |stack| :: stack[t].node.line == j
  }

  /** A frame for an earlier line carries that line's indent. */
  ghost predicate Remembers(ls: seq<Line>, n: int, frame: Frame) {
    0 <= frame.node.line < n && frame.node.line < |ls| && frame.indent == ls[frame.node.line].indent
  }

  /** The stack after `n` lines: the root, then exactly the open mappings, outermost first. */
  ghost predicate Spine(ls: seq<Line>, n: nat, root: Node, stack: seq<Frame>) {
    && stack != [] && stack[0] == Frame(-1, root) && root.line == -1
    && (forall t | 0 < t < |stack| :: OpenAt(ls, stack[t].node.line, n) && Remembers(ls, n, stack[t]))
    && (forall s, t | 0 <= s < t < |stack| :: stack[s].node.line < stack[t].node.line)
    && (forall j | OpenAt(ls, j, n) :: OnStack(stack, j))
  }

  /** The stack's indents strictly increase from the root's -1. */
  lemma SpineIncreases(ls: seq<Line>, n: nat, root: Node, stack: seq<Frame>, s: nat, t: nat)
    requires Spine(ls, n, root, stack) && s < t < |stack|
    ensures stack[s].indent < stack[t].indent
  {
    if s > 0 {
      assert OpenAt(ls, stack[s].node.line, n);
    }
  }

  /** The popped stack for line `n`: the root, then exactly the mappings that enclose the line. */
  ghost predicate Enclosing(ls: seq<Line>, n: nat, root: Node, stack: seq<Frame>) {
    && stack != [] && stack[0] == Frame(-1, root) && root.line == -1
    && (forall t | 0 < t < |stack| :: Encloses(ls, stack[t].node.line, n) && Remembers(ls, n, stack[t]))
    && (forall s, t | 0 <= s < t < |stack| :: stack[s].node.line < stack[t].node.line)
    && (forall j | Encloses(ls, j, n) :: OnStack(stack, j))
  }

  lemma OpenEncloses(ls: seq<Line>, j: int, n: nat)
    requires n < |ls|
    ensures Encloses(ls, j, n) <==> OpenAt(ls, j, n) && ls[j].indent < ls[n].indent
    ensures OpenAt(ls, j, n + 1) <==> Encloses(ls, j, n) || (j == n && ls[n].body.Open?)
  {
  }

  /** Popping every frame not indented less than the line leaves the mappings that enclose it. */
  lemma PopLeavesEnclosing(ls: seq<Line>, n: nat, root: Node, stack: seq<Frame>, m: nat)
    requires Spine(ls, n, root, stack) && n < |ls| && 0 < m <= |stack|
    requires stack[m - 1].indent < ls[n].indent
    requires forall t | m <= t < |stack| :: stack[t].indent >= ls[n].indent
    ensures Enclosing(ls, n, root, stack[..m])
  {
    hide OpenAt, Encloses;
    var kept := stack[..m];
    forall t | 0 < t < |kept|
      ensures Encloses(ls, kept[t].node.line, n)
    {
      if t < m - 1 {
        SpineIncreases(ls, n, root, stack, t, m - 1);
      }
      assert Remembers(ls, n, stack[t]);
      OpenEncloses(ls, stack[t].node.line, n);
    }
    forall j | Encloses(ls, j, n)
      ensures OnStack(kept, j)
    {
      OpenEncloses(ls, j, n);
      var t :| 0 < t < |stack| && stack[t].node.line == j;
      assert kept[t].node.line == j;
    }
  }

  lemma TopIsParent(ls: seq<Line>, n: nat, root: Node, stack: seq<Frame>)
    requires n < |ls| && Enclosing(ls, n, root, stack)
    ensures stack[|stack| - 1].node.line == Parent(ls, n)
  {
    var top, p := stack[|stack| - 1].node.line, Parent(ls, n);
    assert top >= 0 ==> Encloses(ls, top, n);
    assert p >= 0 ==> OnStack(stack, p);
  }

  lemma EnclosingStays(ls: seq<Line>, n: nat, root: Node, stack: seq<Frame>)
    requires n < |ls| && Enclosing(ls, n, root, stack) && !ls[n].body.Open?
    ensures Spine(ls, n + 1, root, stack)
  {
    hide OpenAt, Encloses;
    forall t | 0 < t < |stack|
      ensures OpenAt(ls, stack[t].node.line, n + 1)
    {
      OpenEncloses(ls, stack[t].node.line, n);
    }
    forall j | OpenAt(ls, j, n + 1)
      ensures OnStack(stack, j)
    {
      OpenEncloses(ls, j, n);
    }
  }

  lemma EnclosingPushed(ls: seq<Line>, n: nat, root: Node, stack: seq<Frame>, node: Node)
    requires n < |ls| && Enclosing(ls, n, root, stack) && ls[n].body.Open? && node.line == n
    ensures Spine(ls, n + 1, root, stack + [Frame(ls[n].indent, node)])
  {
    hide OpenAt, Encloses;
    var next := stack + [Frame(ls[n].indent, node)];
    forall t | 0 < t < |next|
      ensures OpenAt(ls, next[t].node.line, n + 1) && Remembers(ls, n + 1, next[t])
    {
      OpenEncloses(ls, next[t].node.line, n);
    }
    forall j | OpenAt(ls, j, n + 1)
      ensures OnStack(next, j)
    {
      OpenEncloses(ls, j, n);
      if j == n {
        assert next[|stack|].node.line == j;
      } else {
        var t :| 0 < t < |stack| && stack[t].node.line == j;
        assert next[t].node.line == j;
      }
    }
  }

  // ---- the heap ----

  lemma CellStep(ls: seq<Line>, j: int, n: nat)
    requires n < |ls|
    ensures j != Parent(ls, n) ==> Cell(ls, j, n + 1) == Cell(ls, j, n)
    ensures j == Parent(ls, n) ==>
              Cell(ls, j, n + 1) ==
                if ls[n].body.Open? || ls[n].body.Leaf? then Cell(ls, j, n)[ls[n].body.key := n] else Cell(ls, j, n)
    ensures j >= n ==> Cell(ls, j, n + 1) == map[]
  {
    hide Parent, Writes;
  }

  /** A dictionary that line `n` does not write stays right, also when new objects appear. */
  lemma HoldsOn(ls: seq<Line>, n: nat, nodes: set<Node>, more: set<Node>, j: int, entries: map<string, Entry>)
    requires n < |ls| && nodes <= more && Holds(ls, n, nodes, j, entries)
    requires j != Parent(ls, n) || !(ls[n].body.Open? || ls[n].body.Leaf?)
    ensures Holds(ls, n + 1, more, j, entries)
  {
    hide Cell, Parent;
    CellStep(ls, j, n);
  }

  /** The dictionary of line `n`'s parent after the line was stored in it. */
  lemma HoldsStored(ls: seq<Line>, n: nat, nodes: set<Node>, more: set<Node>, entries: map<string, Entry>, entry: Entry)
    requires n < |ls| && nodes <= more && Holds(ls, n, nodes, Parent(ls, n), entries)
    requires match entry
             case PlainEntry(scalar) => ls[n].body.Leaf? && ls[n].body.value == scalar
             case Child(node) => ls[n].body.Open? && node in more && node.line == n
    ensures Holds(ls, n + 1, more, Parent(ls, n), entries[ls[n].body.key := entry])
  {
    hide Cell, Parent;
    CellStep(ls, Parent(ls, n), n);
  }

  /** Nothing is stored yet in the dictionary a line opens. */
  lemma HoldsNothing(ls: seq<Line>, n: nat, nodes: set<Node>)
    requires n < |ls|
    ensures Holds(ls, n + 1, nodes, n, map[])
  {
    hide Cell;
    CellStep(ls, n, n);
  }

  /** Lines that store nothing leave the objects as they are. */
  lemma BuiltStays(ls: seq<Line>, n: nat, nodes: set<Node>)
    requires n < |ls| && Built(ls, n, nodes) && !ls[n].body.Open? && !ls[n].body.Leaf?
    ensures Built(ls, n + 1, nodes)
  {
    hide Holds;
    forall d | d in nodes
      ensures Holds(ls, n + 1, nodes, d.line, d.entries)
    {
      HoldsOn(ls, n, nodes, nodes, d.line, d.entries);
    }
  }

  /** `parent[key] = entry` for line `n`. The objects made so far, with those of `more`, then hold what the
      first `n + 1` lines wrote. */
  method Store(ghost ls: seq<Line>, ghost n: nat, ghost nodes: set<Node>, ghost more: set<Node>, parent: Node,
               key: string, entry: Entry)
    requires n < |ls| && Built(ls, n, nodes) && nodes <= more && parent in nodes && parent.line == Parent(ls, n)
    requires match entry
             case PlainEntry(scalar) => ls[n].body == Leaf(key, scalar)
             case Child(node) => ls[n].body == Open(key) && node in more && node.line == n
    modifies parent
    ensures forall d | d in nodes :: Holds(ls, n + 1, more, d.line, d.entries)
  {
    hide Holds;
    HoldsStored(ls, n, nodes, more, parent.entries, entry);
    forall d | d in nodes && d != parent
      ensures Holds(ls, n + 1, more, d.line, d.entries)
    {
      HoldsOn(ls, n, nodes, more, d.line, d.entries);
    }
    parent.entries := parent.entries[key := entry];
  }

  /** `parent[key] = coerce(value)`. */
  method StorePlain(ghost ls: seq<Line>, ghost n: nat, ghost nodes: set<Node>, parent: Node, key: string, value: Scalar)
    requires n < |ls| && ls[n].body == Leaf(key, value)
    requires Built(ls, n, nodes) && parent in nodes && parent.line == Parent(ls, n)
    modifies parent
    ensures Built(ls, n + 1, nodes)
  {
    hide Holds;
    Store(ls, n, nodes, nodes, parent, key, PlainEntry(value));
  }

  /** `new = {}; parent[key] = new`. */
  method StoreChild(ghost ls: seq<Line>, ghost n: nat, ghost nodes: set<Node>, parent: Node, key: string)
    returns (child: Node)
    requires n < |ls| && ls[n].body == Open(key)
    requires Built(ls, n, nodes) && parent in nodes && parent.line == Parent(ls, n)
    modifies parent
    ensures fresh(child) && child.line == n && Built(ls, n + 1, nodes + {child})
  {
    hide Holds;
    child := new Node(n);
    HoldsNothing(ls, n, nodes + {child});
    Store(ls, n, nodes, nodes + {child}, parent, key, Child(child));
  }

  /** `while stack and stack[-1][0] >= indent: stack.pop()`, and the parent it leaves on top. */
  method PopTo(ghost ls: seq<Line>, ghost n: nat, root: Node, stack: seq<Frame>, indent: nat)
    returns (popped: seq<Frame>, parent: Node)
    requires n < |ls| && ls[n].indent == indent && Spine(ls, n, root, stack)
    ensures popped <= stack && Enclosing(ls, n, root, popped)
    ensures popped != [] && parent == popped[|popped| - 1].node && parent.line == Parent(ls, n)
  {
    popped := stack;
    assert stack[..|stack|] == stack;
    while popped != [] && popped[|popped| - 1].indent >= indent
      invariant 0 < |popped| <= |stack| && popped == stack[..|popped|]
      invariant forall t | |popped| <= t < |stack| :: stack[t].indent >= indent
      decreases |popped|
    {
      popped := popped[..|popped| - 1];
    }
    PopLeavesEnclosing(ls, n, root, stack, |popped|);
    TopIsParent(ls, n, root, popped);
    parent := root;
    if popped != [] {
      parent := popped[|popped| - 1].node;
    }
  }

  lemma NextLine(rows: seq<string>, r: nat)
    requires r < |rows|
    ensures ReadLines(rows[..r + 1])
         == ReadLines(rows[..r]) + if ReadLine(rows[r]).Some? then [ReadLine(rows[r]).value] else []
    ensures ReadLines(rows[..r + 1]) <= ReadLines(rows)
  {
    hide ReadLine;
    assert rows[..r + 1][..r] == rows[..r];
    ReadLinesAppend(rows[..r + 1], rows[r + 1..]);
    SplitAt(rows, r + 1);
    assert ReadLines(rows[..r]) + [] == ReadLines(rows[..r]);
  }

  /** The parser and its stack are in step with the first `n` lines. */
  ghost predicate InStep(ls: seq<Line>, n: nat, root: Node, stack: seq<Frame>, nodes: set<Node>)
    reads nodes
  {
    && n <= |ls| && root in nodes && Built(ls, n, nodes) && Spine(ls, n, root, stack)
    && forall t | 0 <= t < |stack| :: stack[t].node in nodes
  }

  /** The loop body for a line that says something: pop, find the parent, store. */
  method StoreLine(ghost ls: seq<Line>, ghost n: nat, root: Node, stack: seq<Frame>, ghost nodes: set<Node>, line: Line)
    returns (next: seq<Frame>, ghost more: set<Node>)
    requires InStep(ls, n, root, stack, nodes) && n < |ls| && ls[n] == line
    modifies nodes
    ensures nodes <= more && fresh(more - nodes) && InStep(ls, n + 1, root, next, more)
  {
    hide Cell, Holds, OpenAt, Encloses, Enclosing;
    var parent;
    next, parent := PopTo(ls, n, root, stack, line.indent);
    more := nodes;
    match line.body {
      case Item(text) =>
        BuiltStays(ls, n, nodes);
        EnclosingStays(ls, n, root, next);
        if parent.isList {
          assert false;
        }
      case Open(key) =>
        var child := StoreChild(ls, n, nodes, parent, key);
        EnclosingPushed(ls, n, root, next, child);
        more := nodes + {child};
        next := next + [Frame(line.indent, child)];
      case Leaf(key, value) =>
        EnclosingStays(ls, n, root, next);
        if !parent.isList {
          StorePlain(ls, n, nodes, parent, key, value);
        }
      case Other =>
        BuiltStays(ls, n, nodes);
        EnclosingStays(ls, n, root, next);
    }
  }

  /** `_parse_minimal_yaml`. The dictionaries it returns denote the nesting of the text's lines; no list is
      ever created, so list items store nothing. */
  method ParseMinimalYaml(text: string) returns (root: Node, ghost nodes: set<Node>)
    ensures root in nodes && fresh(nodes)
    ensures Built(LinesOf(text), |LinesOf(text)|, nodes)
    ensures Denotes(LinesOf(text), nodes, root) == TreeOf(LinesOf(text), -1)
  {
    hide ReadLine, Built, Spine, SplitLines;
    var rows := SplitLines(text);
    ghost var ls := ReadLines(rows);
    ghost var n := 0;
    root := new Node(-1);
    nodes := {root};
    var stack := [Frame(-1, root)];
    StartsBuilt(ls, root);
    for r := 0 to |rows|
      invariant n <= |ls| && ls[..n] == ReadLines(rows[..r])
      invariant fresh(nodes) && root in nodes && root.line == -1 && InStep(ls, n, root, stack, nodes)
    {
      NextLine(rows, r);
      var read := ReadLine(rows[r]);
      if read.None? {
        continue;
      }
      assert ls[..n + 1] == ReadLines(rows[..r + 1]) && ls[n] == read.value;
      stack, nodes := StoreLine(ls, n, root, stack, nodes, read.value);
      n := n + 1;
    }
    assert rows[..|rows|] == rows;
    DenotesNesting(ls, nodes, root);
  }

  lemma StartsBuilt(ls: seq<Line>, root: Node)
    requires !root.isList && root.line == -1 && root.entries == map[]
    ensures Built(ls, 0, {root}) && Spine(ls, 0, root, [Frame(-1, root)])
  {
  }

  // ---- the stack as a path ----

  /** An open mapping is still what its parent holds under its key. */
  lemma {:induction false} StillLinked(ls: seq<Line>, j: nat, n: nat)
    requires OpenAt(ls, j, n)
    ensures ls[j].body.key in Cell(ls, Parent(ls, j), n) && Cell(ls, Parent(ls, j), n)[ls[j].body.key] == j
    decreases n
  {
    hide Cell;
    CellStep(ls, Parent(ls, j), n - 1);
    if n == j + 1 {
    } else {
      StillLinked(ls, j, n - 1);
      assert Encloses(ls, j, n - 1);
    }
  }

  lemma NeighbourIsParent(ls: seq<Line>, n: nat, root: Node, stack: seq<Frame>, t: nat)
    requires n <= |ls| && Spine(ls, n, root, stack) && t + 1 < |stack|
    ensures 0 <= stack[t + 1].node.line < |ls| && Parent(ls, stack[t + 1].node.line) == stack[t].node.line
  {
    var s, j := stack[t].node.line, stack[t + 1].node.line;
    assert OpenAt(ls, j, n) && Remembers(ls, n, stack[t + 1]);
    var p := Parent(ls, j);
    assert t > 0 ==> OpenAt(ls, s, n) && Encloses(ls, s, j);
    assert s <= p;
    if p >= 0 {
      assert Encloses(ls, p, j);
      assert OpenAt(ls, p, n);
      assert OnStack(stack, p);
      var u :| 0 < u < |stack| && stack[u].node.line == p;
      assert u <= t;
    }
  }

  /** Throughout the parse the stack is a path from the root: each frame's dictionary holds the next
      frame's under the key that opened it. */
  lemma StackIsPath(ls: seq<Line>, n: nat, root: Node, stack: seq<Frame>, nodes: set<Node>, t: nat)
    requires n <= |ls| && Spine(ls, n, root, stack) && Built(ls, n, nodes) && t + 1 < |stack|
    requires forall u | 0 <= u < |stack| :: stack[u].node in nodes
    ensures var j := stack[t + 1].node.line;
            && 0 <= j < |ls| && ls[j].body.Open?
            && ls[j].body.key in stack[t].node.entries
            && stack[t].node.entries[ls[j].body.key] == Child(stack[t + 1].node)
  {
    hide Cell;
    var d, j := stack[t].node, stack[t + 1].node.line;
    NeighbourIsParent(ls, n, root, stack, t);
    assert OpenAt(ls, j, n);
    StillLinked(ls, j, n);
    assert Holds(ls, n, nodes, d.line, d.entries);
  }
}
