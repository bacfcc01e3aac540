/** Indentation nesting stated declaratively: which mapping line encloses a line, which line wrote a
    key last, and the tree this makes of a document. */
module YamlNesting {
  import opened YamlText

  datatype Value = Plain(scalar: Scalar) | Dict(entries: map<string, Value>)

  /** Mapping line `j` encloses the later line `i`: every line after `j` up to `i` is indented deeper. */
  ghost predicate Encloses(ls: seq<Line>, j: int, i: int) {
    && 0 <= j < i < |ls| && ls[j].body.Open?
    && forall k | j < k <= i :: ls[k].indent > ls[j].indent
  }

  ghost function ParentBelow(ls: seq<Line>, i: nat, bound: int): (p: int)
    requires i < |ls| && -1 <= bound < i
    ensures -1 <= p <= bound
    ensures p >= 0 ==> Encloses(ls, p, i)
    ensures forall j | p < j <= bound :: !Encloses(ls, j, i)
    decreases bound + 1
  {
    if bound < 0 then -1 else if Encloses(ls, bound, i) then bound else ParentBelow(ls, i, bound - 1)
  }

  /** The latest mapping line that encloses line `i`, or -1 for the document itself. */
  ghost function Parent(ls: seq<Line>, i: nat): (p: int)
    requires i < |ls|
    ensures -1 <= p < i
    ensures p >= 0 ==> Encloses(ls, p, i)
    ensures forall j | p < j < i :: !Encloses(ls, j, i)
  {
    ParentBelow(ls, i, i - 1)
  }

  /** Line `i` stores key `k` in the mapping of line `j`. */
  ghost predicate Writes(ls: seq<Line>, i: int, j: int, k: string) {
    0 <= i < |ls| && (ls[i].body.Open? || ls[i].body.Leaf?) && ls[i].body.key == k && Parent(ls, i) == j
  }

  /** The keys of line `j`'s mapping after the first `n` lines, each with the line that wrote it. */
  ghost function Cell(ls: seq<Line>, j: int, n: nat): (c: map<string, int>)
    requires n <= |ls|
    ensures forall k | k in c :: j < c[k] < n && Writes(ls, c[k], j, k)
  {
    if n == 0 then map[]
    else
      var c := Cell(ls, j, n - 1);
      var b := ls[n - 1].body;
      if (b.Open? || b.Leaf?) && Parent(ls, n - 1) == j then c[b.key := n - 1] else c
  }

  /** A mapping holds a key exactly when some line wrote it there, and the last such line counts. */
  lemma {:induction false} LastWriterWins(ls: seq<Line>, j: int, n: nat, k: string)
    requires n <= |ls|
    ensures k in Cell(ls, j, n) <==> exists i | 0 <= i < n :: Writes(ls, i, j, k)
    ensures k in Cell(ls, j, n) ==> forall i | 0 <= i < n && Writes(ls, i, j, k) :: i <= Cell(ls, j, n)[k]
  {
    if n == 0 {
    } else {
      LastWriterWins(ls, j, n - 1, k);
      if Writes(ls, n - 1, j, k) {
        assert k in Cell(ls, j, n);
      } else if k in Cell(ls, j, n) {
        assert Writes(ls, Cell(ls, j, n)[k], j, k);
      }
    }
  }

  /** The tree that line `j`'s mapping denotes; the whole document's for j = -1. */
  ghost function TreeOf(ls: seq<Line>, j: int): Value
    requires -1 <= j < |ls|
    decreases |ls| - j
  {
    Dict(ValuesOf(ls, j, |ls|))
  }

  /** The values of the keys in line `j`'s mapping after `n` lines. */
  ghost function ValuesOf(ls: seq<Line>, j: int, n: nat): map<string, Value>
    requires -1 <= j < |ls| && n <= |ls|
    decreases |ls| - j, 0
  {
    map k | k in Cell(ls, j, n) :: ValueAt(ls, j, Cell(ls, j, n)[k])
  }

  ghost function ValueAt(ls: seq<Line>, j: int, i: int): Value
    requires -1 <= j < i < |ls| && (ls[i].body.Open? || ls[i].body.Leaf?)
    decreases |ls| - j, -1
  {
    if ls[i].body.Leaf? then Plain(ls[i].body.value) else TreeOf(ls, i)
  }

  // ---- what the tree depends on ----

  /** A line that stores nothing: a list item, or one without a colon. */
  predicate Quiet(b: Body) {
    b.Item? || b.Other?
  }

  /** The same bodies where they store anything, and indents that compare the same way. */
  ghost predicate SameShape(ls: seq<Line>, ms: seq<Line>) {
    && |ls| == |ms|
    && (forall i | 0 <= i < |ls| :: ls[i].body == ms[i].body || (Quiet(ls[i].body) && Quiet(ms[i].body)))
    && (forall i, j | 0 <= i < |ls| && 0 <= j < |ls| :: ls[i].indent < ls[j].indent <==> ms[i].indent < ms[j].indent)
  }

  lemma SameParent(ls: seq<Line>, ms: seq<Line>, i: nat)
    requires SameShape(ls, ms) && i < |ls|
    ensures Parent(ls, i) == Parent(ms, i)
  {
    assert forall j :: Encloses(ls, j, i) <==> Encloses(ms, j, i);
    var p, q := Parent(ls, i), Parent(ms, i);
    assert p >= 0 ==> Encloses(ms, p, i);
    assert q >= 0 ==> Encloses(ls, q, i);
  }

  lemma {:induction false} SameCell(ls: seq<Line>, ms: seq<Line>, j: int, n: nat)
    requires SameShape(ls, ms) && n <= |ls|
    ensures Cell(ls, j, n) == Cell(ms, j, n)
  {
    hide Writes, Parent;
    if n == 0 {
    } else {
      SameCell(ls, ms, j, n - 1);
      SameParent(ls, ms, n - 1);
      assert ls[n - 1].body == ms[n - 1].body || (Quiet(ls[n - 1].body) && Quiet(ms[n - 1].body));
    }
  }

  /** The tree depends on the indents only through how they compare. */
  lemma {:induction false} SameTree(ls: seq<Line>, ms: seq<Line>, j: int)
    requires SameShape(ls, ms) && -1 <= j < |ls|
    ensures TreeOf(ls, j) == TreeOf(ms, j)
    decreases |ls| - j
  {
    SameCell(ls, ms, j, |ls|);
    var c := Cell(ls, j, |ls|);
    forall k | k in c
      ensures ValueAt(ls, j, c[k]) == ValueAt(ms, j, c[k])
    {
      if ls[c[k]].body.Open? {
        SameTree(ls, ms, c[k]);
      }
    }
    assert ValuesOf(ls, j, |ls|) == ValuesOf(ms, j, |ms|);
  }

  /** Exactly the mappings no line stores anything in are empty. */
  lemma EmptyDictIff(ls: seq<Line>, j: int)
    requires -1 <= j < |ls|
    ensures TreeOf(ls, j) == Dict(map[]) <==> forall i, k | 0 <= i < |ls| :: !Writes(ls, i, j, k)
  {
    hide Writes, Parent, Cell;
    var c := Cell(ls, j, |ls|);
    var tree := ValuesOf(ls, j, |ls|);
    assert tree.Keys == c.Keys;
    assert tree == map[] <==> c.Keys == {};
    forall i, k | 0 <= i < |ls| && Writes(ls, i, j, k)
      ensures k in c.Keys
    {
      LastWriterWins(ls, j, |ls|, k);
    }
  }

  /** Every list item of a document replaced by a line without a colon. */
  function WithoutItems(ls: seq<Line>): seq<Line> {
    seq(|ls|, i requires 0 <= i < |ls| => if ls[i].body.Item? then Line(ls[i].indent, Other) else ls[i])
  }

  /** List items leave no trace: the tree is that of the document with every item line made a line the
      parser ignores. */
  lemma ItemsStoreNothing(ls: seq<Line>)
    ensures TreeOf(ls, -1) == TreeOf(WithoutItems(ls), -1)
  {
    SameTree(ls, WithoutItems(ls), -1);
  }
}
