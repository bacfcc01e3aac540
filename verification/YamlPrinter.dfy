/** A printer of mappings with two-space indents, the parser's round trip over it, and what the parser
    does not depend on: the indent width, blank lines and comment lines. */
module YamlPrinter {
  import opened Prelude
  import opened PyText
  import opened YamlText
  import opened YamlNesting
  import opened YamlParser

  /** A mapping in print order; a plain value comes with the text it is written as. */
  datatype Mapping =
    | End
    | Plainly(key: string, value: Scalar, shown: string, rest: Mapping)
    | Nested(key: string, inner: Mapping, rest: Mapping)

  /** The tree a mapping stands for; with repeated keys the last counts. */
  function Meaning(m: Mapping): map<string, Value> {
    match m
    case End => map[]
    case Plainly(key, value, _, rest) => map[key := Plain(value)] + Meaning(rest)
    case Nested(key, inner, rest) => map[key := Dict(Meaning(inner))] + Meaning(rest)
  }

  /** The plainest way to write a value. */
  function Show(s: Scalar): string {
    match s
    case Str(text) => "\"" + text + "\""
    case Int(number) => ShowInt(number)
    case Bool(flag) => if flag then "true" else "false"
  }

  function Print(m: Mapping, depth: nat): seq<string> {
    match m
    case End => []
    case Plainly(key, _, shown, rest) => [Spaces(2 * depth) + (key + ": " + shown)] + Print(rest, depth)
    case Nested(key, inner, rest) => [Spaces(2 * depth) + (key + ":")] + Print(inner, depth + 1) + Print(rest, depth)
  }

  ghost predicate GoodKey(key: string) {
    Trimmed(key) && NoBreak(key) && ':' !in key && '#' !in key && !("- " <= key)
  }

  ghost predicate GoodScalar(value: Scalar) {
    value.Str? ==> '#' !in value.text && NoBreak(value.text)
  }

  /** A text on one row, without a comment, that stands for the value. */
  ghost predicate GoodText(shown: string, value: Scalar) {
    shown != "" && Trimmed(shown) && '#' !in shown && NoBreak(shown) && Stands(shown, value)
  }

  ghost predicate Printable(m: Mapping) {
    match m
    case End => true
    case Plainly(key, value, shown, rest) => GoodKey(key) && GoodText(shown, value) && Printable(rest)
    case Nested(key, inner, rest) => GoodKey(key) && Printable(inner) && Printable(rest)
  }

  // ---- one printed line ----

  lemma CoerceShown(s: Scalar)
    ensures Coerce(Show(s)) == s && Show(s) != "" && Trimmed(Show(s))
  {
    hide Strip, ReadInt, ShowInt;
    StripTrimmed(Show(s));
    match s
    case Str(text) =>
      assert Unquote(Show(s)) == text;
    case Int(n) =>
      ReadShownInt(n);
      assert Lower(Show(s))[0] == Show(s)[0];
    case Bool(flag) =>
      assert Lower("true") == "true" && Lower("false") == "false";
  }

  lemma NothingToStrip(raw: string)
    requires raw != "" && '#' !in raw && !IsSpace(raw[|raw| - 1])
    ensures Content(raw) == raw
  {
    assert raw[..|raw|] == raw;
  }

  lemma StripOneSpace(s: string)
    requires Trimmed(s)
    ensures Strip(" " + s) == s
  {
    assert IsSpace(' ') && (" " + s)[1..] == s;
    StripTrimmed(s);
    assert StripLeft(" " + s) == StripLeft(s);
  }

  lemma ReadKeyed(key: string, after: string)
    requires GoodKey(key) && '#' !in after && (after != "" ==> !IsSpace(after[|after| - 1]))
    ensures var value := Strip(after);
            ReadLine(key + ":" + after) == Some(Line(0, if value == "" then Open(key) else Leaf(key, Coerce(value))))
  {
    hide Coerce, Strip, Find, StripRight, IsSpace;
    var raw := key + ":" + after;
    KeyedContent(key, after);
    FindAfter(key, ':', after);
    StripTrimmed(key);
    assert raw[..|key|] == key && raw[|key| + 1..] == after;
    assert !("- " <= raw) by {
      assert |key| >= 2 ==> key[..2] == raw[..2];
    }
    assert raw[0..] == raw;
  }

  lemma KeyedContent(key: string, after: string)
    requires GoodKey(key) && '#' !in after && (after != "" ==> !IsSpace(after[|after| - 1]))
    ensures Content(key + ":" + after) == key + ":" + after
    ensures Strip(key + ":" + after) != "" && CountSpaces(key + ":" + after) == 0
  {
    assert IsSpace(' ') && !IsSpace(':');
    hide IsSpace, Content, Strip, CountSpaces, Spaces, NoBreak;
    var raw := key + ":" + after;
    NothingToStrip(raw);
    StripKeepsText(raw);
    CountBehindSpaces(0, raw);
    assert Spaces(0) + raw == raw;
  }

  /** Every value without comment or break has a writing: in double quotes, in digits, or as a word. */
  lemma ShownGood(value: Scalar)
    requires GoodScalar(value)
    ensures GoodText(Show(value), value)
  {
    hide Strip, ReadInt, ShowInt, Stands, Coerce;
    CoerceShown(value);
    StripTrimmed(Show(value));
    CoerceIff(Show(value), value);
    assert forall c | IsDigit(c) || c == '-' :: !IsBreak(c);
  }

  lemma ReadPlainLine(key: string, value: Scalar, shown: string, n: nat)
    requires GoodKey(key) && GoodText(shown, value)
    ensures ReadLine(Spaces(n) + (key + ": " + shown)) == Some(Line(n, Leaf(key, value)))
  {
    hide ReadLine, Coerce, Strip, Stands;
    StripTrimmed(shown);
    CoerceIff(shown, value);
    StripOneSpace(shown);
    assert '#' !in " " + shown;
    ReadKeyed(key, " " + shown);
    assert key + ":" + (" " + shown) == key + ": " + shown;
    IndentedLine(n, key + ": " + shown);
  }

  lemma ReadOpenLine(key: string, n: nat)
    requires GoodKey(key)
    ensures ReadLine(Spaces(n) + (key + ":")) == Some(Line(n, Open(key)))
  {
    hide ReadLine;
    ReadKeyed(key, "");
    assert key + ":" + "" == key + ":";
    IndentedLine(n, key + ":");
  }

  // ---- the printed lines ----

  function Lines(m: Mapping, depth: nat): (ls: seq<Line>)
    ensures forall i | 0 <= i < |ls| :: ls[i].indent >= 2 * depth
  {
    match m
    case End => []
    case Plainly(key, value, _, rest) => [Line(2 * depth, Leaf(key, value))] + Lines(rest, depth)
    case Nested(key, inner, rest) => [Line(2 * depth, Open(key))] + Lines(inner, depth + 1) + Lines(rest, depth)
  }

  lemma ReadOneRow(raw: string)
    ensures ReadLines([raw]) == if ReadLine(raw).Some? then [ReadLine(raw).value] else []
  {
    hide ReadLine;
    assert [raw][..0] == [];
  }

  lemma {:induction false} ReadPrinted(m: Mapping, depth: nat)
    requires Printable(m)
    ensures ReadLines(Print(m, depth)) == Lines(m, depth)
  {
    hide ReadLine, ReadLines, GoodKey, GoodText, Spaces;
    match m
    case End =>
      assert ReadLines([]) == [] by { ReadNoRows(); }
    case Plainly(key, value, shown, rest) =>
      var raw := Spaces(2 * depth) + (key + ": " + shown);
      ReadPlainLine(key, value, shown, 2 * depth);
      ReadOneRow(raw);
      ReadPrinted(rest, depth);
      ReadLinesAppend([raw], Print(rest, depth));
    case Nested(key, inner, rest) =>
      var raw := Spaces(2 * depth) + (key + ":");
      ReadOpenLine(key, 2 * depth);
      ReadOneRow(raw);
      ReadPrinted(inner, depth + 1);
      ReadPrinted(rest, depth);
      ReadLinesAppend([raw], Print(inner, depth + 1));
      ReadLinesAppend([raw] + Print(inner, depth + 1), Print(rest, depth));
  }

  lemma ReadNoRows()
    ensures ReadLines([]) == []
  {
  }

  lemma RowUnbroken(n: nat, text: string)
    requires NoBreak(text)
    ensures NoBreak(Spaces(n) + text)
  {
  }

  lemma EntryUnbroken(key: string, after: string)
    requires NoBreak(key) && NoBreak(after)
    ensures NoBreak(key + ":") && NoBreak(key + ": " + after)
  {
  }

  /** No printed row holds a line break. */
  lemma {:induction false} PrintedRows(m: Mapping, depth: nat)
    requires Printable(m)
    ensures forall r | r in Print(m, depth) :: NoBreak(r)
  {
    hide NoBreak, Spaces, Stands;
    match m
    case End =>
    case Plainly(key, value, shown, rest) =>
      EntryUnbroken(key, shown);
      RowUnbroken(2 * depth, key + ": " + shown);
      PrintedRows(rest, depth);
    case Nested(key, inner, rest) =>
      EntryUnbroken(key, key);
      RowUnbroken(2 * depth, key + ":");
      PrintedRows(inner, depth + 1);
      PrintedRows(rest, depth);
  }

  // ---- the tree of the printed lines ----

  /** The lines of `m` at `depth` stand at `o` in `ls`, right inside line `j`'s mapping: everything since
      `j` is at least as deep, and the line after them is shallower. */
  ghost predicate Placed(ls: seq<Line>, j: int, o: nat, m: Mapping, depth: nat) {
    && -1 <= j < o && o + |Lines(m, depth)| <= |ls|
    && (j >= 0 ==> ls[j].body.Open? && ls[j].indent < 2 * depth)
    && ls[o..o + |Lines(m, depth)|] == Lines(m, depth)
    && (forall i | j < i < o :: ls[i].indent >= 2 * depth)
    && (o + |Lines(m, depth)| < |ls| ==> ls[o + |Lines(m, depth)|].indent < 2 * depth)
  }

  lemma ParentOfFirst(ls: seq<Line>, j: int, o: nat, depth: nat)
    requires -1 <= j < o < |ls| && ls[o].indent == 2 * depth
    requires j >= 0 ==> ls[j].body.Open? && ls[j].indent < 2 * depth
    requires forall i | j < i < o :: ls[i].indent >= 2 * depth
    ensures Parent(ls, o) == j
  {
    assert j >= 0 ==> Encloses(ls, j, o);
    var p := Parent(ls, o);
    assert p >= 0 ==> ls[p].indent < ls[o].indent;
  }

  /** Lines deeper than an open line `o` before them store nothing above it. */
  lemma {:induction false} DeeperElsewhere(ls: seq<Line>, j: int, o: nat, n: nat)
    requires j < o < n <= |ls| && ls[o].body.Open? && forall i | o < i < n :: ls[i].indent > ls[o].indent
    ensures Cell(ls, j, n) == Cell(ls, j, o + 1)
    decreases n
  {
    hide Cell;
    if n == o + 1 {
    } else {
      DeeperElsewhere(ls, j, o, n - 1);
      assert Encloses(ls, o, n - 1);
      CellStep(ls, j, n - 1);
    }
  }

  /** Once a line is not indented deeper, it and all later lines store elsewhere. */
  lemma {:induction false} ClosedForGood(ls: seq<Line>, j: nat, e: nat, n: nat)
    requires j < e <= n <= |ls| && (e < |ls| ==> ls[e].indent <= ls[j].indent)
    ensures Cell(ls, j, n) == Cell(ls, j, e)
    decreases n
  {
    hide Cell;
    if n == e {
    } else {
      ClosedForGood(ls, j, e, n - 1);
      CellStep(ls, j, n - 1);
      assert !Encloses(ls, j, n - 1);
    }
  }

  lemma ValuesStep(ls: seq<Line>, j: int, o: nat)
    requires -1 <= j < o < |ls| && (ls[o].body.Open? || ls[o].body.Leaf?) && Parent(ls, o) == j
    ensures ValuesOf(ls, j, o + 1) == ValuesOf(ls, j, o)[ls[o].body.key := ValueAt(ls, j, o)]
  {
    hide Cell, Parent;
    CellStep(ls, j, o);
  }

  lemma ValuesSame(ls: seq<Line>, j: int, n: nat, n': nat)
    requires -1 <= j < |ls| && n <= |ls| && n' <= |ls| && Cell(ls, j, n) == Cell(ls, j, n')
    ensures ValuesOf(ls, j, n) == ValuesOf(ls, j, n')
  {
  }

  lemma MapStep<K, V>(m: map<K, V>, k: K, v: V, rest: map<K, V>)
    ensures m[k := v] + rest == m + (map[k := v] + rest)
  {
  }

  /** Storing a printed block adds exactly its meaning to the mapping it stands in. */
  lemma {:induction false} BlockStored(ls: seq<Line>, j: int, o: nat, m: Mapping, depth: nat)
    requires Placed(ls, j, o, m, depth)
    ensures j < |ls| && ValuesOf(ls, j, o + |Lines(m, depth)|) == ValuesOf(ls, j, o) + Meaning(m)
    decreases m, 0
  {
    hide ValuesOf, Placed;
    PlacedInside(ls, j, o, m, depth);
    match m
    case End =>
      assert ValuesOf(ls, j, o) + map[] == ValuesOf(ls, j, o);
    case Plainly(key, value, shown, rest) =>
      PlainStored(ls, j, o, key, value, shown, rest, depth);
      BlockStored(ls, j, o + 1, rest, depth);
      MapStep(ValuesOf(ls, j, o), key, Plain(value), Meaning(rest));
    case Nested(key, inner, rest) =>
      NestedStored(ls, j, o, key, inner, rest, depth);
      BlockStored(ls, j, o + 1 + |Lines(inner, depth + 1)|, rest, depth);
      MapStep(ValuesOf(ls, j, o), key, Dict(Meaning(inner)), Meaning(rest));
  }

  lemma PlacedInside(ls: seq<Line>, j: int, o: nat, m: Mapping, depth: nat)
    requires Placed(ls, j, o, m, depth)
    ensures -1 <= j < |ls| && o + |Lines(m, depth)| <= |ls|
  {
  }

  /** A plain entry stores its value. */
  lemma PlainStored(ls: seq<Line>, j: int, o: nat, key: string, value: Scalar, shown: string, rest: Mapping,
                    depth: nat)
    requires Placed(ls, j, o, Plainly(key, value, shown, rest), depth)
    ensures -1 <= j < |ls| && o + 1 <= |ls| && Placed(ls, j, o + 1, rest, depth)
    ensures ValuesOf(ls, j, o + 1) == ValuesOf(ls, j, o)[key := Plain(value)]
  {
    hide ValuesOf, Parent, Cell;
    var first := [Line(2 * depth, Leaf(key, value))];
    FirstOf(ls, j, o, Plainly(key, value, shown, rest), depth, first, Lines(rest, depth));
    ParentOfFirst(ls, j, o, depth);
    ValuesStep(ls, j, o);
  }

  /** Splits a placed block into the lines of its first entry and the rest. */
  lemma FirstOf(ls: seq<Line>, j: int, o: nat, m: Mapping, depth: nat, head: seq<Line>, tail: seq<Line>)
    requires Placed(ls, j, o, m, depth) && Lines(m, depth) == head + tail && head != []
    ensures ls[o] == head[0] && ls[o..o + |head|] == head && ls[o + |head|..o + |head| + |tail|] == tail
    ensures forall i | j < i < o + |head| :: ls[i].indent >= 2 * depth
  {
    var block := ls[o..o + |head + tail|];
    assert block[..|head|] == head && block[|head|..] == tail;
    assert forall i | o <= i < o + |head| :: ls[i] == block[i - o];
  }

  /** A nested entry: its line opens a mapping that ends up with the inner block's meaning. */
  lemma NestedStored(ls: seq<Line>, j: int, o: nat, key: string, inner: Mapping, rest: Mapping, depth: nat)
    requires Placed(ls, j, o, Nested(key, inner, rest), depth)
    ensures var e := o + 1 + |Lines(inner, depth + 1)|;
            -1 <= j < |ls| && e <= |ls| && Placed(ls, j, e, rest, depth)
            && ValuesOf(ls, j, e) == ValuesOf(ls, j, o)[key := Dict(Meaning(inner))]
    decreases inner, 1
  {
    hide ValuesOf, Parent, Cell;
    hide Placed, Lines;
    var e := o + 1 + |Lines(inner, depth + 1)|;
    InnerPlaced(ls, j, o, key, inner, rest, depth);
    BlockStored(ls, o, o + 1, inner, depth + 1);
    InnerTree(ls, o, e, Meaning(inner));
    ValuesStep(ls, j, o);
    DeeperElsewhere(ls, j, o, e);
    ValuesSame(ls, j, o + 1, e);
  }

  /** A mapping line whose block ends at `e` denotes what was stored by then. */
  lemma InnerTree(ls: seq<Line>, o: nat, e: nat, stored: map<string, Value>)
    requires o < e <= |ls| && (e < |ls| ==> ls[e].indent <= ls[o].indent)
    requires ValuesOf(ls, o, e) == ValuesOf(ls, o, o + 1) + stored
    ensures TreeOf(ls, o) == Dict(stored)
  {
    hide ValuesOf, Cell;
    NothingYet(ls, o);
    assert map[] + stored == stored;
    ClosedForGood(ls, o, e, |ls|);
    ValuesSame(ls, o, e, |ls|);
  }

  lemma InnerPlaced(ls: seq<Line>, j: int, o: nat, key: string, inner: Mapping, rest: Mapping, depth: nat)
    requires Placed(ls, j, o, Nested(key, inner, rest), depth)
    ensures var e := o + 1 + |Lines(inner, depth + 1)|;
            && e <= |ls| && ls[o] == Line(2 * depth, Open(key))
            && Placed(ls, o, o + 1, inner, depth + 1) && Placed(ls, j, e, rest, depth)
            && (forall i | o < i < e :: ls[i].indent > ls[o].indent)
            && (e < |ls| ==> ls[e].indent <= ls[o].indent)
            && -1 <= j < o && Parent(ls, o) == j
  {
    hide Parent, Lines;
    var block, tail := Lines(inner, depth + 1), Lines(rest, depth);
    var e := o + 1 + |block|;
    NestedLayout(ls, j, o, key, inner, rest, depth);
    ParentOfFirst(ls, j, o, depth);
    InnerIndents(ls, o, e, inner, depth);
    assert forall i | j < i < e :: ls[i].indent >= 2 * depth;
    AfterBlock(ls, e, rest, depth);
  }

  /** The line behind a block is the first of the rest of the mapping, or lies outside the mapping. */
  lemma AfterBlock(ls: seq<Line>, e: nat, rest: Mapping, depth: nat)
    requires e + |Lines(rest, depth)| <= |ls| && ls[e..e + |Lines(rest, depth)|] == Lines(rest, depth)
    requires e + |Lines(rest, depth)| < |ls| ==> ls[e + |Lines(rest, depth)|].indent < 2 * depth
    ensures e < |ls| ==> ls[e].indent <= 2 * depth
  {
    hide Lines;
    var tail := Lines(rest, depth);
    if tail != [] {
      assert ls[e] == ls[e..e + |tail|][0];
      FirstIndent(rest, depth);
    }
  }

  lemma ThreeParts<T>(s: seq<T>, o: nat, first: T, block: seq<T>, tail: seq<T>)
    requires o + 1 + |block| + |tail| <= |s|
    requires s[o..o + 1 + |block| + |tail|] == ([first] + block) + tail
    ensures s[o] == first && s[o + 1..o + 1 + |block|] == block
    ensures s[o + 1 + |block|..o + 1 + |block| + |tail|] == tail
  {
    var whole, n := ([first] + block) + tail, 1 + |block| + |tail|;
    SliceOfSlice(s, o, o + n, 1, 1 + |block|);
    SliceOfSlice(s, o, o + n, 1 + |block|, n);
    assert s[o] == whole[0];
    assert whole[1..1 + |block|] == block && whole[1 + |block|..n] == tail;
  }

  lemma NestedLayout(ls: seq<Line>, j: int, o: nat, key: string, inner: Mapping, rest: Mapping, depth: nat)
    requires Placed(ls, j, o, Nested(key, inner, rest), depth)
    ensures var e := o + 1 + |Lines(inner, depth + 1)|;
            && e + |Lines(rest, depth)| == o + |Lines(Nested(key, inner, rest), depth)| <= |ls|
            && ls[o] == Line(2 * depth, Open(key))
            && ls[o + 1..e] == Lines(inner, depth + 1) && ls[e..e + |Lines(rest, depth)|] == Lines(rest, depth)
  {
    hide Lines;
    LinesNested(key, inner, rest, depth);
    ThreeParts(ls, o, Line(2 * depth, Open(key)), Lines(inner, depth + 1), Lines(rest, depth));
  }

  lemma LinesNested(key: string, inner: Mapping, rest: Mapping, depth: nat)
    ensures Lines(Nested(key, inner, rest), depth)
         == ([Line(2 * depth, Open(key))] + Lines(inner, depth + 1)) + Lines(rest, depth)
  {
  }

  lemma InnerIndents(ls: seq<Line>, o: nat, e: nat, inner: Mapping, depth: nat)
    requires o < e <= |ls| && ls[o + 1..e] == Lines(inner, depth + 1)
    ensures forall i | o < i < e :: ls[i].indent >= 2 * (depth + 1)
  {
    hide Lines;
    forall i | o < i < e
      ensures ls[i].indent >= 2 * (depth + 1)
    {
      assert ls[i] == ls[o + 1..e][i - o - 1];
    }
  }

  lemma FirstIndent(m: Mapping, depth: nat)
    requires Lines(m, depth) != []
    ensures Lines(m, depth)[0].indent == 2 * depth
  {
  }

  lemma NothingYet(ls: seq<Line>, o: nat)
    requires o < |ls|
    ensures ValuesOf(ls, o, o + 1) == map[]
  {
    hide Cell;
    CellStep(ls, o, o);
  }

  lemma NothingAtStart(ls: seq<Line>)
    ensures ValuesOf(ls, -1, 0) == map[]
  {
  }

  /** Printing a mapping, each value in any writing that stands for it, joining the rows with any line break
      and parsing the text gives the mapping's meaning back. */
  lemma PrintParse(m: Mapping, eol: string)
    requires Printable(m) && LineBreak(eol)
    ensures TreeOf(LinesOf(JoinLines(Print(m, 0), eol)), -1) == Dict(Meaning(m))
  {
    hide ReadLines, Print, Printable, ValuesOf, Placed, Lines, Meaning, NoBreak, SplitLines, JoinLines;
    var ls := Lines(m, 0);
    PrintedRows(m, 0);
    SplitJoined(Print(m, 0), eol);
    ReadPrinted(m, 0);
    PlacedAtTop(m);
    BlockStored(ls, -1, 0, m, 0);
    NothingAtStart(ls);
    assert map[] + Meaning(m) == Meaning(m);
  }

  lemma PlacedAtTop(m: Mapping)
    ensures Placed(Lines(m, 0), -1, 0, m, 0)
  {
    var ls := Lines(m, 0);
    assert ls[0..|ls|] == ls;
  }

  // ---- a list under a key ----

  lemma ItemLine()
    ensures ReadLine("  - a") == Some(Line(2, Item("a")))
  {
    assert !IsSpace('a') && "- a"[2..] == "a" && Spaces(2) + "- a" == "  - a";
    hide IsSpace, Strip, StripRight, CountSpaces, Content, Spaces;
    NothingToStrip("  - a");
    ReadIndented(2, "- a");
  }

  /** A key whose block is a list ends up with an empty dict: the text `k:` followed by `  - a`. */
  lemma ListBecomesEmptyDict()
    ensures TreeOf(LinesOf("k:\n  - a\n"), -1) == Dict(map["k" := Dict(map[])])
  {
    hide SplitLines, ReadLines, TreeOf;
    TwoRows("k:", "  - a");
    SplitJoined(["k:", "  - a"], "\n");
    ReadKeyWithItem();
    TreeOfKeyWithItem([Line(0, Open("k")), Line(2, Item("a"))]);
    assert "k:" + "\n" + "  - a" + "\n" == "k:\n  - a\n";
  }

  lemma TwoRows(first: string, second: string)
    ensures JoinLines([first, second], "\n") == first + "\n" + second + "\n"
  {
    assert [first, second][1..] == [second] && [second][1..] == [];
    assert JoinLines([second], "\n") == second + "\n" + "";
    assert first + "\n" + (second + "\n") == first + "\n" + second + "\n";
  }

  lemma ReadKeyWithItem()
    ensures ReadLines(["k:", "  - a"]) == [Line(0, Open("k")), Line(2, Item("a"))]
  {
    hide ReadLine;
    ReadOpenLine("k", 0);
    assert Spaces(0) + ("k" + ":") == "k:";
    ItemLine();
    ReadOneRow("k:");
    assert ["k:", "  - a"][..1] == ["k:"];
  }

  lemma TreeOfKeyWithItem(ls: seq<Line>)
    requires ls == [Line(0, Open("k")), Line(2, Item("a"))]
    ensures TreeOf(ls, -1) == Dict(map["k" := Dict(map[])])
  {
    assert Parent(ls, 0) == -1;
    assert Cell(ls, -1, 0) == map[];
    assert Cell(ls, -1, 1) == map["k" := 0];
    assert Cell(ls, -1, 2) == map["k" := 0];
    EmptyDictIff(ls, 0);
    assert ValuesOf(ls, -1, 2) == map["k" := Dict(map[])];
  }

  // ---- what the result does not depend on ----

  /** Rows given by their indents and the text after them. */
  function Indented(indents: seq<nat>, rests: seq<string>): seq<string>
    requires |indents| == |rests|
  {
    seq(|rests|, i requires 0 <= i < |rests| => Spaces(indents[i]) + rests[i])
  }

  /** The same line under two indentations. */
  ghost predicate Matched(a: seq<nat>, b: seq<nat>, x: Line, y: Line)
    requires |a| == |b|
  {
    x.body == y.body && exists i | 0 <= i < |a| :: x.indent == a[i] && y.indent == b[i]
  }

  ghost predicate AllMatched(a: seq<nat>, b: seq<nat>, ls: seq<Line>, ms: seq<Line>)
    requires |a| == |b|
  {
    |ls| == |ms| && forall k | 0 <= k < |ls| :: Matched(a, b, ls[k], ms[k])
  }

  lemma MatchedMore(a: seq<nat>, b: seq<nat>, n: nat, x: Line, y: Line)
    requires n <= |a| == |b| && Matched(a[..n], b[..n], x, y)
    ensures Matched(a, b, x, y)
  {
    var i :| 0 <= i < n && x.indent == a[..n][i] && y.indent == b[..n][i];
    assert x.indent == a[i] && y.indent == b[i];
  }

  lemma LastRow(a: seq<nat>, rests: seq<string>)
    requires |a| == |rests| > 0 && (rests[|rests| - 1] == "" || rests[|rests| - 1][0] != ' ')
    ensures var n := |rests| - 1;
            ReadLines(Indented(a, rests)) == ReadLines(Indented(a[..n], rests[..n]))
              + match ReadLine(rests[n]) case None => [] case Some(line) => [Line(a[n], line.body)]
  {
    hide ReadLine;
    var n := |rests| - 1;
    var rows := Indented(a, rests);
    assert rows[..n] == Indented(a[..n], rests[..n]);
    IndentedLine(a[n], rests[n]);
    assert ReadLines(rows[..n]) + [] == ReadLines(rows[..n]);
  }

  lemma {:induction false} RowsMatched(a: seq<nat>, b: seq<nat>, rests: seq<string>)
    requires |a| == |b| == |rests| && forall i | 0 <= i < |rests| :: rests[i] == "" || rests[i][0] != ' '
    ensures AllMatched(a, b, ReadLines(Indented(a, rests)), ReadLines(Indented(b, rests)))
    decreases |rests|
  {
    if rests != [] {
      hide ReadLine, ReadLines, Indented, Matched;
      var n := |rests| - 1;
      var ls, ms := ReadLines(Indented(a[..n], rests[..n])), ReadLines(Indented(b[..n], rests[..n]));
      RowsMatched(a[..n], b[..n], rests[..n]);
      forall k | 0 <= k < |ls|
        ensures Matched(a, b, ls[k], ms[k])
      {
        MatchedMore(a, b, n, ls[k], ms[k]);
      }
      LastRow(a, rests);
      LastRow(b, rests);
      LastMatched(a, b, rests);
    } else {
      assert ReadLines(Indented(a, rests)) == [] == ReadLines(Indented(b, rests));
    }
  }

  lemma LastMatched(a: seq<nat>, b: seq<nat>, rests: seq<string>)
    requires |a| == |b| == |rests| > 0
    ensures var n := |rests| - 1;
            ReadLine(rests[n]).Some? ==>
              Matched(a, b, Line(a[n], ReadLine(rests[n]).value.body), Line(b[n], ReadLine(rests[n]).value.body))
  {
    hide ReadLine;
  }

  lemma MatchedShape(a: seq<nat>, b: seq<nat>, ls: seq<Line>, ms: seq<Line>)
    requires |a| == |b| && AllMatched(a, b, ls, ms)
    requires forall i, j | 0 <= i < |a| && 0 <= j < |a| :: a[i] < a[j] <==> b[i] < b[j]
    ensures SameShape(ls, ms)
  {
    forall k, l | 0 <= k < |ls| && 0 <= l < |ls|
      ensures ls[k].indent < ls[l].indent <==> ms[k].indent < ms[l].indent
    {
      assert Matched(a, b, ls[k], ms[k]) && Matched(a, b, ls[l], ms[l]);
    }
  }

  /** Any strictly increasing change of the indents leaves the parsed tree as it is. */
  lemma ReindentSameTree(indents: seq<nat>, rests: seq<string>, change: nat -> nat)
    requires |indents| == |rests| && forall i | 0 <= i < |rests| :: rests[i] == "" || rests[i][0] != ' '
    requires forall m: nat, n: nat :: m < n ==> change(m) < change(n)
    ensures var changed := seq(|indents|, i requires 0 <= i < |indents| => change(indents[i]));
            TreeOf(ReadLines(Indented(indents, rests)), -1) == TreeOf(ReadLines(Indented(changed, rests)), -1)
  {
    hide ReadLines, Indented;
    var changed := seq(|indents|, i requires 0 <= i < |indents| => change(indents[i]));
    forall i, j | 0 <= i < |indents| && 0 <= j < |indents|
      ensures indents[i] < indents[j] <==> changed[i] < changed[j]
    {
      assert indents[j] < indents[i] ==> change(indents[j]) < change(indents[i]);
    }
    RowsMatched(indents, changed, rests);
    MatchedShape(indents, changed, ReadLines(Indented(indents, rests)), ReadLines(Indented(changed, rests)));
    SameTree(ReadLines(Indented(indents, rests)), ReadLines(Indented(changed, rests)), -1);
  }

  /** Blank and comment-only rows anywhere change nothing. */
  lemma BlanksSameTree(before: seq<string>, blanks: seq<string>, after: seq<string>)
    requires forall i | 0 <= i < |blanks| :: Blank(blanks[i])
    ensures TreeOf(ReadLines(before + blanks + after), -1) == TreeOf(ReadLines(before + after), -1)
  {
    hide ReadLines;
    BlanksSkipped(blanks);
    ReadLinesAppend(before + blanks, after);
    ReadLinesAppend(before, blanks);
    ReadLinesAppend(before, after);
    assert ReadLines(before) + [] == ReadLines(before);
  }
}
