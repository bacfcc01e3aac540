/** `_find_blocks` and the guard check of `_t7`, over the `if(` and `endif()` tokens of a text. */
module CMakeBlocks {
  /** A regex match: where it starts and ends. */
  datatype Span = Span(start: nat, end: nat)

  /** A match of the token regex, an `if (` or an `endif ( )`. */
  datatype Token = Token(start: nat, end: nat, opens: bool)

  /** The tokens of a text in order; matches do not overlap. */
  ghost predicate InOrder(toks: seq<Token>) {
    && (forall i | 0 <= i < |toks| :: toks[i].start < toks[i].end)
    && (forall i, j | 0 <= i < j < |toks| :: toks[i].end <= toks[j].start)
  }

  /** Openers minus closers among the tokens from `a` up to `b`. */
  function Depth(toks: seq<Token>, a: nat, b: nat): int
    requires a <= b <= |toks|
    decreases b - a
  {
    if a == b then 0 else Depth(toks, a, b - 1) + if toks[b - 1].opens then 1 else -1
  }

  /** The tokens from `a` up to `b` pair off among themselves. */
  ghost predicate Nested(toks: seq<Token>, a: nat, b: nat) {
    a <= b <= |toks| && Depth(toks, a, b) == 0 && forall c | a <= c <= b :: Depth(toks, a, c) >= 0
  }

  /** Token `m` is the endif of a block whose content starts at token `k`. */
  ghost predicate Closes(toks: seq<Token>, k: nat, m: nat) {
    m < |toks| && !toks[m].opens && Nested(toks, k, m)
  }

  /** Endif `m` belongs to the if at token `a`. */
  ghost predicate Partner(toks: seq<Token>, a: nat, m: nat) {
    Closes(toks, a + 1, m)
  }

  // ---- the scan ----

  /** The first token at or after position `i`. */
  function FirstAt(toks: seq<Token>, i: nat): (k: nat)
    ensures k <= |toks|
    ensures forall t | 0 <= t < k :: toks[t].start < i
    ensures k < |toks| ==> toks[k].start >= i
  {
    if toks == [] || toks[0].start >= i then 0
    else
      var rest := FirstAt(toks[1..], i);
      assert forall t | 1 <= t < 1 + rest :: toks[t] == toks[1..][t - 1];
      1 + rest
  }

  /** Where the scan stops that enters with `depth` open at token `k` and position `i`. */
  function ScanEnd(toks: seq<Token>, k: nat, depth: nat, i: nat): nat
    requires k <= |toks|
    decreases |toks| - k
  {
    if depth == 0 || k == |toks| then i
    else ScanEnd(toks, k + 1, if toks[k].opens then depth + 1 else depth - 1, toks[k].end)
  }

  /** Where the block of an opener that ends at `i` is taken to end. */
  function BlockEnd(toks: seq<Token>, i: nat): nat {
    ScanEnd(toks, FirstAt(toks, i), 1, i)
  }

  method Search(toks: seq<Token>, i: nat) returns (k: nat)
    ensures k == FirstAt(toks, i)
  {
    k := 0;
    assert toks[0..] == toks;
    while k < |toks| && toks[k].start < i
      invariant k <= |toks|
      invariant k + FirstAt(toks[k..], i) == FirstAt(toks, i)
    {
      assert toks[k..][1..] == toks[k + 1..];
      k := k + 1;
    }
  }

  lemma NextSearch(toks: seq<Token>, k: nat)
    requires InOrder(toks) && k < |toks|
    ensures FirstAt(toks, toks[k].end) == k + 1
  {
    var n := FirstAt(toks, toks[k].end);
    assert k + 1 < |toks| ==> toks[k + 1].start >= toks[k].end;
  }

  /** `_find_blocks`: one block per opener match, pattern by pattern, on any text, nested or not. */
  method FindBlocks(toks: seq<Token>, length: nat, openers: seq<seq<Span>>) returns (blocks: seq<seq<Span>>)
    requires InOrder(toks) && forall t | 0 <= t < |toks| :: toks[t].end <= length
    ensures |blocks| == |openers|
    ensures forall p | 0 <= p < |openers| ::
              && |blocks[p]| == |openers[p]|
              && forall q | 0 <= q < |openers[p]| ::
                   blocks[p][q] == Span(openers[p][q].start, BlockEnd(toks, openers[p][q].end))
  {
    blocks := [];
    for p := 0 to |openers|
      invariant |blocks| == p
      invariant forall p' | 0 <= p' < p ::
                  && |blocks[p']| == |openers[p']|
                  && forall q | 0 <= q < |openers[p']| ::
                       blocks[p'][q] == Span(openers[p'][q].start, BlockEnd(toks, openers[p'][q].end))
    {
      var found := BlocksOf(toks, length, openers[p]);
      blocks := blocks + [found];
    }
  }

  method BlocksOf(toks: seq<Token>, length: nat, matches: seq<Span>) returns (blocks: seq<Span>)
    requires InOrder(toks) && forall t | 0 <= t < |toks| :: toks[t].end <= length
    ensures |blocks| == |matches|
    ensures forall q | 0 <= q < |matches| :: blocks[q] == Span(matches[q].start, BlockEnd(toks, matches[q].end))
  {
    blocks := [];
    for q := 0 to |matches|
      invariant |blocks| == q
      invariant forall q' | 0 <= q' < q :: blocks[q'] == Span(matches[q'].start, BlockEnd(toks, matches[q'].end))
    {
      var end := ScanBlock(toks, length, matches[q].end);
      blocks := blocks + [Span(matches[q].start, end)];
    }
  }

  /** The inner loop: walk forward, counting, to the endif that brings the depth back to zero. */
  method ScanBlock(toks: seq<Token>, length: nat, from: nat) returns (i: nat)
    requires InOrder(toks) && forall t | 0 <= t < |toks| :: toks[t].end <= length
    ensures i == BlockEnd(toks, from)
  {
    hide ScanEnd;
    var depth: nat := 1;
    i := from;
    while i < length && depth > 0
      invariant FirstAt(toks, i) <= |toks|
      invariant ScanEnd(toks, FirstAt(toks, i), depth, i) == BlockEnd(toks, from)
      decreases |toks| - FirstAt(toks, i), depth
    {
      var k := Search(toks, i);
      ScanStep(toks, k, depth, i);
      if k == |toks| {
        break;
      }
      NextSearch(toks, k);
      if !toks[k].opens {
        depth := depth - 1;
      } else {
        depth := depth + 1;
      }
      i := toks[k].end;
    }
    assert FirstAt(toks, i) < |toks| ==> i <= toks[FirstAt(toks, i)].start < toks[FirstAt(toks, i)].end <= length;
    ScanStep(toks, FirstAt(toks, i), depth, i);
  }

  lemma ScanStep(toks: seq<Token>, k: nat, depth: nat, i: nat)
    requires k <= |toks|
    ensures ScanEnd(toks, k, depth, i) ==
            if depth == 0 || k == |toks| then i
            else ScanEnd(toks, k + 1, if toks[k].opens then depth + 1 else depth - 1, toks[k].end)
  {
  }

  // ---- the scan finds the matching endif ----

  lemma {:induction false} DepthSplit(toks: seq<Token>, a: nat, b: nat, c: nat)
    requires a <= b <= c <= |toks|
    ensures Depth(toks, a, c) == Depth(toks, a, b) + Depth(toks, b, c)
    decreases c
  {
    if b == c {
    } else {
      DepthSplit(toks, a, b, c - 1);
    }
  }

  lemma {:induction false} ScanReaches(toks: seq<Token>, k: nat, b: nat, m: nat, i: nat)
    requires Closes(toks, k, m) && k <= b <= m
    ensures ScanEnd(toks, b, 1 + Depth(toks, k, b), i) == toks[m].end
    decreases m - b
  {
    if b == m {
    } else {
      assert Depth(toks, k, b + 1) >= 0;
      ScanReaches(toks, k, b + 1, m, toks[b].end);
    }
  }

  /** The scan ends exactly at the endif that closes its block. */
  lemma ScanFinds(toks: seq<Token>, k: nat, m: nat, i: nat)
    requires Closes(toks, k, m)
    ensures ScanEnd(toks, k, 1, i) == toks[m].end
  {
    ScanReaches(toks, k, k, m, i);
  }

  /** The first unmatched endif after `k`, given that the depth gets below zero by `b`. */
  lemma {:induction false} FirstUnmatched(toks: seq<Token>, k: nat, b: nat) returns (m: nat)
    requires k <= b <= |toks| && Depth(toks, k, b) < 0
    ensures m < b && Closes(toks, k, m)
    decreases b
  {
    if c :| k <= c < b && Depth(toks, k, c) < 0 {
      m := FirstUnmatched(toks, k, c);
    } else {
      m := b - 1;
    }
  }

  /** In a well nested text every block opened at an if token is closed by exactly one later endif. */
  lemma BlockCloses(toks: seq<Token>, a: nat) returns (m: nat)
    requires Nested(toks, 0, |toks|) && a < |toks| && toks[a].opens
    ensures a < m && Partner(toks, a, m)
    ensures forall m' | Partner(toks, a, m') :: m' == m
  {
    DepthSplit(toks, 0, a, |toks|);
    DepthSplit(toks, a, a + 1, |toks|);
    assert Depth(toks, 0, a) >= 0 && Depth(toks, a, a + 1) == Depth(toks, a, a) + 1;
    m := FirstUnmatched(toks, a + 1, |toks|);
    forall m' | Partner(toks, a, m')
      ensures m' == m
    {
      ClosesOnce(toks, a + 1, m, m');
      ClosesOnce(toks, a + 1, m', m);
    }
  }

  lemma ClosesOnce(toks: seq<Token>, k: nat, m: nat, m': nat)
    requires Closes(toks, k, m) && Closes(toks, k, m')
    ensures m >= m'
  {
    assert Depth(toks, k, m + 1) == -1;
  }

  /** How an opener match lies among the tokens: none straddles its end, and at most the if token it
      begins with lies inside it. An opener inside `elseif(...)` has no token of its own. */
  ghost predicate Lies(toks: seq<Token>, o: Span) {
    && o.start < o.end
    && forall t | 0 <= t < |toks| ::
         toks[t].end <= o.start || toks[t].start >= o.end || Own(toks, o, t)
  }

  ghost predicate Own(toks: seq<Token>, o: Span, t: nat) {
    t < |toks| && toks[t].opens && toks[t].start == o.start && toks[t].end <= o.end
  }

  lemma OwnIsBefore(toks: seq<Token>, o: Span, a: nat)
    requires InOrder(toks) && Lies(toks, o) && Own(toks, o, a)
    ensures FirstAt(toks, o.end) == a + 1
  {
    assert toks[a].start < o.end;
    assert a + 1 < |toks| ==> toks[a + 1].start >= o.end;
  }

  /** On a well nested text the block of an opener runs to its own matching endif: the one whose block
      content, the tokens in between, is itself well nested. */
  lemma BlockIsMatching(toks: seq<Token>, o: Span, a: nat) returns (m: nat)
    requires InOrder(toks) && Nested(toks, 0, |toks|) && Lies(toks, o) && Own(toks, o, a)
    ensures a < m && Partner(toks, a, m) && BlockEnd(toks, o.end) == toks[m].end
  {
    m := BlockCloses(toks, a);
    OwnIsBefore(toks, o, a);
    ScanFinds(toks, a + 1, m, o.end);
  }

  // ---- blocks never cross ----

  /** A scan that finds no endif of its own runs over all remaining tokens. */
  lemma {:induction false} ScanRunsOut(toks: seq<Token>, k: nat, b: nat, i: nat)
    requires k <= b <= |toks| && forall c | k <= c <= |toks| :: Depth(toks, k, c) >= 0
    ensures ScanEnd(toks, b, 1 + Depth(toks, k, b), i) == if b == |toks| then i else toks[|toks| - 1].end
    decreases |toks| - b
  {
    if b == |toks| {
    } else {
      assert Depth(toks, k, b + 1) >= 0;
      ScanRunsOut(toks, k, b + 1, toks[b].end);
    }
  }

  /** The two ways a scan from token `k` can end. */
  lemma ScanOutcome(toks: seq<Token>, k: nat, i: nat) returns (m: nat)
    requires k <= |toks|
    ensures k <= m <= |toks|
    ensures m < |toks| ==> Closes(toks, k, m) && ScanEnd(toks, k, 1, i) == toks[m].end
    ensures m == |toks| ==> forall c | k <= c <= |toks| :: Depth(toks, k, c) >= 0
    ensures m == |toks| ==> ScanEnd(toks, k, 1, i) == if k == |toks| then i else toks[|toks| - 1].end
  {
    if b: nat :| k <= b <= |toks| && Depth(toks, k, b) < 0 {
      m := FirstUnmatched(toks, k, b);
      ScanFinds(toks, k, m, i);
    } else {
      m := |toks|;
      ScanRunsOut(toks, k, k, i);
    }
  }

  /** A scan that starts inside a block ends inside it. */
  lemma ClosesWithin(toks: seq<Token>, k: nat, k': nat, m: nat, i: nat)
    requires InOrder(toks) && Closes(toks, k, m) && k <= k' <= m
    ensures ScanEnd(toks, k', 1, i) <= toks[m].end
  {
    DepthSplit(toks, k, k', m + 1);
    assert Depth(toks, k, m + 1) == -1 && Depth(toks, k, k') >= 0;
    var m' := FirstUnmatched(toks, k', m + 1);
    ScanFinds(toks, k', m', i);
  }

  lemma EndsByLast(toks: seq<Token>, k: nat, i: nat)
    requires InOrder(toks) && k < |toks|
    ensures ScanEnd(toks, k, 1, i) <= toks[|toks| - 1].end
  {
    var m := ScanOutcome(toks, k, i);
  }

  /** The block whose content starts at token `k` stops at token `j`: the endif that closes it, or the last
      token if nothing does. */
  ghost predicate Stops(toks: seq<Token>, k: nat, j: nat) {
    || Closes(toks, k, j)
    || (k <= j == |toks| - 1 && forall c | k <= c <= |toks| :: Depth(toks, k, c) >= 0)
  }

  /** Token `j` lies within opener `o`, and something of the opener or of the text follows it. */
  ghost predicate WithinOpener(toks: seq<Token>, j: nat, o: Span) {
    && j < |toks| && o.start < toks[j].end && toks[j].start < o.end
    && (toks[j].end < o.end || FirstAt(toks, o.end) < |toks|)
  }

  /** On any text, nested or not, exactly when the blocks of two openers, one after the other, cross: when
      the first stops at a token within the second. */
  lemma {:induction false} BlocksCrossIff(toks: seq<Token>, o1: Span, o2: Span)
    requires InOrder(toks) && o1.end <= o2.start < o2.end
    requires forall t | 0 <= t < |toks| :: toks[t].end <= o2.end || toks[t].start >= o2.end
    ensures o2.start < BlockEnd(toks, o1.end) < BlockEnd(toks, o2.end) <==>
            exists j: nat :: Stops(toks, FirstAt(toks, o1.end), j) && WithinOpener(toks, j, o2)
  {
    hide ScanEnd, FirstAt, Depth;
    var k1, k2 := FirstAt(toks, o1.end), FirstAt(toks, o2.end);
    if j: nat :| Stops(toks, k1, j) && WithinOpener(toks, j, o2) {
      StopsAt(toks, k1, j, o1.end);
      ScanEndBeyond(toks, k2, o2.end);
    } else if o2.start < BlockEnd(toks, o1.end) {
      var j := ScanStops(toks, k1, o1.end);
      assert Stops(toks, k1, j);
      if toks[j].start < o2.end {
        ScanStep(toks, |toks|, 1, o2.end);
      } else {
        FirstAtGrows(toks, o1.end, o2.end);
        StopsLater(toks, k1, k2, j, o2.end);
      }
    }
  }

  lemma {:induction false} StopsAt(toks: seq<Token>, k: nat, j: nat, i: nat)
    requires Stops(toks, k, j)
    ensures j < |toks| && ScanEnd(toks, k, 1, i) == toks[j].end
  {
    hide ScanEnd, Depth;
    if Closes(toks, k, j) {
      ScanFinds(toks, k, j, i);
    } else {
      OpenRunsOut(toks, k, i);
    }
  }

  /** A scan that finds a token stops at one. */
  lemma {:induction false} ScanStops(toks: seq<Token>, k: nat, i: nat) returns (j: nat)
    requires k <= |toks|
    ensures k < |toks| ==> Stops(toks, k, j) && ScanEnd(toks, k, 1, i) == toks[j].end
    ensures k == |toks| ==> ScanEnd(toks, k, 1, i) == i
  {
    hide ScanEnd, Depth;
    j := ScanOutcome(toks, k, i);
    if j == |toks| && k < |toks| {
      j := |toks| - 1;
    }
  }

  lemma {:induction false} ScanEndBeyond(toks: seq<Token>, k: nat, i: nat)
    requires InOrder(toks) && k <= |toks|
    ensures k < |toks| ==> ScanEnd(toks, k, 1, i) >= toks[k].end
    ensures k == |toks| ==> ScanEnd(toks, k, 1, i) == i
  {
    hide ScanEnd, Depth;
    var j := ScanStops(toks, k, i);
  }

  /** A scan that starts inside a block ends inside it. */
  lemma {:induction false} StopsLater(toks: seq<Token>, k: nat, k': nat, j: nat, i: nat)
    requires InOrder(toks) && Stops(toks, k, j) && k <= k' <= j
    ensures ScanEnd(toks, k', 1, i) <= toks[j].end
  {
    hide ScanEnd, Depth;
    if Closes(toks, k, j) {
      ClosesWithin(toks, k, k', j, i);
    } else {
      EndsByLast(toks, k', i);
    }
  }

  /** The last token is `o2`'s own if, and nothing closes what opened before it at token `k1`. */
  ghost predicate LeftOpen(toks: seq<Token>, k1: nat, o2: Span) {
    && k1 <= |toks| && toks != []
    && Own(toks, o2, |toks| - 1) && toks[|toks| - 1].end < o2.end
    && forall c | k1 <= c <= |toks| :: Depth(toks, k1, c) >= 0
  }

  /** For openers with no token in them but their own if, as all of `_find_blocks`'s patterns are: blocks
      cross exactly when the first is never closed and the second is the last thing the text opens or
      closes. */
  lemma {:induction false} UnclosedBlocksCrossIff(toks: seq<Token>, o1: Span, o2: Span)
    requires InOrder(toks) && Lies(toks, o2) && o1.end <= o2.start
    ensures o2.start < BlockEnd(toks, o1.end) < BlockEnd(toks, o2.end) <==> LeftOpen(toks, FirstAt(toks, o1.end), o2)
  {
    hide ScanEnd, FirstAt, Depth;
    var k1 := FirstAt(toks, o1.end);
    BlocksCrossIff(toks, o1, o2);
    if j: nat :| Stops(toks, k1, j) && WithinOpener(toks, j, o2) {
      assert Own(toks, o2, j);
      OwnIsBefore(toks, o2, j);
    }
    if LeftOpen(toks, k1, o2) {
      OwnStops(toks, o1, o2);
    }
  }

  lemma {:induction false} OwnStops(toks: seq<Token>, o1: Span, o2: Span)
    requires InOrder(toks) && LeftOpen(toks, FirstAt(toks, o1.end), o2) && o1.end <= o2.start
    ensures Stops(toks, FirstAt(toks, o1.end), |toks| - 1) && WithinOpener(toks, |toks| - 1, o2)
  {
    hide Depth;
    assert toks[|toks| - 1].start >= o1.end;
  }

  lemma {:induction false} OpenRunsOut(toks: seq<Token>, k: nat, i: nat)
    requires k <= |toks| && forall c | k <= c <= |toks| :: Depth(toks, k, c) >= 0
    ensures ScanEnd(toks, k, 1, i) == if k == |toks| then i else toks[|toks| - 1].end
  {
    hide ScanEnd;
    ScanRunsOut(toks, k, k, i);
  }

  lemma {:induction false} FirstAtGrows(toks: seq<Token>, i: nat, j: nat)
    requires InOrder(toks) && i <= j
    ensures FirstAt(toks, i) <= FirstAt(toks, j)
  {
    var k, l := FirstAt(toks, i), FirstAt(toks, j);
    assert l < |toks| ==> toks[l].start >= j;
  }

  /** On a well nested text, the blocks of any two openers, one after the other, are disjoint or one
      contains the other. */
  lemma {:induction false} BlocksDoNotCross(toks: seq<Token>, o1: Span, o2: Span)
    requires InOrder(toks) && Nested(toks, 0, |toks|) && Lies(toks, o2) && o1.end <= o2.start
    ensures BlockEnd(toks, o1.end) <= o2.start || BlockEnd(toks, o2.end) <= BlockEnd(toks, o1.end)
  {
    UnclosedBlocksCrossIff(toks, o1, o2);
    NestedEndsClosed(toks);
  }

  lemma {:induction false} NestedEndsClosed(toks: seq<Token>)
    requires Nested(toks, 0, |toks|)
    ensures toks != [] ==> !toks[|toks| - 1].opens
  {
    if toks != [] {
      assert Depth(toks, 0, |toks| - 1) >= 0;
    }
  }

  /** A text where they do cross: `if(IOS) if(IOS)`, neither closed. */
  lemma UnclosedBlocksCross()
    ensures var toks := [Token(0, 3, true), Token(10, 13, true)];
            var o1, o2 := Span(0, 7), Span(10, 17);
            && InOrder(toks) && Lies(toks, o1) && Lies(toks, o2)
            && o2.start < BlockEnd(toks, o1.end) < BlockEnd(toks, o2.end)
  {
    var toks := [Token(0, 3, true), Token(10, 13, true)];
    var o1, o2 := Span(0, 7), Span(10, 17);
    assert Own(toks, o1, 0) && Own(toks, o2, 1);
    OwnIsBefore(toks, o1, 0);
    assert Depth(toks, 1, 1) == 0 && Depth(toks, 1, 2) == 1;
    UnclosedBlocksCrossIff(toks, o1, o2);
  }

  // ---- the guard check ----

  /** `text[:p].rfind("endif()")` over the starts of the literal occurrences. */
  function LastBefore(starts: seq<nat>, width: nat, p: nat): int {
    if starts == [] then -1
    else
      var rest := LastBefore(starts[..|starts| - 1], width, p);
      if starts[|starts| - 1] + width <= p && starts[|starts| - 1] > rest then starts[|starts| - 1] else rest
  }

  /** The start of the last Apple opener that ends by `p`. */
  function LastOpener(openers: seq<Span>, p: nat): int {
    if openers == [] then -1
    else if openers[|openers| - 1].end <= p then openers[|openers| - 1].start
    else LastOpener(openers[..|openers| - 1], p)
  }

  const ENDIF := "endif()"
  const ENDIF_WIDTH: nat := |ENDIF|

  /** The comparison `_t7` makes for an occurrence at `p`. */
  predicate GuardPasses(openers: seq<Span>, literals: seq<nat>, p: nat) {
    LastOpener(openers, p) > LastBefore(literals, ENDIF_WIDTH, p)
  }

  /** `_t7`: every occurrence of an Apple-only property must pass. */
  method CheckGuards(openers: seq<Span>, literals: seq<nat>, occurrences: seq<nat>) returns (ok: bool)
    ensures ok <==> forall i | 0 <= i < |occurrences| :: GuardPasses(openers, literals, occurrences[i])
  {
    for i := 0 to |occurrences|
      invariant forall j | 0 <= j < i :: GuardPasses(openers, literals, occurrences[j])
    {
      if !GuardPasses(openers, literals, occurrences[i]) {
        return false;
      }
    }
    return true;
  }

  /** Every endif is written literally `endif()`: the literal occurrences are the endif tokens. */
  ghost predicate AllLiteral(toks: seq<Token>, literals: seq<nat>) {
    && (forall t | 0 <= t < |toks| && !toks[t].opens ::
          toks[t].start in literals && toks[t].end == toks[t].start + |"endif()"|)
    && (forall s | s in literals :: exists t | 0 <= t < |toks| :: !toks[t].opens && toks[t].start == s)
  }

  /** An endif token lies between the start of the opener and `p`. */
  ghost predicate ClosedSince(toks: seq<Token>, o: Span, p: nat) {
    exists t | 0 <= t < |toks| :: !toks[t].opens && toks[t].start >= o.start && toks[t].end <= p
  }

  lemma {:induction false} LastBeforeMeans(starts: seq<nat>, width: nat, p: nat)
    ensures var last := LastBefore(starts, width, p);
            && (forall s | s in starts && s + width <= p :: s <= last)
            && (last >= 0 ==> last in starts && last + width <= p)
  {
    if starts == [] {
    } else {
      LastBeforeMeans(starts[..|starts| - 1], width, p);
      assert starts == starts[..|starts| - 1] + [starts[|starts| - 1]];
    }
  }

  /** Matches of one pattern, in order and not overlapping. */
  ghost predicate Ordered(spans: seq<Span>) {
    && (forall i | 0 <= i < |spans| :: spans[i].start < spans[i].end)
    && (forall i, j | 0 <= i < j < |spans| :: spans[i].end <= spans[j].start)
  }

  /** `o` is the last Apple opener that ends before the occurrence at `p`. */
  ghost predicate LastAppleOpener(openers: seq<Span>, o: Span, p: nat) {
    Ordered(openers) && o in openers && o.end <= p && forall q | q in openers && q.end <= p :: q.start <= o.start
  }

  /** What `LastOpener` finds: the greatest start of an opener that ends by `p`, and -1 when there is none. */
  lemma {:induction false} LastOpenerMeans(openers: seq<Span>, p: nat)
    requires Ordered(openers)
    ensures var last := LastOpener(openers, p);
            && (forall q | q in openers && q.end <= p :: q.start <= last)
            && (last == -1 <==> forall q | q in openers :: q.end > p)
            && (last != -1 ==> exists o: Span :: o.start == last && LastAppleOpener(openers, o, p))
  {
    if openers == [] {
    } else {
      var n := |openers| - 1;
      var init, end := openers[..n], openers[n];
      assert openers == init + [end];
      if end.end <= p {
        assert forall q | q in openers :: q == end || q.start < end.start;
        assert end.start == LastOpener(openers, p) && LastAppleOpener(openers, end, p);
      } else {
        LastOpenerMeans(init, p);
        if o: Span :| o.start == LastOpener(init, p) && LastAppleOpener(init, o, p) {
          assert LastAppleOpener(openers, o, p);
        }
      }
    }
  }

  /** Without an Apple opener before it an occurrence never passes, whatever the text. */
  lemma NoOpenerRefused(openers: seq<Span>, literals: seq<nat>, p: nat)
    requires Ordered(openers) && forall q | q in openers :: q.end > p
    ensures !GuardPasses(openers, literals, p)
  {
    hide LastOpener, LastBefore;
    LastOpenerMeans(openers, p);
    LastBeforeMeans(literals, ENDIF_WIDTH, p);
    LastBeforeAtLeast(literals, p);
  }

  lemma {:induction false} LastBeforeAtLeast(starts: seq<nat>, p: nat)
    ensures LastBefore(starts, ENDIF_WIDTH, p) >= -1
  {
    if starts == [] {
    } else {
      LastBeforeAtLeast(starts[..|starts| - 1], p);
    }
  }

  /** What the cheap comparison tests, on any text with literal endifs, nested or not: that no endif lies
      between the start of the last Apple opener and the occurrence. */
  lemma {:induction false} GuardMeans(toks: seq<Token>, openers: seq<Span>, literals: seq<nat>, o: Span, p: nat)
    requires InOrder(toks) && AllLiteral(toks, literals) && LastAppleOpener(openers, o, p)
    ensures GuardPasses(openers, literals, p) <==> !ClosedSince(toks, o, p)
  {
    hide LastBefore, LastOpener;
    LastOpenerMeans(openers, p);
    LastBeforeMeans(literals, ENDIF_WIDTH, p);
    LastBeforeAtLeast(literals, p);
    var last := LastBefore(literals, ENDIF_WIDTH, p);
    if ClosedSince(toks, o, p) {
      var t :| 0 <= t < |toks| && !toks[t].opens && toks[t].start >= o.start && toks[t].end <= p;
      assert toks[t].start in literals;
    } else if last >= 0 {
      var t :| 0 <= t < |toks| && !toks[t].opens && toks[t].start == last;
      assert toks[t].end <= p;
    }
  }

  /** Which occurrences pass, on any text with literal endifs: those with an Apple opener before them and no
      endif since the start of the last one. */
  lemma {:induction false} GuardIff(toks: seq<Token>, openers: seq<Span>, literals: seq<nat>, p: nat)
    requires InOrder(toks) && AllLiteral(toks, literals) && Ordered(openers)
    ensures GuardPasses(openers, literals, p) <==>
            exists o :: LastAppleOpener(openers, o, p) && !ClosedSince(toks, o, p)
  {
    hide GuardPasses, LastOpener, ClosedSince;
    LastOpenerMeans(openers, p);
    if LastOpener(openers, p) == -1 {
      NoOpenerRefused(openers, literals, p);
    } else {
      var o :| LastAppleOpener(openers, o, p);
      forall q | LastAppleOpener(openers, q, p)
        ensures GuardPasses(openers, literals, p) <==> !ClosedSince(toks, q, p)
      {
        GuardMeans(toks, openers, literals, q, p);
      }
    }
  }

  /** In a well nested text a scan that finds a token at all ends at an endif. */
  lemma {:induction false} ScanEndsAtEndif(toks: seq<Token>, k: nat, i: nat) returns (m: nat)
    requires Nested(toks, 0, |toks|) && k < |toks|
    ensures k <= m < |toks| && !toks[m].opens && ScanEnd(toks, k, 1, i) == toks[m].end
    ensures Depth(toks, 0, k) > 0 <==> Closes(toks, k, m)
    ensures Depth(toks, 0, k) == 0 <==> forall e: nat :: !Closes(toks, k, e)
  {
    hide ScanEnd;
    m := ScanOutcome(toks, k, i);
    DepthSplit(toks, 0, k, |toks|);
    if m < |toks| {
      DepthSplit(toks, 0, k, m + 1);
      assert Depth(toks, k, m + 1) == -1 && Depth(toks, 0, m + 1) >= 0;
    } else {
      m := |toks| - 1;
      assert Depth(toks, 0, m) >= 0;
      forall e: nat
        ensures !Closes(toks, k, e)
      {
        assert e < |toks| && k <= e ==> Depth(toks, k, e + 1) >= 0;
      }
    }
  }

  /** What the comparison decides on every well nested text with literal endifs, for an Apple opener of any
      kind. With a token behind the opener an occurrence passes exactly when it lies inside the opener's
      block and no nested if was closed between. With none, the block is the opener itself, every
      occurrence lies behind it, and it passes unless the opener holds an endif. */
  lemma {:induction false} GuardExact(toks: seq<Token>, openers: seq<Span>, literals: seq<nat>, o: Span, p: nat)
    requires InOrder(toks) && Nested(toks, 0, |toks|) && AllLiteral(toks, literals)
    requires LastAppleOpener(openers, o, p)
    ensures FirstAt(toks, o.end) < |toks| ==>
              (GuardPasses(openers, literals, p) <==> p < BlockEnd(toks, o.end) && !ClosedSince(toks, o, p))
    ensures FirstAt(toks, o.end) == |toks| ==>
              BlockEnd(toks, o.end) == o.end <= p && (GuardPasses(openers, literals, p) <==> !ClosedSince(toks, o, p))
  {
    hide GuardPasses, ScanEnd, FirstAt, Depth;
    GuardMeans(toks, openers, literals, o, p);
    assert o.end <= p;
    var k := FirstAt(toks, o.end);
    if k < |toks| {
      var m := ScanEndsAtEndif(toks, k, o.end);
      assert toks[m].start >= o.end by {
        assert k < m ==> toks[k].end <= toks[m].start;
      }
    } else {
      ScanStep(toks, |toks|, 1, o.end);
    }
  }

  /** Exactly when the check is sound for an Apple opener of a well nested text: an occurrence that passes
      lies inside the opener's block if and only if some token follows the opener. That is so for every
      opener inside an open if, its own included; the block then ends at that if's endif. */
  lemma {:induction false} GuardSound(toks: seq<Token>, openers: seq<Span>, literals: seq<nat>, o: Span, p: nat)
    requires InOrder(toks) && Nested(toks, 0, |toks|) && AllLiteral(toks, literals)
    requires LastAppleOpener(openers, o, p) && GuardPasses(openers, literals, p)
    ensures o.start < p < BlockEnd(toks, o.end) <==> FirstAt(toks, o.end) < |toks|
    ensures var k := FirstAt(toks, o.end);
            Depth(toks, 0, k) > 0 ==>
              p < BlockEnd(toks, o.end) && exists m: nat :: Closes(toks, k, m) && BlockEnd(toks, o.end) == toks[m].end
  {
    hide GuardPasses, ScanEnd, FirstAt, Depth;
    GuardExact(toks, openers, literals, o, p);
    var k := FirstAt(toks, o.end);
    if k < |toks| {
      var m := ScanEndsAtEndif(toks, k, o.end);
    }
  }

  /** An opener with an if token of its own is inside an open if: that one. */
  lemma {:induction false} OwnIsOpen(toks: seq<Token>, o: Span, a: nat)
    requires InOrder(toks) && Nested(toks, 0, |toks|) && Lies(toks, o) && Own(toks, o, a)
    ensures Depth(toks, 0, FirstAt(toks, o.end)) > 0
  {
    OwnIsBefore(toks, o, a);
    assert Depth(toks, 0, a) >= 0;
  }

  /** The input on which it is not: `elseif(IOS)` with no token behind it, and an occurrence further on. */
  lemma GuardUnsound()
    ensures var toks: seq<Token> := [];
            var o := Span(4, 11);
            && InOrder(toks) && Nested(toks, 0, |toks|) && AllLiteral(toks, []) && Lies(toks, o)
            && LastAppleOpener([o], o, 30) && GuardPasses([o], [], 30) && !(30 < BlockEnd(toks, o.end))
  {
    GuardExact([], [Span(4, 11)], [], Span(4, 11), 30);
  }

  /** The last if still open at `t`, given that more opened than closed since `k`. */
  lemma {:induction false} LastUnclosed(toks: seq<Token>, k: nat, t: nat) returns (a: nat)
    requires k <= t <= |toks| && Depth(toks, k, t) > 0
    ensures k <= a < t && toks[a].opens && Nested(toks, a + 1, t)
    decreases t - k
  {
    if c: nat :| k < c <= t && Depth(toks, c, t) > 0 {
      a := LastUnclosed(toks, c, t);
    } else {
      a := k;
      DepthSplit(toks, k, k + 1, t);
      assert Depth(toks, k, k + 1) == Depth(toks, k, k) + if toks[k].opens then 1 else -1;
      var inside := k + 1;
      assert Depth(toks, inside, t) <= 0;
      forall c: nat | inside <= c <= t
        ensures Depth(toks, inside, c) >= 0
      {
        DepthSplit(toks, inside, c, t);
      }
    }
  }

  /** An endif lies in the opener itself and ends by `p`. */
  ghost predicate EndifInside(toks: seq<Token>, o: Span, p: nat) {
    exists t | 0 <= t < |toks| :: !toks[t].opens && o.start <= toks[t].start < o.end && toks[t].end <= p
  }

  /** A whole nested if lies between the opener and `p`. */
  ghost predicate IfClosedBetween(toks: seq<Token>, o: Span, p: nat) {
    exists a: nat, m: nat | a < m < |toks| ::
      toks[a].opens && toks[a].start >= o.end && Partner(toks, a, m) && toks[m].end <= p
  }

  /** It is one-sided, on any text with literal endifs, nested or not: an occurrence inside the block is
      refused exactly when a nested if was opened and closed again between the opener and it, or an endif
      stands in the opener itself. */
  lemma {:induction false} GuardRefusesAfterNestedIf(toks: seq<Token>, openers: seq<Span>, literals: seq<nat>, o: Span,
                                                   p: nat)
    requires InOrder(toks) && AllLiteral(toks, literals) && LastAppleOpener(openers, o, p)
    requires p < BlockEnd(toks, o.end)
    ensures !GuardPasses(openers, literals, p) <==> IfClosedBetween(toks, o, p) || EndifInside(toks, o, p)
  {
    hide GuardPasses, ScanEnd, Depth;
    GuardMeans(toks, openers, literals, o, p);
    if ClosedSince(toks, o, p) {
      var t: nat :| t < |toks| && !toks[t].opens && toks[t].start >= o.start && toks[t].end <= p;
      if toks[t].start >= o.end {
        ClosesNestedIf(toks, o, t);
      }
    } else if IfClosedBetween(toks, o, p) {
      NestedIfCloses(toks, o, p);
    }
  }

  lemma {:induction false} NestedIfCloses(toks: seq<Token>, o: Span, p: nat)
    requires InOrder(toks) && o.start < o.end && IfClosedBetween(toks, o, p)
    ensures ClosedSince(toks, o, p)
  {
    var a: nat, m: nat :|
      a < m < |toks| && toks[a].opens && toks[a].start >= o.end && Partner(toks, a, m) && toks[m].end <= p;
    assert toks[a].end <= toks[m].start;
  }

  /** An endif inside an opener's block, other than the one that ends it, closes an if inside the block. */
  lemma {:induction false} ClosesNestedIf(toks: seq<Token>, o: Span, t: nat)
    requires InOrder(toks) && t < |toks| && !toks[t].opens && toks[t].start >= o.end
    requires toks[t].end < BlockEnd(toks, o.end)
    ensures exists a: nat | a < t :: toks[a].opens && toks[a].start >= o.end && Partner(toks, a, t)
  {
    hide ScanEnd;
    var k := FirstAt(toks, o.end);
    var m := ScanOutcome(toks, k, o.end);
    assert k <= t && Depth(toks, k, t + 1) >= 0;
    var a := LastUnclosed(toks, k, t);
    assert k < a ==> toks[k].end <= toks[a].start;
  }

  /** Such an occurrence exists: `if(IOS) if(X) endif() HERE endif()`. */
  lemma GuardRefusesOne()
    ensures var toks := [Token(0, 3, true), Token(10, 13, true), Token(17, 24, false), Token(40, 47, false)];
            var o := Span(0, 9);
            InOrder(toks) && Nested(toks, 0, |toks|) && Own(toks, o, 0) && 30 < BlockEnd(toks, o.end)
            && !GuardPasses([o], [17, 40], 30)
  {
    var toks := [Token(0, 3, true), Token(10, 13, true), Token(17, 24, false), Token(40, 47, false)];
    var o := Span(0, 9);
    hide LastBefore, FirstAt, ScanEnd;
    assert Depth(toks, 0, 1) == 1 && Depth(toks, 0, 2) == 2 && Depth(toks, 0, 3) == 1 && Depth(toks, 0, 4) == 0;
    assert Depth(toks, 1, 1) == 0 && Depth(toks, 1, 2) == 1 && Depth(toks, 1, 3) == 0;
    assert Closes(toks, 1, 3);
    OwnIsBefore(toks, o, 0);
    ScanFinds(toks, 1, 3, 9);
    LastOfTwo();
  }

  lemma LastOfTwo()
    ensures LastBefore([17, 40], 7, 30) == 17
  {
    assert [17, 40][..1] == [17] && [17][..0] == [];
    assert LastBefore([17], 7, 30) == 17;
  }

  // ---- well nested means generated by the block grammar ----

  /** The grammar of nested blocks: nothing, or `if` blocks `endif` blocks. */
  datatype Blocks = Nothing | Block(inner: Blocks, rest: Blocks)

  /** Whether each token in turn opens. */
  function Spelled(f: Blocks): seq<bool> {
    match f
    case Nothing => []
    case Block(inner, rest) => [true] + Spelled(inner) + [false] + Spelled(rest)
  }

  /** Whether each token from `a` up to `b` opens. */
  function Kinds(toks: seq<Token>, a: nat, b: nat): (ks: seq<bool>)
    requires a <= b <= |toks|
    ensures |ks| == b - a
  {
    seq(b - a, i requires 0 <= i < b - a => toks[a + i].opens)
  }

  ghost predicate Spells(toks: seq<Token>, a: nat, b: nat, f: Blocks) {
    a <= b <= |toks| && Kinds(toks, a, b) == Spelled(f)
  }

  lemma KindsPart(toks: seq<Token>, a: nat, b: nat, x: nat, y: nat)
    requires a <= x <= y <= b <= |toks|
    ensures Kinds(toks, x, y) == Kinds(toks, a, b)[x - a..y - a]
  {
  }

  lemma BlockParts(inner: seq<bool>, rest: seq<bool>)
    ensures var s, n := [true] + inner + [false] + rest, |inner|;
            s[0] && !s[n + 1] && s[1..n + 1] == inner && s[n + 2..|s|] == rest
  {
  }

  lemma NestedJoin(toks: seq<Token>, a: nat, b: nat, c: nat)
    requires Nested(toks, a, b) && Nested(toks, b, c)
    ensures Nested(toks, a, c)
  {
    forall d | a <= d <= c
      ensures Depth(toks, a, d) >= 0
    {
      if d > b {
        DepthSplit(toks, a, b, d);
      }
    }
    DepthSplit(toks, a, b, c);
  }

  lemma NestedRest(toks: seq<Token>, a: nat, b: nat, c: nat)
    requires Nested(toks, a, b) && Nested(toks, a, c) && b <= c
    ensures Nested(toks, b, c)
  {
    forall d | b <= d <= c
      ensures Depth(toks, b, d) >= 0
    {
      DepthSplit(toks, a, b, d);
    }
    DepthSplit(toks, a, b, c);
  }

  lemma NestedWrap(toks: seq<Token>, a: nat, m: nat)
    requires a < m < |toks| && toks[a].opens && !toks[m].opens && Nested(toks, a + 1, m)
    ensures Nested(toks, a, m + 1)
  {
    assert Depth(toks, a, a + 1) == Depth(toks, a, a) + 1;
    forall d | a <= d <= m
      ensures Depth(toks, a, d) >= 0
    {
      if d > a {
        DepthSplit(toks, a, a + 1, d);
      }
    }
    DepthSplit(toks, a, a + 1, m);
  }

  lemma {:induction false} GrammarNests(toks: seq<Token>, a: nat, b: nat, f: Blocks)
    requires Spells(toks, a, b, f)
    ensures Nested(toks, a, b)
    decreases f
  {
    match f
    case Nothing =>
    case Block(inner, rest) =>
      var m := a + 1 + |Spelled(inner)|;
      BlockParts(Spelled(inner), Spelled(rest));
      KindsPart(toks, a, b, a + 1, m);
      KindsPart(toks, a, b, m + 1, b);
      assert toks[a].opens == Spelled(f)[0] && toks[m].opens == Spelled(f)[m - a];
      GrammarNests(toks, a + 1, m, inner);
      GrammarNests(toks, m + 1, b, rest);
      NestedWrap(toks, a, m);
      NestedJoin(toks, a, m + 1, b);
  }

  lemma {:induction false} NestingParses(toks: seq<Token>, a: nat, b: nat) returns (f: Blocks)
    requires Nested(toks, a, b)
    ensures Spells(toks, a, b, f)
    decreases b - a
  {
    if a == b {
      return Nothing;
    }
    assert Depth(toks, a, a + 1) == Depth(toks, a, a) + if toks[a].opens then 1 else -1;
    DepthSplit(toks, a, a + 1, b);
    var m := FirstUnmatched(toks, a + 1, b);
    NestedWrap(toks, a, m);
    NestedRest(toks, a, m + 1, b);
    var inner := NestingParses(toks, a + 1, m);
    var rest := NestingParses(toks, m + 1, b);
    f := Block(inner, rest);
    SpellsBlock(toks, a, m, b, inner, rest);
  }

  lemma SpellsBlock(toks: seq<Token>, a: nat, m: nat, b: nat, inner: Blocks, rest: Blocks)
    requires a < m < b <= |toks| && toks[a].opens && !toks[m].opens
    requires Spells(toks, a + 1, m, inner) && Spells(toks, m + 1, b, rest)
    ensures Spells(toks, a, b, Block(inner, rest))
  {
    KindsJoin(toks, a, a + 1, m);
    KindsJoin(toks, a, m, m + 1);
    KindsJoin(toks, a, m + 1, b);
    assert Kinds(toks, a, a + 1) == [true] && Kinds(toks, m, m + 1) == [false];
  }

  lemma KindsJoin(toks: seq<Token>, a: nat, b: nat, c: nat)
    requires a <= b <= c <= |toks|
    ensures Kinds(toks, a, c) == Kinds(toks, a, b) + Kinds(toks, b, c)
  {
  }

  /** Counting depth decides the grammar: the tokens between two points pair off exactly when some
      arrangement of nested blocks spells them. */
  lemma NestedIffGrammar(toks: seq<Token>, a: nat, b: nat)
    ensures Nested(toks, a, b) <==> exists f :: Spells(toks, a, b, f)
  {
    if Nested(toks, a, b) {
      var f := NestingParses(toks, a, b);
    }
    if f :| Spells(toks, a, b, f) {
      GrammarNests(toks, a, b, f);
    }
  }
}
