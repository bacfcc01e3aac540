/** Two channels over a wire that loses and copies nothing: how the traffic dies down. A drain round lets
    first one side and then the other hear everything queued for it, in any order. */
module ReliableQuiescence {
  import opened Prelude
  import opened PacketCodec
  import opened ReliableStream
  import opened ReliableProgress

  /** Two endpoints and what is queued between them. */
  datatype Wired = Wired(a: Endpoint, b: Endpoint, toB: seq<Bytes>, toA: seq<Bytes>)

  ghost predicate AllSent(x: Endpoint, ds: seq<Bytes>) {
    forall d | d in ds :: d in x.wire
  }

  ghost predicate Linked(s: Wired) {
    Direction(s.a, s.b) && Direction(s.b, s.a) && AllSent(s.a, s.toB) && AllSent(s.b, s.toA)
  }

  /** What `a` hears in a drain round: what was queued for it, and what `b` replied just before. */
  function HeardByA(s: Wired): seq<Bytes> {
    s.toA + Replies(s.b.chan, s.toB)
  }

  function Drained(s: Wired): Wired {
    Wired(ReceiveAll(s.a, HeardByA(s)), ReceiveAll(s.b, s.toB), Replies(s.a.chan, HeardByA(s)), [])
  }

  function Ticked(s: Wired): Wired {
    Wired(Act(s.a, TickEvent), Act(s.b, TickEvent),
          s.toB + EncodeAll(Tick(s.a.chan)), s.toA + EncodeAll(Tick(s.b.chan)))
  }

  ghost predicate Idle(s: Wired) {
    s.toB == [] && s.toA == []
  }

  // ---- everything stays in step ----

  lemma {:induction false} HearAllDirection(x: Endpoint, y: Endpoint, ds: seq<Bytes>)
    requires Direction(x, y) && forall d | d in ds :: CanHappen(y, ReceiveEvent(d))
    ensures Direction(ReceiveAll(x, ds), y) && ReceiveAll(x, ds).log == x.log
    decreases |ds|
  {
    hide Direction, CanHappen;
    if ds == [] {
    } else {
      SenderActs(x, y, ReceiveEvent(ds[0]));
      HearAllDirection(Act(x, ReceiveEvent(ds[0])), y, ds[1..]);
    }
  }

  lemma {:induction false} RepliesOnWire(me: Endpoint, ds: seq<Bytes>)
    ensures AllSent(ReceiveAll(me, ds), Replies(me.chan, ds)) && me.wire <= ReceiveAll(me, ds).wire
    ensures ReceiveAll(me, ds).log == me.log
    decreases |ds|
  {
    hide Parse, Encode, Ingest;
    if ds == [] {
    } else {
      var me' := Act(me, ReceiveEvent(ds[0]));
      var out := Ingest(me.chan, ds[0]).1;
      RepliesOnWire(me', ds[1..]);
      forall d | d in EncodeAll(out)
        ensures d in me'.wire
      {
        var i :| 0 <= i < |out| && EncodeAll(out)[i] == d;
        assert out[i] in out;
      }
    }
  }

  /** One side hears what the other sent: both directions stay in step, and its replies are on the wire. */
  lemma HearAll(x: Endpoint, y: Endpoint, ds: seq<Bytes>)
    requires Direction(x, y) && Direction(y, x) && AllSent(x, ds)
    ensures var y' := ReceiveAll(y, ds);
            && Direction(x, y') && Direction(y', x) && y'.log == y.log && y.wire <= y'.wire
            && AllSent(y', Replies(y.chan, ds))
  {
    hide Direction, Parse, Encode, Ingest;
    assert forall d | d in ds :: CanHappen(x, ReceiveEvent(d));
    ReceiveAllDirection(x, y, ds);
    HearAllDirection(y, x, ds);
    RepliesOnWire(y, ds);
  }

  lemma DrainedLinked(s: Wired)
    requires Linked(s)
    ensures Linked(Drained(s)) && Drained(s).a.log == s.a.log && Drained(s).b.log == s.b.log
    ensures var b' := Drained(s).b;
            Direction(s.a, b') && Direction(b', s.a) && AllSent(b', HeardByA(s))
  {
    hide Direction, ReceiveAll, Replies;
    HearAll(s.a, s.b, s.toB);
    HearAll(ReceiveAll(s.b, s.toB), s.a, HeardByA(s));
  }

  lemma TickedLinked(s: Wired)
    requires Linked(s)
    ensures Linked(Ticked(s))
  {
    hide Direction, Tick, Parse, Encode;
    assert CanHappen(s.a, TickEvent) && CanHappen(s.b, TickEvent);
    SenderActs(s.a, s.b, TickEvent);
    ReceiverActs(Act(s.a, TickEvent), s.b, TickEvent);
    SenderActs(s.b, s.a, TickEvent);
    ReceiverActs(Act(s.b, TickEvent), s.a, TickEvent);
    TickOnWire(s.a);
    TickOnWire(s.b);
  }

  lemma TickOnWire(x: Endpoint)
    ensures AllSent(Act(x, TickEvent), EncodeAll(Tick(x.chan))) && x.wire <= Act(x, TickEvent).wire
  {
    hide Tick, Encode;
    var out := Tick(x.chan);
    forall d | d in EncodeAll(out)
      ensures d in Encoded(out)
    {
      var i :| 0 <= i < |out| && EncodeAll(out)[i] == d;
      assert out[i] in out;
    }
  }

  // ---- nobody starves ----

  ghost predicate Fed(s: Wired) {
    !Starves(s.a, s.b, s.toA) && !Starves(s.b, s.a, s.toB)
  }

  /** A receiver that becomes complete acknowledges everything. */
  lemma FedByReceiver(x: Endpoint, y: Endpoint, ds: seq<Bytes>, replies: seq<Bytes>)
    requires Direction(x, y) && !Starves(x, y, replies)
    ensures !Starves(x, ReceiveAll(y, ds), replies + Replies(y.chan, ds))
  {
    hide Parse, Encode;
    var y', all := ReceiveAll(y, ds), replies + Replies(y.chan, ds);
    AdvanceIsAcknowledged(y, ds);
    forall held | y'.chan.expected == |x.log| + 1 && held in x.chan.unacked
      ensures !NoAckFor(all, held)
    {
      if y'.chan.expected > y.chan.expected {
        assert Numbers(x.log, held, x.chan.unacked[held]);
        ParseEncoded(Ack(|x.log|));
        assert Encode(Ack(|x.log|)) in all;
      } else {
        var d, n :| d in replies && Parse(d) == Some(Ack(n)) && n >= held;
        assert d in all;
      }
    }
  }

  /** A sender that hears every queued acknowledgement releases all they cover. */
  lemma FedBySender(x: Endpoint, y: Endpoint, replies: seq<Bytes>)
    requires !Starves(x, y, replies)
    ensures !Starves(ReceiveAll(x, replies), y, [])
  {
    hide Parse, Encode;
    var x' := ReceiveAll(x, replies);
    RepliesOnWire(x, replies);
    AcknowledgedReleased(x, replies, 0);
    if held :| y.chan.expected == |x.log| + 1 && held in x'.chan.unacked {
      assert held in x.chan.unacked;
      assert !NoAckFor(replies, held);
      var d, n :| d in replies && Parse(d) == Some(Ack(n)) && n >= held;
      AcknowledgedReleased(x, replies, n);
    }
  }

  lemma DrainedFed(s: Wired)
    requires Linked(s) && Fed(s)
    ensures Fed(Drained(s))
  {
    hide Direction, Starves, ReceiveAll, Replies;
    var b' := ReceiveAll(s.b, s.toB);
    DrainedLinked(s);
    FedByReceiver(s.a, s.b, s.toB, s.toA);
    FedBySender(s.a, b', HeardByA(s));
    FedBySender(s.b, s.a, s.toB);
    FedByReceiver(b', s.a, HeardByA(s), []);
    assert [] + Replies(s.a.chan, HeardByA(s)) == Replies(s.a.chan, HeardByA(s));
  }

  lemma TickedFed(s: Wired)
    requires Fed(s)
    ensures Fed(Ticked(s))
  {
    MoreReplies(s.a, s.b, s.toA, EncodeAll(Tick(s.b.chan)));
    MoreReplies(s.b, s.a, s.toB, EncodeAll(Tick(s.a.chan)));
  }

  lemma MoreReplies(x: Endpoint, y: Endpoint, replies: seq<Bytes>, more: seq<Bytes>)
    requires !Starves(x, y, replies)
    ensures !Starves(Act(x, TickEvent), Act(y, TickEvent), replies + more)
  {
    hide Parse;
    if held :| held in x.chan.unacked && NoAckFor(replies + more, held) {
      assert NoAckFor(replies, held);
    }
  }

  // ---- requests and answers ----

  ghost predicate RelIn(ds: seq<Bytes>, s: int) {
    exists d, p :: d in ds && Parse(d) == Some(Rel(s, p))
  }

  ghost predicate NakIn(ds: seq<Bytes>, missing: seq<int>) {
    exists d :: d in ds && Parse(d) == Some(Nak(missing))
  }

  /** A request by a receiver that expects `e` or more: with a number it names all below it down to `e`. */
  ghost predicate Contiguous(missing: seq<int>, e: int) {
    forall s, t | s in missing && e <= t <= s :: t in missing
  }

  ghost predicate ContiguousNaks(ds: seq<Bytes>, e: int) {
    forall missing | NakIn(ds, missing) :: Contiguous(missing, e)
  }

  ghost predicate StaleNaks(ds: seq<Bytes>, e: int) {
    forall missing, t | NakIn(ds, missing) && t in missing :: t < e
  }

  ghost predicate StaleRels(ds: seq<Bytes>, e: int) {
    forall s | RelIn(ds, s) :: s < e
  }

  ghost predicate NoNaks(ds: seq<Bytes>) {
    forall missing :: !NakIn(ds, missing)
  }

  /** With a payload the datagrams bring all below it down to `e`. */
  ghost predicate Answers(log: seq<Bytes>, e: int, ds: seq<Bytes>) {
    forall s, t | RelIn(ds, s) && e <= t <= s :: Brings(log, ds, t)
  }

  lemma {:induction false} RelInReplies(c: Channel, ds: seq<Bytes>, s: int) returns (missing: seq<int>)
    requires RelIn(Replies(c, ds), s)
    ensures NakIn(ds, missing) && s in missing
    decreases |ds|
  {
    hide Parse, Encode;
    var d, p :| d in Replies(c, ds) && Parse(d) == Some(Rel(s, p));
    var (c', out) := Ingest(c, ds[0]);
    if d in EncodeAll(out) {
      var i :| 0 <= i < |out| && EncodeAll(out)[i] == d;
      ParseEncoded(out[i]);
      assert out[i] in out;
      missing := Parse(ds[0]).value.missing;
      RetransmitFromHeld(c.unacked, missing, out[i]);
      assert ds[0] in ds;
    } else {
      assert RelIn(Replies(c', ds[1..]), s);
      missing := RelInReplies(c', ds[1..], s);
      NakInRest(ds, missing);
    }
  }

  lemma NakInRest(ds: seq<Bytes>, missing: seq<int>)
    requires ds != [] && NakIn(ds[1..], missing)
    ensures NakIn(ds, missing)
  {
    hide Parse;
    var d :| d in ds[1..] && Parse(d) == Some(Nak(missing));
    assert d in ds;
  }

  /** A request among the replies names only numbers below a payload heard, and is contiguous from what the
      receiver expects in the end. */
  lemma {:induction false} NakInReplies(me: Endpoint, ds: seq<Bytes>, missing: seq<int>) returns (number: int)
    requires NakIn(Replies(me.chan, ds), missing)
    ensures RelIn(ds, number) && forall t | t in missing :: t < number
    ensures Contiguous(missing, ReceiveAll(me, ds).chan.expected)
    decreases |ds|
  {
    hide Parse, Encode, Drain;
    var d :| d in Replies(me.chan, ds) && Parse(d) == Some(Nak(missing));
    var me' := Act(me, ReceiveEvent(ds[0]));
    var out := Ingest(me.chan, ds[0]).1;
    AdvanceIsAcknowledged(me, ds);
    if d in EncodeAll(out) {
      var i :| 0 <= i < |out| && EncodeAll(out)[i] == d;
      ParseEncoded(out[i]);
      assert out[i] in out;
      number := NakAnswersRel(me.chan, ds[0], missing);
      HeadRel(ds, number, Parse(ds[0]).value.payload);
      RangeContiguous(me.chan.expected, number, ReceiveAll(me, ds).chan.expected);
    } else {
      assert NakIn(Replies(me'.chan, ds[1..]), missing);
      number := NakInReplies(me', ds[1..], missing);
      RelInRest(ds, number);
    }
  }

  lemma RangeContiguous(lo: int, hi: int, e: int)
    requires lo <= hi && lo <= e
    ensures Contiguous(Range(lo, hi), e)
  {
    forall s, t | s in Range(lo, hi) && e <= t <= s
      ensures t in Range(lo, hi)
    {
      assert Range(lo, hi)[t - lo] == t;
    }
  }

  lemma NakAnswersRel(c: Channel, d: Bytes, missing: seq<int>) returns (number: int)
    requires Nak(missing) in Ingest(c, d).1
    ensures Parse(d).Some? && Parse(d).value.Rel? && Parse(d).value.number == number
    ensures c.expected < number && missing == Range(c.expected, number)
  {
    hide Parse, Drain;
    if Parse(d).value.Nak? {
      RetransmitFromHeld(c.unacked, Parse(d).value.missing, Nak(missing));
    }
    number := Parse(d).value.number;
  }

  lemma RelInRest(ds: seq<Bytes>, number: int)
    requires ds != [] && RelIn(ds[1..], number)
    ensures RelIn(ds, number)
  {
    hide Parse;
    var d, p :| d in ds[1..] && Parse(d) == Some(Rel(number, p));
    assert d in ds;
  }

  /** Requests among the replies are contiguous. */
  lemma RepliesContiguous(me: Endpoint, ds: seq<Bytes>)
    ensures ContiguousNaks(Replies(me.chan, ds), ReceiveAll(me, ds).chan.expected)
  {
    hide NakIn, Contiguous, Replies;
    forall missing | NakIn(Replies(me.chan, ds), missing)
      ensures Contiguous(missing, ReceiveAll(me, ds).chan.expected)
    {
      var number := NakInReplies(me, ds, missing);
    }
  }

  /** Requests that name only delivered payloads are answered only with those. */
  lemma StaleAnswers(c: Channel, ds: seq<Bytes>, e: int)
    requires StaleNaks(ds, e)
    ensures StaleRels(Replies(c, ds), e)
  {
    hide NakIn, RelIn, Replies;
    forall s | RelIn(Replies(c, ds), s)
      ensures s < e
    {
      var missing := RelInReplies(c, ds, s);
    }
  }

  /** A contiguous request is answered with everything the receiver misses below any payload of the answer. */
  lemma RequestsAnswered(x: Endpoint, y: Endpoint, ds: seq<Bytes>)
    requires Direction(x, y) && Direction(y, x) && AllSent(y, ds) && ContiguousNaks(ds, y.chan.expected)
    ensures Answers(x.log, y.chan.expected, Replies(x.chan, ds))
  {
    hide NakIn, Replies, Direction;
    forall s, t | RelIn(Replies(x.chan, ds), s) && y.chan.expected <= t <= s
      ensures Brings(x.log, Replies(x.chan, ds), t)
    {
      var missing := RelInReplies(x.chan, ds, s);
      RepliesFromLog(x, y, ds, s);
      Answered(x, y, ds, missing, t);
    }
  }

  lemma RepliesFromLog(x: Endpoint, y: Endpoint, ds: seq<Bytes>, s: int)
    requires Direction(x, y) && Direction(y, x) && AllSent(y, ds) && RelIn(Replies(x.chan, ds), s)
    ensures s <= |x.log|
  {
    hide Parse, Encode, Replies, ReceiveAll, Receives;
    HearAll(y, x, ds);
    var d, p :| d in Replies(x.chan, ds) && Parse(d) == Some(Rel(s, p));
    assert Numbers(x.log, s, p);
  }

  lemma {:induction false} Answered(x: Endpoint, y: Endpoint, ds: seq<Bytes>, missing: seq<int>, t: int)
    requires Direction(x, y) && AllSent(y, ds) && NakIn(ds, missing) && t in missing
    requires y.chan.expected <= t <= |x.log|
    ensures Brings(x.log, Replies(x.chan, ds), t)
    decreases |ds|
  {
    hide Parse, Encode, Direction, Ingest;
    var d :| d in ds && Parse(d) == Some(Nak(missing));
    var x' := Act(x, ReceiveEvent(ds[0]));
    assert 1 <= t by { ExpectedPositive(x, y); }
    if Parse(ds[0]) == Some(Nak(missing)) {
      HeldAnswer(x, y, ds[0], missing, t);
      EncodedIn(Ingest(x.chan, ds[0]).1, Rel(t, x.log[t - 1]));
    } else {
      assert d in ds[1..];
      assert CanHappen(y, ReceiveEvent(ds[0]));
      SenderActs(x, y, ReceiveEvent(ds[0]));
      Answered(x', y, ds[1..], missing, t);
    }
  }

  lemma ExpectedPositive(x: Endpoint, y: Endpoint)
    requires Direction(x, y)
    ensures 1 <= y.chan.expected <= |x.log| + 1
  {
  }

  lemma HeldAnswer(x: Endpoint, y: Endpoint, d: Bytes, missing: seq<int>, t: int)
    requires Direction(x, y) && Parse(d) == Some(Nak(missing)) && t in missing && y.chan.expected <= t <= |x.log|
    ensures 1 <= t && Rel(t, x.log[t - 1]) in Ingest(x.chan, d).1
  {
    hide Parse, Encode, Retransmit;
    assert Numbers(x.log, t, x.chan.unacked[t]);
    RetransmitHolds(x.chan.unacked, missing, t);
  }

  lemma NeverBuffered(x: Endpoint, y: Endpoint)
    requires Direction(x, y)
    ensures y.chan.expected !in y.chan.buffered
  {
  }

  /** Having heard a whole answer, the receiver expects a payload beyond it. */
  lemma AnswerHeard(x: Endpoint, y: Endpoint, ds: seq<Bytes>)
    requires Direction(x, y) && AllSent(x, ds) && Answers(x.log, y.chan.expected, ds)
    ensures StaleRels(ds, ReceiveAll(y, ds).chan.expected)
  {
    hide Parse, Encode, Direction, ReceiveAll, RelIn, Has;
    assert forall d | d in ds :: CanHappen(x, ReceiveEvent(d));
    var y' := ReceiveAll(y, ds);
    ReceiveAllDirection(x, y, ds);
    AdvanceIsAcknowledged(y, ds);
    NeverBuffered(x, y');
    forall s | RelIn(ds, s)
      ensures s < y'.chan.expected
    {
      if y'.chan.expected <= s {
        BroughtIsHad(x, y, ds, y'.chan.expected);
      }
    }
  }

  lemma BroughtIsHad(x: Endpoint, y: Endpoint, ds: seq<Bytes>, t: int)
    requires Brings(x.log, ds, t)
    ensures t < ReceiveAll(y, ds).chan.expected || t in ReceiveAll(y, ds).chan.buffered
  {
    hide Parse, Encode, ReceiveAll;
    ParseEncoded(Rel(t, x.log[t - 1]));
    ReceiveAllHas(y, ds, t, Encode(Rel(t, x.log[t - 1])));
  }

  /** The requests made while hearing it are then stale. */
  lemma RequestsStale(x: Endpoint, y: Endpoint, ds: seq<Bytes>)
    requires Direction(x, y) && AllSent(x, ds) && Answers(x.log, y.chan.expected, ds)
    ensures StaleNaks(Replies(y.chan, ds), ReceiveAll(y, ds).chan.expected)
  {
    hide NakIn, RelIn, Replies, Contiguous, Direction, ReceiveAll;
    AnswerHeard(x, y, ds);
    forall missing, t | NakIn(Replies(y.chan, ds), missing) && t in missing
      ensures t < ReceiveAll(y, ds).chan.expected
    {
      var number := NakInReplies(y, ds, missing);
    }
  }

  /** A receiver makes no requests on what it has already delivered. */
  lemma StaleUnrequested(me: Endpoint, ds: seq<Bytes>)
    requires StaleRels(ds, me.chan.expected)
    ensures NoNaks(Replies(me.chan, ds))
  {
    hide NakIn, RelIn, Replies, Contiguous;
    forall missing
      ensures !NakIn(Replies(me.chan, ds), missing)
    {
      if NakIn(Replies(me.chan, ds), missing) {
        NoStaleRequest(me, ds, missing);
      }
    }
  }

  lemma {:induction false} NoStaleRequest(me: Endpoint, ds: seq<Bytes>, missing: seq<int>)
    requires StaleRels(ds, me.chan.expected) && NakIn(Replies(me.chan, ds), missing)
    ensures false
    decreases |ds|
  {
    hide Parse, Encode, Drain;
    var d :| d in Replies(me.chan, ds) && Parse(d) == Some(Nak(missing));
    var me' := Act(me, ReceiveEvent(ds[0]));
    var out := Ingest(me.chan, ds[0]).1;
    StaleRest(ds, me.chan.expected);
    StaleKept(me, ds[0]);
    if d in EncodeAll(out) {
      var i :| 0 <= i < |out| && EncodeAll(out)[i] == d;
      ParseEncoded(out[i]);
      assert out[i] in out;
      var number := NakAnswersRel(me.chan, ds[0], missing);
      assert false;
    } else {
      assert NakIn(Replies(me'.chan, ds[1..]), missing);
      NoStaleRequest(me', ds[1..], missing);
    }
  }

  lemma StaleRest(ds: seq<Bytes>, e: int)
    requires ds != [] && StaleRels(ds, e)
    ensures StaleRels(ds[1..], e)
    ensures Parse(ds[0]).Some? && Parse(ds[0]).value.Rel? ==> Parse(ds[0]).value.number < e
  {
    hide Parse, RelIn;
    forall s | RelIn(ds[1..], s)
      ensures s < e
    {
      RelInRest(ds, s);
    }
    if Parse(ds[0]).Some? && Parse(ds[0]).value.Rel? {
      HeadRel(ds, Parse(ds[0]).value.number, Parse(ds[0]).value.payload);
    }
  }

  lemma HeadRel(ds: seq<Bytes>, s: int, p: Bytes)
    requires ds != [] && Parse(ds[0]) == Some(Rel(s, p))
    ensures RelIn(ds, s)
  {
    hide Parse;
    assert ds[0] in ds;
  }

  lemma StaleKept(me: Endpoint, d: Bytes)
    requires Parse(d).Some? && Parse(d).value.Rel? ==> Parse(d).value.number < me.chan.expected
    ensures Act(me, ReceiveEvent(d)).chan.expected == me.chan.expected
  {
    hide Parse, Encode, Drain;
  }

  /** And replies nothing at all when nothing is requested of it either. */
  lemma {:induction false} StaleSilent(me: Endpoint, ds: seq<Bytes>)
    requires StaleRels(ds, me.chan.expected) && NoNaks(ds)
    ensures Replies(me.chan, ds) == []
    decreases |ds|
  {
    hide Parse, Encode, Drain;
    if ds == [] {
    } else {
      StaleRest(ds, me.chan.expected);
      StaleKept(me, ds[0]);
      forall missing
        ensures !NakIn(ds[1..], missing) && Parse(ds[0]) != Some(Nak(missing))
      {
        if NakIn(ds[1..], missing) {
          NakInRest(ds, missing);
        }
        assert !NakIn(ds, missing) && ds[0] in ds;
      }
      StaleSilent(Act(me, ReceiveEvent(ds[0])), ds[1..]);
      assert Ingest(me.chan, ds[0]).1 == [];
    }
  }

  // ---- at most four drain rounds in a row ----

  /** At most `k` more drain rounds find something queued. Requests `a` has just made are contiguous; then
      they are stale, and its answers whole; then nothing is requested, and what is sent is stale. */
  ghost predicate Settling(s: Wired, k: nat) {
    k >= 4 || (s.toA == [] &&
      match k
      case 3 => ContiguousNaks(s.toB, s.a.chan.expected)
      case 2 => StaleNaks(s.toB, s.a.chan.expected) && Answers(s.a.log, s.b.chan.expected, s.toB)
      case 1 => NoNaks(s.toB) && StaleRels(s.toB, s.b.chan.expected)
      case _ => s.toB == [])
  }

  lemma SettlingDrained(s: Wired, k: nat)
    requires Linked(s) && Settling(s, k) && 0 < k <= 4
    ensures Settling(Drained(s), k - 1)
  {
    hide Direction, Replies, ReceiveAll, NakIn, RelIn, Brings;
    var b', heard := ReceiveAll(s.b, s.toB), HeardByA(s);
    DrainedLinked(s);
    RepliesContiguous(s.b, s.toB);
    RepliesContiguous(s.a, heard);
    if k < 4 {
      assert heard == Replies(s.b.chan, s.toB);
    }
    if k == 3 {
      RequestsAnswered(s.b, s.a, s.toB);
      RequestsStale(b', s.a, heard);
      RequestsAnswered(s.a, b', heard);
      RepliesOnWire(s.b, s.toB);
      RepliesOnWire(s.a, heard);
    } else if k == 2 {
      RequestsStale(s.a, s.b, s.toB);
      StaleAnswers(s.b.chan, s.toB, s.a.chan.expected);
      StaleUnrequested(s.a, heard);
      StaleAnswers(s.a.chan, heard, b'.chan.expected);
    } else if k == 1 {
      StaleSilent(s.b, s.toB);
      NothingReplied(s.a.chan);
    }
  }

  lemma NothingReplied(c: Channel)
    ensures Replies(c, []) == []
  {
  }

  // ---- a tick completes delivery ----

  ghost predicate Complete(s: Wired) {
    s.b.chan.expected == |s.a.log| + 1 && s.a.chan.expected == |s.b.log| + 1
  }

  /** Everything either side misses is on its way. */
  ghost predicate Refreshed(s: Wired) {
    && (forall t | s.b.chan.expected <= t <= |s.a.log| :: Brings(s.a.log, s.toB, t))
    && (forall t | s.a.chan.expected <= t <= |s.b.log| :: Brings(s.b.log, s.toA, t))
  }

  lemma TickBrings(x: Endpoint, y: Endpoint, queued: seq<Bytes>, t: int)
    requires Direction(x, y) && y.chan.expected <= t <= |x.log|
    ensures Brings(x.log, queued + EncodeAll(Tick(x.chan)), t)
  {
    hide Parse, Encode, Tick;
    assert Numbers(x.log, t, x.chan.unacked[t]);
    TickResends(x, y, t);
    EncodedIn(Tick(x.chan), Rel(t, x.log[t - 1]));
  }

  lemma TickedRefreshed(s: Wired)
    requires Linked(s)
    ensures Refreshed(Ticked(s))
  {
    hide Direction, Tick, Brings;
    var s' := Ticked(s);
    forall t | s'.b.chan.expected <= t <= |s'.a.log|
      ensures Brings(s'.a.log, s'.toB, t)
    {
      TickBrings(s.a, s.b, s.toB, t);
    }
    forall t | s'.a.chan.expected <= t <= |s'.b.log|
      ensures Brings(s'.b.log, s'.toA, t)
    {
      TickBrings(s.b, s.a, s.toA, t);
    }
  }

  lemma RefreshedDrained(s: Wired)
    requires Linked(s) && Refreshed(s)
    ensures Complete(Drained(s))
  {
    hide Direction, Replies, ReceiveAll, Parse, Encode;
    DrainedLinked(s);
    var b', heard := Drained(s).b, HeardByA(s);
    assert forall d | d in s.toB :: CanHappen(s.a, ReceiveEvent(d));
    HeardMissingDelivers(s.a, s.b, s.toB);
    assert forall d | d in heard :: CanHappen(b', ReceiveEvent(d));
    forall t | s.a.chan.expected <= t <= |b'.log|
      ensures Brings(b'.log, heard, t)
    {
      assert Brings(s.b.log, s.toA, t);
    }
    HeardMissingDelivers(b', s.a, heard);
  }

  lemma CompleteDrained(s: Wired)
    requires Linked(s) && Complete(s)
    ensures Complete(Drained(s))
  {
    hide Direction, Replies, ReceiveAll;
    DrainedLinked(s);
    AdvanceIsAcknowledged(s.b, s.toB);
    AdvanceIsAcknowledged(s.a, HeardByA(s));
    ExpectedPositive(s.a, Drained(s).b);
    ExpectedPositive(Drained(s).b, Drained(s).a);
  }

  // ---- the whole way to quiescence ----

  /** At most `left` more rounds: up to four drains, a tick, up to four drains more. */
  ghost predicate Stage(s: Wired, left: nat) {
    if left >= 5 then Settling(s, left - 5)
    else if left == 4 then Refreshed(s)
    else Complete(s) && Settling(s, left)
  }

  /** Nobody starves, and `left` rounds are enough. */
  ghost predicate Calming(s: Wired, left: nat) {
    Linked(s) && Fed(s) && Stage(s, left) && left <= 9
  }

  lemma DrainCalms(s: Wired, left: nat)
    requires Calming(s, left) && !Idle(s)
    ensures left > 0 && Calming(Drained(s), left - 1)
  {
    hide Direction, Settling, Fed, Linked, Drained, Complete, Refreshed;
    SettledIdle(s);
    DrainedStays(s);
    if left == 4 {
      RefreshedDrained(s);
      SettlingDrained(s, 4);
    } else if left > 4 {
      SettlingDrained(s, left - 5);
    } else {
      CompleteDrained(s);
      SettlingDrained(s, left);
    }
  }

  lemma SettledIdle(s: Wired)
    ensures Settling(s, 0) ==> Idle(s)
    ensures Settling(s, 4)
  {
  }

  lemma DrainedStays(s: Wired)
    requires Linked(s) && Fed(s)
    ensures Linked(Drained(s)) && Fed(Drained(s))
  {
    hide Linked, Fed, Drained;
    DrainedLinked(s);
    DrainedFed(s);
  }

  /** On an idle wire a tick either starts the last rounds or finds nothing held on either side. */
  lemma IdleCalms(s: Wired, left: nat)
    requires Calming(s, left) && Idle(s)
    ensures left >= 5 ==> Calming(Ticked(s), 4)
    ensures left < 5 ==> s.a.chan.unacked == map[] && s.b.chan.unacked == map[]
  {
    hide Direction, Settling, Tick, Act;
    if left >= 5 {
      TickedLinked(s);
      TickedFed(s);
      TickedRefreshed(s);
    } else {
      if left == 4 {
        IdleComplete(s);
      }
      NobodyWaits(s);
    }
  }

  lemma IdleComplete(s: Wired)
    requires Linked(s) && Refreshed(s) && Idle(s)
    ensures Complete(s)
  {
    hide Direction, Encode;
    ExpectedPositive(s.a, s.b);
    ExpectedPositive(s.b, s.a);
    assert !Brings(s.a.log, s.toB, |s.a.log|) && !Brings(s.b.log, s.toA, |s.b.log|);
  }

  lemma NobodyWaits(s: Wired)
    requires Complete(s) && Fed(s) && Idle(s)
    ensures s.a.chan.unacked == map[] && s.b.chan.unacked == map[]
  {
    hide Parse;
    forall held
      ensures held !in s.a.chan.unacked && held !in s.b.chan.unacked
    {
      assert NoAckFor([], held);
    }
    assert s.a.chan.unacked.Keys == {} && s.b.chan.unacked.Keys == {};
  }

  /** The order of what is queued does not matter. */
  lemma ReorderCalms(s: Wired, toB: seq<Bytes>, toA: seq<Bytes>, left: nat)
    requires Calming(s, left) && multiset(toB) == multiset(s.toB) && multiset(toA) == multiset(s.toA)
    ensures Calming(s.(toB := toB, toA := toA), left)
  {
    SameMembers(toB, s.toB);
    SameMembers(toA, s.toA);
    StarvesReordered(s.a, s.b, toA, s.toA);
    StarvesReordered(s.b, s.a, toB, s.toB);
    hide Direction, Starves, Parse, Encode;
    SameReading(toB, s.toB);
    SameReading(toA, s.toA);
  }

  lemma SameMembers(ds: seq<Bytes>, es: seq<Bytes>)
    requires multiset(ds) == multiset(es)
    ensures (forall d :: d in ds <==> d in es) && |ds| == |es|
  {
    assert forall d :: d in ds <==> d in multiset(ds);
    assert forall d :: d in es <==> d in multiset(es);
    assert |multiset(ds)| == |ds| && |multiset(es)| == |es|;
  }

  lemma SameReading(ds: seq<Bytes>, es: seq<Bytes>)
    requires forall d :: d in ds <==> d in es
    ensures forall s :: RelIn(ds, s) <==> RelIn(es, s)
    ensures forall missing :: NakIn(ds, missing) <==> NakIn(es, missing)
    ensures forall log, t :: Brings(log, ds, t) <==> Brings(log, es, t)
  {
    hide Parse, Encode;
  }

  /** Any state in which neither side starves calms down within nine rounds. */
  lemma FedCalms(s: Wired)
    requires Linked(s) && Fed(s)
    ensures Calming(s, 9)
  {
  }
}
