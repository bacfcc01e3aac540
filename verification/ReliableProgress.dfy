/** Progress of the reliable stream: one heard round of retransmissions delivers everything, and
    exactly when such a round also leaves nothing unacknowledged. */
module ReliableProgress {
  import opened Prelude
  import opened PacketCodec
  import opened ReliableStream

  function ReceiveAll(me: Endpoint, ds: seq<Bytes>): Endpoint
    decreases |ds|
  {
    if ds == [] then me else ReceiveAll(Act(me, ReceiveEvent(ds[0])), ds[1..])
  }

  function EncodeAll(out: seq<Packet>): (ds: seq<Bytes>)
    ensures |ds| == |out| && forall i | 0 <= i < |ds| :: ds[i] == Encode(out[i])
  {
    seq(|out|, i requires 0 <= i < |out| => Encode(out[i]))
  }

  /** What `c` emits while it ingests `ds`. */
  function Replies(c: Channel, ds: seq<Bytes>): seq<Bytes>
    decreases |ds|
  {
    if ds == [] then [] else EncodeAll(Ingest(c, ds[0]).1) + Replies(Ingest(c, ds[0]).0, ds[1..])
  }

  /** Payload `s` has arrived: it was delivered or waits in the buffer. */
  ghost predicate Has(c: Channel, s: int) {
    s < c.expected || s in c.buffered
  }

  lemma {:induction false} DrainHas(c: Channel, s: int)
    requires Has(c, s)
    ensures Has(Drain(c), s)
    decreases |c.buffered|
  {
    if c.expected !in c.buffered {
    } else {
      assert c.buffered.Keys - {c.expected} < c.buffered.Keys;
      DrainHas(Deliver(c.(buffered := c.buffered - {c.expected}), c.buffered[c.expected]), s);
    }
  }

  lemma IngestHas(c: Channel, d: Bytes, s: int)
    requires Has(c, s) || (Parse(d).Some? && Parse(d).value.Rel? && Parse(d).value.number == s)
    ensures Has(Ingest(c, d).0, s)
  {
    hide Parse;
    if Parse(d).Some? && Parse(d).value.Rel? {
      var payload := Parse(d).value.payload;
      if Parse(d).value.number == c.expected {
        DrainHas(Deliver(c, payload), s);
      }
    }
  }

  lemma {:induction false} ReceiveAllHas(me: Endpoint, ds: seq<Bytes>, s: int, d: Bytes)
    requires Has(me.chan, s) || (d in ds && Parse(d).Some? && Parse(d).value.Rel? && Parse(d).value.number == s)
    ensures Has(ReceiveAll(me, ds).chan, s)
    decreases |ds|
  {
    hide Parse, Ingest;
    if ds == [] {
    } else {
      if Has(me.chan, s) || d == ds[0] {
        IngestHas(me.chan, ds[0], s);
      }
      ReceiveAllHas(Act(me, ReceiveEvent(ds[0])), ds[1..], s, d);
    }
  }

  lemma {:induction false} ReceiveAllDirection(x: Endpoint, y: Endpoint, ds: seq<Bytes>)
    requires Direction(x, y) && forall d | d in ds :: CanHappen(x, ReceiveEvent(d))
    ensures Direction(x, ReceiveAll(y, ds))
    decreases |ds|
  {
    hide Direction, CanHappen, Act;
    if ds == [] {
    } else {
      ReceiverActs(x, y, ReceiveEvent(ds[0]));
      ReceiveAllDirection(x, Act(y, ReceiveEvent(ds[0])), ds[1..]);
    }
  }

  lemma TickResends(x: Endpoint, y: Endpoint, s: int)
    requires SenderOk(x) && s in x.chan.unacked
    ensures Rel(s, x.chan.unacked[s]) in Tick(x.chan)
  {
    var all := Range(Min(1, x.chan.nextSend), x.chan.nextSend);
    assert Numbers(x.log, s, x.chan.unacked[s]);
    assert all[s - 1] == s;
    RetransmitHolds(x.chan.unacked, all, s);
  }

  /** Payload `s` of the log is among the datagrams. */
  ghost predicate Brings(log: seq<Bytes>, ds: seq<Bytes>, s: int) {
    1 <= s <= |log| && Encode(Rel(s, log[s - 1])) in ds
  }

  /** Once the receiver has heard every payload it missed, in any order, repeated or mixed with other
      traffic, it has delivered everything that was sent. */
  lemma HeardMissingDelivers(x: Endpoint, y: Endpoint, ds: seq<Bytes>)
    requires Direction(x, y) && forall d | d in ds :: CanHappen(x, ReceiveEvent(d))
    requires forall s | y.chan.expected <= s <= |x.log| && s !in y.chan.buffered :: Brings(x.log, ds, s)
    ensures ReceiveAll(y, ds).History() == x.log
    ensures ReceiveAll(y, ds).chan.expected == |x.log| + 1
  {
    hide Parse, Encode, Tick;
    var y' := ReceiveAll(y, ds);
    ReceiveAllDirection(x, y, ds);
    Caught(x, y');
    forall s | y.chan.expected <= s <= |x.log|
      ensures Has(y'.chan, s)
    {
      var p := Rel(s, x.log[s - 1]);
      ParseEncoded(p);
      ReceiveAllHas(y, ds, s, Encode(p));
    }
    AdvanceIsAcknowledged(y, ds);
    assert Has(y'.chan, y'.chan.expected) <==> y'.chan.expected in y'.chan.buffered;
  }

  /** From every reachable state: once the receiver has heard each packet of one tick, in any order,
      repeated or mixed with older traffic, it has delivered everything that was sent. */
  lemma HeardRoundDelivers(x: Endpoint, y: Endpoint, ds: seq<Bytes>)
    requires Direction(x, y)
    requires forall p | p in Tick(x.chan) :: Encode(p) in ds
    requires forall d | d in ds :: CanHappen(Act(x, TickEvent), ReceiveEvent(d))
    ensures ReceiveAll(y, ds).History() == x.log
    ensures ReceiveAll(y, ds).chan.expected == |x.log| + 1
  {
    hide Parse, Encode, Tick;
    assert CanHappen(y, TickEvent);
    SenderActs(x, y, TickEvent);
    forall s | y.chan.expected <= s <= |x.log|
      ensures Brings(x.log, ds, s)
    {
      TickResends(x, y, s);
      assert Numbers(x.log, s, x.chan.unacked[s]);
    }
    HeardMissingDelivers(Act(x, TickEvent), y, ds);
  }

  // ---- requests for retransmission ----

  lemma GapIsRequested(x: Endpoint, y: Endpoint, number: int, payload: Bytes)
    requires Direction(x, y) && y.chan.expected < number && Numbers(x.log, number, payload)
    ensures Ingest(y.chan, Encode(Rel(number, payload))).1 == [Nak(Range(y.chan.expected, number))]
    ensures Has(Ingest(y.chan, Encode(Rel(number, payload))).0, number)
  {
    hide Parse, Encode;
    ParseEncoded(Rel(number, payload));
  }

  /** A request is answered with every payload it names that the peer still misses. */
  lemma RequestIsAnswered(x: Endpoint, y: Endpoint, missing: seq<int>, s: int)
    requires Direction(x, y) && s in missing && y.chan.expected <= s <= |x.log|
    ensures Rel(s, x.log[s - 1]) in Ingest(x.chan, Encode(Nak(missing))).1
  {
    hide Parse, Encode, Retransmit;
    ParseEncoded(Nak(missing));
    assert Numbers(x.log, s, x.chan.unacked[s]);
    RetransmitHolds(x.chan.unacked, missing, s);
  }

  /** One request and its answer close a gap: a packet ahead of its turn makes the receiver ask for all it
      lacks before it; once the sender's answer has been heard, in any order and mixed with older
      traffic, everything up to that packet is delivered. */
  lemma RequestClosesGap(x: Endpoint, y: Endpoint, number: int, payload: Bytes, ds: seq<Bytes>)
    requires Direction(x, y) && y.chan.expected < number && Numbers(x.log, number, payload)
    requires Encode(Rel(number, payload)) in x.wire
    requires var request := Encode(Nak(Range(y.chan.expected, number)));
             && (forall p | p in Ingest(x.chan, request).1 :: Encode(p) in ds)
             && (forall d | d in ds :: CanHappen(Act(x, ReceiveEvent(request)), ReceiveEvent(d)))
    ensures var y1 := Act(y, ReceiveEvent(Encode(Rel(number, payload))));
            && Encode(Nak(Range(y.chan.expected, number))) in y1.wire
            && ReceiveAll(y1, ds).chan.expected > number
  {
    hide Parse, Encode, Ingest;
    var arrival, missing := Encode(Rel(number, payload)), Range(y.chan.expected, number);
    var request := Encode(Nak(missing));
    GapIsRequested(x, y, number, payload);
    var y1 := Act(y, ReceiveEvent(arrival));
    assert Nak(missing) in [Nak(missing)];
    ReceiverActs(x, y, ReceiveEvent(arrival));
    SenderActs(x, y1, ReceiveEvent(request));
    var x1, y2 := Act(x, ReceiveEvent(request)), ReceiveAll(y1, ds);
    ReceiveAllDirection(x1, y1, ds);
    AdvanceIsAcknowledged(y1, ds);
    GapKeepsExpected(y, number, payload);
    forall s | y.chan.expected <= s <= number
      ensures Has(y2.chan, s)
    {
      if s == number {
        ReceiveAllHas(y1, ds, s, "");
      } else {
        assert missing[s - y.chan.expected] == s;
        RequestIsAnswered(x, y, missing, s);
        var p := Rel(s, x.log[s - 1]);
        ParseEncoded(p);
        ReceiveAllHas(y1, ds, s, Encode(p));
      }
    }
    assert Has(y2.chan, y2.chan.expected) <==> y2.chan.expected in y2.chan.buffered;
  }

  lemma GapKeepsExpected(y: Endpoint, number: int, payload: Bytes)
    requires y.chan.expected < number
    ensures Act(y, ReceiveEvent(Encode(Rel(number, payload)))).chan.expected == y.chan.expected
  {
    hide Parse, Encode;
    ParseEncoded(Rel(number, payload));
  }

  // ---- acknowledgements ----

  lemma {:induction false} AdvanceIsAcknowledged(me: Endpoint, ds: seq<Bytes>)
    ensures ReceiveAll(me, ds).chan.expected >= me.chan.expected
    ensures ReceiveAll(me, ds).chan.expected > me.chan.expected ==>
              Encode(Ack(ReceiveAll(me, ds).chan.expected - 1)) in Replies(me.chan, ds)
    decreases |ds|
  {
    hide Parse, Encode, Drain;
    if ds == [] {
    } else {
      var (c, out) := Ingest(me.chan, ds[0]);
      var me' := Act(me, ReceiveEvent(ds[0]));
      if Parse(ds[0]).Some? && Parse(ds[0]).value.Rel? {
        AckOnAdvance(me.chan, Parse(ds[0]).value.number, Parse(ds[0]).value.payload);
      }
      AdvanceIsAcknowledged(me', ds[1..]);
      if c.expected > me.chan.expected {
        assert EncodeAll(out)[0] == Encode(Ack(c.expected - 1));
      }
    }
  }

  /** Only an acknowledgement releases payloads, and one of at least `n` releases all up to `n`. */
  lemma {:induction false} AcknowledgedReleased(me: Endpoint, ds: seq<Bytes>, n: int)
    ensures ReceiveAll(me, ds).chan.unacked.Keys <= me.chan.unacked.Keys
    ensures (exists d | d in ds :: Parse(d) == Some(Ack(n))) ==>
              forall s | s in ReceiveAll(me, ds).chan.unacked :: s > n
    decreases |ds|
  {
    hide Parse, Drain;
    if ds == [] {
    } else {
      var me' := Act(me, ReceiveEvent(ds[0]));
      if Parse(ds[0]).Some? && Parse(ds[0]).value.Rel? {
        DrainKeeps(Deliver(me.chan, Parse(ds[0]).value.payload));
      }
      AcknowledgedReleased(me', ds[1..], n);
    }
  }

  /** A receiver that has everything answers data with silence and does not change. */
  lemma CompleteReceiverIsSilent(x: Endpoint, y: Endpoint, p: Packet)
    requires Direction(x, y) && y.chan.expected == |x.log| + 1 && p in Tick(x.chan)
    ensures Ingest(y.chan, Encode(p)) == (y.chan, [])
  {
    hide Parse, Encode, Drain;
    ParseEncoded(p);
    TickIsHeld(x.chan, x.log, p);
    assert forall s | s in y.chan.pendingNak :: y.chan.expected <= s < |x.log|;
    assert y.chan.pendingNak == {};
    assert y.chan.pendingNak - {p.number} == y.chan.pendingNak;
  }

  lemma {:induction false} SilentThroughout(x: Endpoint, y: Endpoint, ds: seq<Bytes>)
    requires Direction(x, y) && y.chan.expected == |x.log| + 1
    requires forall d | d in ds :: exists p | p in Tick(x.chan) :: d == Encode(p)
    ensures Replies(y.chan, ds) == [] && ReceiveAll(y, ds) == y
    decreases |ds|
  {
    hide Parse, Encode, Drain, Tick;
    if ds == [] {
    } else {
      assert ds[0] in ds && forall d | d in ds[1..] :: d in ds;
      var p :| p in Tick(x.chan) && ds[0] == Encode(p);
      CompleteReceiverIsSilent(x, y, p);
      assert Ingest(y.chan, ds[0]) == (y.chan, []);
      assert y.wire + Encoded([]) == y.wire;
      assert Act(y, ReceiveEvent(ds[0])) == y;
      SilentThroughout(x, y, ds[1..]);
    }
  }

  /** One lossless round: a tick, heard by the peer in order, whose replies are all heard in turn. */
  function Round(x: Endpoint, y: Endpoint): (Endpoint, Endpoint) {
    var ds := EncodeAll(Tick(x.chan));
    (ReceiveAll(Act(x, TickEvent), Replies(y.chan, ds)), ReceiveAll(y, ds))
  }

  lemma TickHeard(x: Endpoint, y: Endpoint)
    requires Direction(x, y)
    ensures Round(x, y).1.History() == x.log && Round(x, y).1.chan.expected == |x.log| + 1
    ensures Direction(x, Round(x, y).1)
  {
    hide Parse, Encode, Tick;
    var out := Tick(x.chan);
    var ds := EncodeAll(out);
    forall p | p in out
      ensures Encode(p) in ds
    {
      var i :| 0 <= i < |out| && out[i] == p;
      assert ds[i] == Encode(p);
    }
    forall d | d in ds
      ensures CanHappen(Act(x, TickEvent), ReceiveEvent(d))
    {
      var i :| 0 <= i < |ds| && ds[i] == d;
      assert out[i] in out;
      assert Encode(out[i]) in Encoded(out);
    }
    HeardRoundDelivers(x, y, ds);
    RoundKeepsDirection(x, y, ds);
  }

  lemma RoundKeepsDirection(x: Endpoint, y: Endpoint, ds: seq<Bytes>)
    requires Direction(x, y) && forall d | d in ds :: CanHappen(Act(x, TickEvent), ReceiveEvent(d))
    ensures Direction(x, ReceiveAll(y, ds))
  {
    hide Parse, Encode, Tick, Receives;
    SenderActs(x, y, TickEvent);
    ReceiveAllDirection(Act(x, TickEvent), y, ds);
  }

  /** A lossless round always completes delivery. It empties the sender's retransmission buffer exactly
      when the buffer was empty or the receiver still missed something: a complete receiver does not
      acknowledge again, so a lost final acknowledgement is never made up for. */
  lemma RoundClearsIff(x: Endpoint, y: Endpoint)
    requires Direction(x, y)
    ensures Round(x, y).1.History() == x.log
    ensures Round(x, y).0.chan.unacked == map[] <==> x.chan.unacked == map[] || y.chan.expected <= |x.log|
  {
    hide Parse, Encode, Tick;
    TickHeard(x, y);
    var ds := EncodeAll(Tick(x.chan));
    var replies := Replies(y.chan, ds);
    var x1 := Act(x, TickEvent);
    var n := |x.log|;
    AcknowledgedReleased(x1, replies, n);
    Caught(x, y);
    if y.chan.expected <= n {
      AdvanceIsAcknowledged(y, ds);
      ParseEncoded(Ack(n));
      assert Parse(Encode(Ack(n))) == Some(Ack(n));
      forall s | s in x.chan.unacked
        ensures s <= n
      {
        assert Numbers(x.log, s, x.chan.unacked[s]);
      }
      assert Round(x, y).0.chan.unacked.Keys == {};
    } else {
      EncodedTick(x);
      SilentThroughout(x, y, ds);
      assert Round(x, y).0.chan == x.chan;
    }
    if x.chan.unacked == map[] {
      assert Round(x, y).0.chan.unacked.Keys == {};
    }
  }

  lemma EncodedTick(x: Endpoint)
    ensures forall d | d in EncodeAll(Tick(x.chan)) :: exists p | p in Tick(x.chan) :: d == Encode(p)
  {
    hide Encode, Tick;
    var out := Tick(x.chan);
    forall d | d in EncodeAll(out)
      ensures exists p | p in out :: d == Encode(p)
    {
      var i :| 0 <= i < |out| && EncodeAll(out)[i] == d;
      assert out[i] in out;
    }
  }

  function Rounds(x: Endpoint, y: Endpoint, n: nat): (Endpoint, Endpoint)
    decreases n
  {
    if n == 0 then (x, y) else var (x', y') := Round(x, y); Rounds(x', y', n - 1)
  }

  /** Hence a complete receiver whose last acknowledgement was lost leaves the sender retransmitting for
      ever: no number of lossless rounds changes what it holds. */
  lemma {:induction false} NeverQuiesces(x: Endpoint, y: Endpoint, held: int, n: nat)
    requires Direction(x, y) && y.chan.expected == |x.log| + 1 && held in x.chan.unacked
    ensures Rounds(x, y, n).0.chan == x.chan && Tick(Rounds(x, y, n).0.chan) != []
    decreases n
  {
    hide Parse, Encode, Direction;
    if n == 0 {
      TickResends(x, y, held) by {
        DirectionSender(x, y);
      }
    } else {
      SilentRound(x, y);
      NeverQuiesces(Round(x, y).0, Round(x, y).1, held, n - 1);
    }
  }

  lemma DirectionSender(x: Endpoint, y: Endpoint)
    requires Direction(x, y)
    ensures SenderOk(x)
  {
  }

  lemma SilentRound(x: Endpoint, y: Endpoint)
    requires Direction(x, y) && y.chan.expected == |x.log| + 1
    ensures Round(x, y) == (Act(x, TickEvent), y) && Direction(Act(x, TickEvent), y)
  {
    hide Parse, Encode, Tick;
    EncodedTick(x);
    SilentThroughout(x, y, EncodeAll(Tick(x.chan)));
    SenderActs(x, y, TickEvent);
  }

  // ---- forgetting a payload by hand ----

  function Forget(x: Endpoint, number: int): Endpoint {
    x.(chan := Acknowledge(x.chan, number))
  }

  /** A tick of a sender that forgot a payload holds every other one. */
  lemma ForgottenRound(x: Endpoint, y: Endpoint, number: int)
    requires Direction(x, y) && (Has(y.chan, number) || number > |x.log|)
    ensures Round(Forget(x, number), y).1.History() == x.log
  {
    hide Parse, Encode, Tick;
    var x' := Forget(x, number);
    var ds := EncodeAll(Tick(x'.chan));
    assert SenderOk(x') by {
      hide EmitsLog;
      assert forall s | s in x'.chan.unacked :: Numbers(x.log, s, x.chan.unacked[s]);
    }
    forall d | d in ds
      ensures CanHappen(Act(x, TickEvent), ReceiveEvent(d))
    {
      EncodedTick(x');
      var p :| p in Tick(x'.chan) && d == Encode(p);
      StillTicked(x, number, p);
      assert Encode(p) in Encoded(Tick(x.chan));
    }
    forall s | y.chan.expected <= s <= |x.log| && s !in y.chan.buffered
      ensures Brings(x.log, ds, s)
    {
      assert s in x'.chan.unacked && Numbers(x.log, s, x.chan.unacked[s]);
      TickResends(x', y, s);
      EncodedIn(Tick(x'.chan), Rel(s, x.log[s - 1]));
    }
    SenderActs(x, y, TickEvent);
    HeardMissingDelivers(Act(x, TickEvent), y, ds);
  }

  lemma EncodedIn(out: seq<Packet>, p: Packet)
    requires p in out
    ensures Encode(p) in EncodeAll(out)
  {
    hide Encode;
    var i :| 0 <= i < |out| && out[i] == p;
    assert EncodeAll(out)[i] == Encode(p);
  }

  lemma StillTicked(x: Endpoint, number: int, p: Packet)
    requires p in Tick(Acknowledge(x.chan, number)) && x.chan.nextSend > 0
    ensures p in Tick(x.chan)
  {
    var all := Range(Min(1, x.chan.nextSend), x.chan.nextSend);
    RetransmitFromHeld(Acknowledge(x.chan, number).unacked, all, p);
    RetransmitHolds(x.chan.unacked, all, p.number);
  }

  /** `number` was never delivered, and does not wait in the buffer. */
  ghost predicate Lacks(y: Endpoint, number: int) {
    y.chan.expected <= number && number !in y.chan.buffered && y.chan.expected == |y.History()| + 1
  }

  lemma {:induction false} DrainLacks(c: Channel, number: int)
    requires c.expected <= number && number !in c.buffered
    ensures Drain(c).expected <= number && number !in Drain(c).buffered
    ensures Drain(c).expected - c.expected == |Drain(c).delivered| - |c.delivered|
    decreases |c.buffered|
  {
    if c.expected !in c.buffered {
    } else {
      assert c.buffered.Keys - {c.expected} < c.buffered.Keys;
      DrainLacks(Deliver(c.(buffered := c.buffered - {c.expected}), c.buffered[c.expected]), number);
    }
  }

  /** Hearing anything but the payload itself does not bring it. */
  lemma HearingLacks(y: Endpoint, d: Bytes, number: int)
    requires Lacks(y, number) && forall p | Parse(d) == Some(Rel(number, p)) :: false
    ensures Lacks(Act(y, ReceiveEvent(d)), number)
  {
    hide Parse, Encode;
    if Parse(d).Some? && Parse(d).value.Rel? {
      var s, payload := Parse(d).value.number, Parse(d).value.payload;
      assert s != number;
      if s == y.chan.expected {
        DrainLacks(Deliver(y.chan, payload), number);
      }
    }
  }

  lemma {:induction false} TickLacks(x: Endpoint, y: Endpoint, ds: seq<Bytes>, number: int)
    requires Lacks(y, number) && number !in x.chan.unacked
    requires forall d | d in ds :: exists p | p in Tick(x.chan) :: d == Encode(p)
    ensures Lacks(ReceiveAll(y, ds), number)
    decreases |ds|
  {
    hide Parse, Encode, Tick, Lacks;
    if ds == [] {
    } else {
      assert ds[0] in ds && forall d | d in ds[1..] :: d in ds;
      var p :| p in Tick(x.chan) && ds[0] == Encode(p);
      TickNumbers(x.chan, p);
      ParseEncoded(p);
      HearingLacks(y, ds[0], number);
      TickLacks(x, Act(y, ReceiveEvent(ds[0])), ds[1..], number);
    }
  }

  lemma TickNumbers(c: Channel, p: Packet)
    requires p in Tick(c)
    ensures p.Rel? && p.number in c.unacked
  {
    RetransmitFromHeld(c.unacked, Range(Min(1, c.nextSend), c.nextSend), p);
  }

  /** A payload forgotten before the receiver has it never arrives: no number of lossless rounds brings it. */
  lemma {:induction false} ForgottenForGood(x: Endpoint, y: Endpoint, number: int, n: nat)
    requires Lacks(y, number) && number !in x.chan.unacked
    ensures Lacks(Rounds(x, y, n).1, number)
    decreases n
  {
    hide Parse, Encode, Tick, Lacks;
    if n == 0 {
    } else {
      var ds := EncodeAll(Tick(x.chan));
      EncodedTick(x);
      TickLacks(x, y, ds, number);
      AcknowledgedReleased(Act(x, TickEvent), Replies(y.chan, ds), 0);
      ForgottenForGood(Round(x, y).0, Round(x, y).1, number, n - 1);
    }
  }

  /** Exactly when forgetting a payload by hand, which no run does, is safe: when the receiver has it,
      delivered or buffered, or it was never sent. One lossless round then delivers everything; otherwise no
      number of rounds delivers the payload. */
  lemma AcknowledgeSafeIff(x: Endpoint, y: Endpoint, number: int)
    requires Direction(x, y)
    ensures Round(Forget(x, number), y).1.History() == x.log <==> Has(y.chan, number) || number > |x.log|
    ensures !(Has(y.chan, number) || number > |x.log|) ==>
              forall n: nat :: |Rounds(Forget(x, number), y, n).1.History()| < number
  {
    hide Parse, Encode, Tick, Round;
    if Has(y.chan, number) || number > |x.log| {
      ForgottenRound(x, y, number);
    } else {
      var x' := Forget(x, number);
      assert Lacks(y, number) && number !in x'.chan.unacked;
      forall n: nat
        ensures |Rounds(x', y, n).1.History()| < number
      {
        ForgottenForGood(x', y, number, n);
      }
      assert Rounds(x', y, 1).1 == Round(x', y).1 by {
        assert Rounds(Round(x', y).0, Round(x', y).1, 0).1 == Round(x', y).1;
      }
    }
  }

  /** A run after which it loses a payload: sent, then forgotten before it was heard. */
  lemma ForgottenPayloadLost(payload: Bytes, n: nat)
    ensures var steps := [ByA(SendEvent(payload))];
            var w := After(START, steps);
            && IsRun(START, steps) && w.a.log == [payload]
            && Rounds(Forget(w.a, 1), w.b, n).1.History() == []
  {
    hide Parse, Encode, Tick, Rounds;
    var steps := [ByA(SendEvent(payload))];
    assert steps[1..] == [];
    var w := Next(START, steps[0]);
    assert IsRun(w, []) && After(w, []) == w;
    assert After(START, steps) == w;
    InvariantAfter(steps);
    AcknowledgeSafeIff(w.a, w.b, 1);
  }

  // ---- the same over a lossy wire ----

  /** Every datagram of `now` was queued before or is one of `out`. */
  ghost predicate From(now: seq<Bytes>, was: seq<Bytes>, out: seq<Bytes>) {
    forall d | d in now :: d in was || d in out
  }

  ghost predicate NoAckFor(replies: seq<Bytes>, held: int) {
    forall d, n | d in replies && Parse(d) == Some(Ack(n)) :: n < held
  }

  /** The receiver has everything, and the sender still holds a payload that no acknowledgement on its way
      back covers. */
  ghost predicate Starves(x: Endpoint, y: Endpoint, replies: seq<Bytes>) {
    y.chan.expected == |x.log| + 1 && exists held :: held in x.chan.unacked && NoAckFor(replies, held)
  }

  /** Nothing the wire can bring makes a complete receiver change or acknowledge. */
  lemma CompleteReceiver(x: Endpoint, y: Endpoint, d: Bytes)
    requires Direction(x, y) && CanHappen(x, ReceiveEvent(d)) && y.chan.expected == |x.log| + 1
    ensures Ingest(y.chan, d).0.expected == y.chan.expected
    ensures forall p | p in Ingest(y.chan, d).1 :: !p.Ack?
  {
    hide Parse, Encode, Drain;
    if Parse(d).Some? {
      match Parse(d).value
      case Rel(number, payload) => assert Numbers(x.log, number, payload);
      case Nak(missing) =>
        forall p | p in Retransmit(y.chan.unacked, missing)
          ensures p.Rel?
        {
          RetransmitFromHeld(y.chan.unacked, missing, p);
        }
      case Ack(_) =>
    }
  }

  lemma NoAckAdded(replies: seq<Bytes>, replies': seq<Bytes>, out: seq<Packet>, held: int)
    requires NoAckFor(replies, held) && From(replies', replies, EncodeAll(out)) && forall p | p in out :: !p.Ack?
    ensures NoAckFor(replies', held)
  {
    hide Parse, Encode;
    forall d, n | d in replies' && Parse(d) == Some(Ack(n))
      ensures n < held
    {
      if d !in replies {
        var i :| 0 <= i < |out| && EncodeAll(out)[i] == d;
        assert !out[i].Ack?;
        ParseEncoded(out[i]);
      }
    }
  }

  lemma StarvesReceiving(x: Endpoint, y: Endpoint, d: Bytes, replies: seq<Bytes>, replies': seq<Bytes>)
    requires Direction(x, y) && CanHappen(x, ReceiveEvent(d)) && Starves(x, y, replies)
    requires From(replies', replies, EncodeAll(Ingest(y.chan, d).1))
    ensures Starves(x, Act(y, ReceiveEvent(d)), replies')
  {
    hide Direction, CanHappen, Ingest, NoAckFor, From;
    CompleteReceiver(x, y, d);
    var held :| held in x.chan.unacked && NoAckFor(replies, held);
    NoAckAdded(replies, replies', Ingest(y.chan, d).1, held);
  }

  lemma StarvesHearing(x: Endpoint, y: Endpoint, d: Bytes, replies: seq<Bytes>, replies': seq<Bytes>)
    requires Starves(x, y, replies) && d in replies && From(replies', replies, [])
    ensures Starves(Act(x, ReceiveEvent(d)), y, replies')
  {
    hide Parse, Encode, Drain;
    var held :| held in x.chan.unacked && NoAckFor(replies, held);
    if Parse(d).Some? && Parse(d).value.Rel? {
      DrainKeeps(Deliver(x.chan, Parse(d).value.payload));
    }
    assert held in Act(x, ReceiveEvent(d)).chan.unacked && NoAckFor(replies', held);
  }

  lemma StarvesTicking(x: Endpoint, y: Endpoint, replies: seq<Bytes>, replies': seq<Bytes>)
    requires Starves(x, y, replies) && From(replies', replies, EncodeAll(Tick(y.chan)))
    ensures Starves(Act(x, TickEvent), Act(y, TickEvent), replies') && x.chan.unacked != map[]
  {
    hide NoAckFor, From, Tick;
    var held :| held in x.chan.unacked && NoAckFor(replies, held);
    TickNoAck(y.chan);
    NoAckAdded(replies, replies', Tick(y.chan), held);
    assert held in Act(x, TickEvent).chan.unacked;
  }

  lemma StarvesReordered(x: Endpoint, y: Endpoint, replies: seq<Bytes>, replies': seq<Bytes>)
    requires multiset(replies') == multiset(replies)
    ensures Starves(x, y, replies) ==> Starves(x, y, replies')
  {
    hide Parse, Encode;
    assert forall d :: d in replies' <==> d in multiset(replies');
    if held :| held in x.chan.unacked && NoAckFor(replies, held) {
      assert NoAckFor(replies', held);
    }
  }

  lemma TickNoAck(c: Channel)
    ensures forall p | p in Tick(c) :: !p.Ack?
  {
    forall p | p in Tick(c)
      ensures !p.Ack?
    {
      RetransmitFromHeld(c.unacked, Range(Min(1, c.nextSend), c.nextSend), p);
    }
  }

  /** A run that ends there: one payload sent, heard and delivered, its acknowledgement lost. */
  lemma LostFinalAcknowledgement(payload: Bytes, n: nat)
    ensures var steps := [ByA(SendEvent(payload)), ByB(ReceiveEvent(Encode(Rel(1, payload))))];
            var w := After(START, steps);
            && IsRun(START, steps)
            && w.b.History() == w.a.log == [payload]
            && Tick(Rounds(w.a, w.b, n).0.chan) != [] && Starves(w.a, w.b, [])
  {
    hide Parse, Encode, Tick, Invariant;
    var first, second := ByA(SendEvent(payload)), ByB(ReceiveEvent(Encode(Rel(1, payload))));
    var steps := [first, second];
    var w1 := Next(START, first);
    var w2 := Next(w1, second);
    ParseEncoded(Rel(1, payload));
    assert Rel(1, payload) in [Rel(1, payload)];
    assert Encode(Rel(1, payload)) in w1.a.wire;
    assert steps[1..] == [second] && steps[1..][1..] == [];
    assert IsRun(w1, [second]) && After(w1, [second]) == w2;
    assert IsRun(START, steps) && After(START, steps) == w2;
    assert Direction(w2.a, w2.b) by {
      InvariantAfter(steps);
    }
    assert 1 in w2.a.chan.unacked && NoAckFor([], 1);
    NeverQuiesces(w2.a, w2.b, 1, n);
  }

  lemma InvariantAfter(steps: seq<Step>)
    requires IsRun(START, steps)
    ensures Invariant(After(START, steps))
  {
    assert Invariant(START);
    RunKeepsInvariant(START, steps);
  }
}
