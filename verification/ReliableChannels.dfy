/** `ReliableChannel` and the fake wire as objects: every method is one event of the state machine,
    and the pump drives two channels until the wire is quiet. */
module ReliableChannels {
  import opened Prelude
  import opened PacketCodec
  import opened ReliableStream
  import opened ReliableProgress
  import opened ReliableQuiescence

  /** Conservation: what was sent or copied is queued, taken or dropped. */
  ghost predicate Balanced<T>(inbox: seq<T>, taken: multiset<T>, dropped: multiset<T>, sent: seq<T>,
                              copied: multiset<T>)
  {
    multiset(inbox) + taken + dropped == multiset(sent) + copied
  }

  lemma BalanceKept<T>(inbox: seq<T>, taken: multiset<T>, dropped: multiset<T>, sent: seq<T>, copied: multiset<T>, d: T)
    requires Balanced(inbox, taken, dropped, sent, copied)
    ensures Balanced(inbox + [d], taken, dropped, sent, copied + multiset{d})
    ensures Balanced(inbox + [d], taken, dropped, sent + [d], copied)
    ensures Balanced(inbox, taken, dropped + multiset{d}, sent + [d], copied)
  {
    assert multiset(inbox + [d]) == multiset(inbox) + multiset{d};
    assert multiset(sent + [d]) == multiset(sent) + multiset{d};
    var queued, one := multiset(inbox), multiset{d};
    assert queued + one + taken + dropped == (queued + taken + dropped) + one;
    assert queued + taken + (dropped + one) == (queued + taken + dropped) + one;
    assert multiset(sent) + (copied + one) == multiset(sent) + one + copied == (multiset(sent) + copied) + one;
  }

  lemma QueuedWasSent<T>(inbox: seq<T>, taken: multiset<T>, dropped: multiset<T>, sent: seq<T>, copied: multiset<T>)
    requires Balanced(inbox, taken, dropped, sent, copied) && inbox != [] && forall d | d in copied :: d in sent
    ensures inbox[0] in sent
    ensures Balanced(inbox[1..], taken + multiset{inbox[0]}, dropped, sent, copied)
  {
    HeadTail(inbox);
    var d := inbox[0];
    assert multiset(inbox) == multiset{d} + multiset(inbox[1..]);
    assert d in multiset(sent) + copied;
  }

  /** One direction of the fake wire: the closure `make_send` returns, and the inbox it fills. The drop
      predicate is arbitrary: it may remember, draw random numbers, or slip extra copies into the inbox. A
      lossless link is one without a drop predicate. */
  class Link {
    const lossless: bool
    var inbox: seq<Bytes>
    ghost var sent: seq<Bytes>
    ghost var dropped: multiset<Bytes>
    ghost var copied: multiset<Bytes>
    ghost var taken: multiset<Bytes>

    /** Nothing appears or vanishes, and only sent datagrams are copied. */
    ghost predicate Valid()
      reads this
    {
      Balanced(inbox, taken, dropped, sent, copied) && forall d | d in copied :: d in sent
    }

    constructor (lossless: bool)
      ensures this.lossless == lossless && Valid() && inbox == [] && sent == []
      ensures dropped == copied == taken == multiset{}
    {
      this.lossless := lossless;
      inbox, sent := [], [];
      dropped, copied, taken := multiset{}, multiset{}, multiset{};
    }

    /** The drop predicate may slip any number of extra copies into the inbox. */
    method SlipIn(packet: Bytes)
      requires Valid()
      modifies this`inbox, this`copied
      ensures Balanced(inbox, taken, dropped, sent, copied) && (forall d | d in copied :: d in sent || d == packet)
      ensures old(inbox) <= inbox && From(inbox, old(inbox), [packet])
    {
      hide Balanced;
      var extra: nat := *;
      while extra > 0
        invariant Balanced(inbox, taken, dropped, sent, copied) && (forall d | d in copied :: d in sent || d == packet)
        invariant old(inbox) <= inbox && From(inbox, old(inbox), [packet])
      {
        BalanceKept(inbox, taken, dropped, sent, copied, packet);
        inbox, copied, extra := inbox + [packet], copied + multiset{packet}, extra - 1;
      }
    }

    method Send(packet: Bytes)
      requires Valid()
      modifies this
      ensures Valid()
      ensures sent == old(sent) + [packet] && taken == old(taken) && old(inbox) <= inbox
      ensures From(inbox, old(inbox), [packet])
      ensures lossless ==> inbox == old(inbox) + [packet]
    {
      hide Balanced;
      var drop: bool := *;
      if lossless {
        drop := false;
      } else {
        SlipIn(packet);
      }
      BalanceKept(inbox, taken, dropped, sent, copied, packet);
      if drop {
        dropped := dropped + multiset{packet};
      } else {
        inbox := inbox + [packet];
      }
      sent := sent + [packet];
    }

    method Take() returns (packet: Bytes)
      requires Valid() && inbox != []
      modifies this
      ensures Valid() && sent == old(sent)
      ensures packet == old(inbox[0]) && inbox == old(inbox[1..]) && taken == old(taken) + multiset{packet}
      ensures packet in sent
    {
      packet := inbox[0];
      QueuedWasSent(inbox, taken, dropped, sent, copied);
      inbox, taken := inbox[1..], taken + multiset{packet};
    }

    /** The reorder callback: any permutation, which may depend on anything. */
    method Reorder()
      requires Valid()
      modifies this
      ensures Valid() && sent == old(sent) && taken == old(taken) && multiset(inbox) == multiset(old(inbox))
    {
      var shuffled: seq<Bytes> := *;
      if multiset(shuffled) == multiset(inbox) {
        inbox := shuffled;
      }
    }
  }

  lemma {:induction false} RetransmitNothing(numbers: seq<int>)
    ensures Retransmit(map[], numbers) == []
  {
    if numbers == [] {
    } else {
      RetransmitNothing(numbers[1..]);
    }
  }

  class ReliableChannel {
    const link: Link
    var nextSendSeq: nat
    var unacked: map<int, Bytes>
    var expected: nat
    var buffered: map<int, Bytes>
    var delivered: seq<Bytes>
    var pendingNak: set<int>
    ghost var log: seq<Bytes>
    ghost var popped: seq<Bytes>

    ghost function State(): Channel
      reads this
    {
      Channel(nextSendSeq, unacked, expected, buffered, delivered, pendingNak)
    }

    ghost function End(): Endpoint
      reads this, link
    {
      Endpoint(State(), log, popped, set d | d in link.sent)
    }

    /** The wire's books balance, and only numbered payloads are held. */
    ghost predicate Valid()
      reads this, link
    {
      link.Valid() && HoldsNumbered(State())
    }

    constructor (link: Link)
      requires link.Valid() && link.sent == []
      ensures this.link == link && Valid() && End() == Endpoint(FRESH, [], [], {})
    {
      this.link := link;
      nextSendSeq, unacked, expected := 1, map[], 1;
      buffered, delivered, pendingNak := map[], [], {};
      log, popped := [], [];
    }

    /** Puts one packet on the wire. */
    method Emit(p: Packet)
      requires link.Valid()
      modifies link
      ensures link.Valid() && link.sent == old(link.sent) + [Encode(p)] && old(link.inbox) <= link.inbox
      ensures From(link.inbox, old(link.inbox), [Encode(p)])
      ensures link.lossless ==> link.inbox == old(link.inbox) + [Encode(p)]
    {
      link.Send(Encode(p));
    }

    method Send(payload: Bytes) returns (number: nat)
      requires Valid()
      modifies this, link
      ensures Valid() && number == old(nextSendSeq)
      ensures End() == Act(old(End()), SendEvent(payload))
    {
      hide Encode;
      number := nextSendSeq;
      nextSendSeq := nextSendSeq + 1;
      unacked := unacked[number := payload];
      log := log + [payload];
      Emit(Rel(number, payload));
      WireOne(old(link.sent), Rel(number, payload));
    }

    /** `ack`: drops one payload from the retransmission buffer. One lossless round then still
        delivers everything to a peer in step exactly when the peer has the payload, or it was never sent. */
    method Acknowledge(number: int)
      requires Valid()
      modifies this`unacked
      ensures Valid() && End() == Forget(old(End()), number)
      ensures forall y: Endpoint | Direction(old(End()), y) ::
                Round(End(), y).1.History() == log <==> Has(y.chan, number) || number > |log|
    {
      hide Direction, Round;
      ghost var was := End();
      unacked := unacked - {number};
      forall y: Endpoint | Direction(was, y)
        ensures Round(End(), y).1.History() == log <==> Has(y.chan, number) || number > |log|
      {
        AcknowledgeSafeIff(was, y, number);
      }
    }

    /** The loop of both a tick and a received NAK. */
    method Resend(numbers: seq<int>)
      requires Valid()
      modifies link
      ensures Valid()
      ensures link.sent == old(link.sent) + EncodeAll(Retransmit(unacked, numbers))
      ensures From(link.inbox, old(link.inbox), EncodeAll(Retransmit(unacked, numbers)))
      ensures link.lossless ==> link.inbox == old(link.inbox) + EncodeAll(Retransmit(unacked, numbers))
      ensures unacked == map[] ==> link.inbox == old(link.inbox)
    {
      hide Encode;
      ghost var out := EncodeAll(Retransmit(unacked, numbers));
      ghost var all := old(link.sent) + out;
      assert numbers[0..] == numbers;
      for i := 0 to |numbers|
        invariant link.Valid()
        invariant link.sent + EncodeAll(Retransmit(unacked, numbers[i..])) == all
        invariant unacked == map[] ==> link.inbox == old(link.inbox)
        invariant From(link.inbox + EncodeAll(Retransmit(unacked, numbers[i..])), old(link.inbox), out)
        invariant link.lossless ==>
                    link.inbox + EncodeAll(Retransmit(unacked, numbers[i..])) == old(link.inbox) + out
      {
        var number := numbers[i];
        RetransmitStep(link.sent, unacked, numbers, i);
        RetransmitStep(link.inbox, unacked, numbers, i);
        ghost var was := link.inbox;
        if number in unacked {
          Emit(Rel(number, unacked[number]));
        }
        FromStep(link.inbox, was, old(link.inbox), out, unacked, numbers, i);
      }
      assert link.sent + EncodeAll([]) == link.sent && link.inbox + EncodeAll([]) == link.inbox;
    }

    /** Retransmits everything unacknowledged; returns how many packets went out. */
    method TickRetransmit() returns (count: nat)
      requires Valid()
      modifies link
      ensures Valid() && count == |unacked| && |link.sent| == |old(link.sent)| + count
      ensures link.sent == old(link.sent) + EncodeAll(Tick(State()))
      ensures From(link.inbox, old(link.inbox), EncodeAll(Tick(State())))
      ensures link.lossless ==> link.inbox == old(link.inbox) + EncodeAll(Tick(State()))
      ensures End() == Act(old(End()), TickEvent)
      ensures unacked == map[] ==> link.inbox == old(link.inbox)
    {
      hide Encode;
      Resend(Range(Min(1, nextSendSeq), nextSendSeq));
      WireAll(old(link.sent), Tick(State()));
      TickCount(State());
      count := |unacked|;
    }

    method Ingest(packet: Bytes)
      requires Valid()
      modifies this, link
      ensures Valid()
      ensures link.sent == old(link.sent) + EncodeAll(ReliableStream.Ingest(old(State()), packet).1)
      ensures From(link.inbox, old(link.inbox), EncodeAll(ReliableStream.Ingest(old(State()), packet).1))
      ensures link.lossless ==>
                link.inbox == old(link.inbox) + EncodeAll(ReliableStream.Ingest(old(State()), packet).1)
      ensures End() == Act(old(End()), ReceiveEvent(packet))
    {
      hide Parse, Encode, Drain;
      var parsed := Parse(packet);
      ghost var out := ReliableStream.Ingest(State(), packet).1;
      if parsed.Some? {
        match parsed.value {
          case Rel(number, payload) =>
            IngestRel(number, payload);
          case Nak(missing) =>
            Resend(missing);
          case Ack(upTo) =>
            var stale := set s | s in unacked && s <= upTo;
            unacked := unacked - stale;
            assert unacked == old(map s | s in unacked && s > upTo :: unacked[s]);
        }
      }
      assert link.sent == old(link.sent) + EncodeAll(out);
      assert link.lossless ==> link.inbox == old(link.inbox) + EncodeAll(out);
      WireAll(old(link.sent), out);
    }

    /** Delivers the buffered payloads that have become contiguous. */
    method DrainBuffered()
      modifies this`delivered, this`buffered, this`pendingNak, this`expected
      ensures State() == Drain(old(State()))
    {
      while expected in buffered
        invariant Drain(State()) == Drain(old(State()))
        decreases |buffered|
      {
        assert buffered.Keys - {expected} < buffered.Keys;
        delivered := delivered + [buffered[expected]];
        buffered := buffered - {expected};
        pendingNak := pendingNak - {expected};
        expected := expected + 1;
      }
    }

    method IngestRel(number: int, payload: Bytes)
      requires Valid()
      modifies this, link
      ensures Valid() && log == old(log) && popped == old(popped)
      ensures State() == ReliableStream.IngestRel(old(State()), number, payload).0
      ensures link.sent == old(link.sent) + EncodeAll(ReliableStream.IngestRel(old(State()), number, payload).1)
      ensures From(link.inbox, old(link.inbox), EncodeAll(ReliableStream.IngestRel(old(State()), number, payload).1))
      ensures link.lossless ==>
                link.inbox == old(link.inbox) + EncodeAll(ReliableStream.IngestRel(old(State()), number, payload).1)
    {
      hide Encode, Drain;
      if number < expected {
        pendingNak := pendingNak - {number};
        assert link.sent + EncodeAll([]) == link.sent && link.inbox + EncodeAll([]) == link.inbox;
        return;
      }
      if number == expected {
        delivered := delivered + [payload];
        expected := expected + 1;
        pendingNak := pendingNak - {number};
        assert State() == Deliver(old(State()), payload);
        DrainBuffered();
        EncodeOne(Ack(expected - 1));
        Emit(Ack(expected - 1));
        return;
      }
      buffered := buffered[number := payload];
      var missing := Range(expected, number);
      pendingNak := pendingNak + set s | s in missing;
      EncodeOne(Nak(missing));
      Emit(Nak(missing));
    }

    method PopDelivered() returns (out: seq<Bytes>)
      modifies this`delivered, this`popped
      ensures out == old(delivered) && End() == Act(old(End()), PopEvent)
    {
      out := delivered;
      popped := popped + delivered;
      delivered := [];
    }
  }

  lemma EncodeOne(p: Packet)
    ensures EncodeAll([p]) == [Encode(p)]
  {
  }

  lemma EncodeAppend(a: seq<Packet>, b: seq<Packet>)
    ensures EncodeAll(a + b) == EncodeAll(a) + EncodeAll(b)
  {
  }

  lemma RetransmitStep(sent: seq<Bytes>, unacked: map<int, Bytes>, numbers: seq<int>, i: nat)
    requires i < |numbers|
    ensures sent + EncodeAll(Retransmit(unacked, numbers[i..])) ==
            (if numbers[i] in unacked then sent + [Encode(Rel(numbers[i], unacked[numbers[i]]))] else sent)
            + EncodeAll(Retransmit(unacked, numbers[i + 1..]))
  {
    hide Encode;
    assert numbers[i..][1..] == numbers[i + 1..];
    var rest := Retransmit(unacked, numbers[i + 1..]);
    if numbers[i] in unacked {
      var p := Rel(numbers[i], unacked[numbers[i]]);
      EncodeAppend([p], rest);
      EncodeOne(p);
      ConcatAssociative(sent, [Encode(p)], EncodeAll(rest));
    } else {
      assert [] + rest == rest;
    }
  }

  lemma FromStep(now: seq<Bytes>, was: seq<Bytes>, start: seq<Bytes>, out: seq<Bytes>, unacked: map<int, Bytes>,
                 numbers: seq<int>, i: nat)
    requires i < |numbers| && From(was + EncodeAll(Retransmit(unacked, numbers[i..])), start, out)
    requires if numbers[i] in unacked then From(now, was, [Encode(Rel(numbers[i], unacked[numbers[i]]))])
             else now == was
    ensures From(now + EncodeAll(Retransmit(unacked, numbers[i + 1..])), start, out)
  {
    hide Encode, Retransmit;
    RetransmitStep(was, unacked, numbers, i);
  }

  lemma WireAll(sent: seq<Bytes>, out: seq<Packet>)
    ensures (set d | d in sent + EncodeAll(out)) == (set d | d in sent) + Encoded(out)
  {
    hide Encode;
    forall d | d in EncodeAll(out)
      ensures d in Encoded(out)
    {
      var i :| 0 <= i < |out| && EncodeAll(out)[i] == d;
      assert out[i] in out;
    }
    forall d | d in Encoded(out)
      ensures d in EncodeAll(out)
    {
      var p :| p in out && d == Encode(p);
      var i :| 0 <= i < |out| && out[i] == p;
      assert EncodeAll(out)[i] == d;
    }
  }

  lemma WireOne(sent: seq<Bytes>, p: Packet)
    ensures (set d | d in sent + [Encode(p)]) == (set d | d in sent) + Encoded([p])
  {
    hide Encode;
    EncodeOne(p);
    WireAll(sent, [p]);
  }

  // ---- the pump ----

  /** Two channels wired to each other, in a state some run leads to. */
  ghost predicate Paired(a: ReliableChannel, b: ReliableChannel)
    reads a, b, a.link, b.link
  {
    && a != b && a.link != b.link && a.Valid() && b.Valid()
    && Direction(a.End(), b.End()) && Direction(b.End(), a.End())
  }

  /** `b` has everything, and no acknowledgement queued for `a` covers all that `a` still holds. */
  ghost predicate Starving(a: ReliableChannel, b: ReliableChannel)
    reads a, b, a.link, b.link
  {
    Starves(a.End(), b.End(), b.link.inbox)
  }

  /** One datagram from `from`'s wire reaches `to`. */
  method DeliverNext(from: ReliableChannel, to: ReliableChannel)
    requires Paired(from, to) && from.link.inbox != []
    modifies from.link, to, to.link
    ensures Paired(from, to) && to.log == old(to.log) && to.popped == old(to.popped)
    ensures from.link.inbox == old(from.link.inbox[1..])
    ensures from.link.taken == old(from.link.taken) + multiset{old(from.link.inbox[0])}
    ensures from.End() == old(from.End()) && to.End() == Act(old(to.End()), ReceiveEvent(old(from.link.inbox[0])))
    ensures to.link.lossless ==>
              to.link.inbox == old(to.link.inbox) + EncodeAll(Ingest(old(to.State()), old(from.link.inbox[0])).1)
    ensures old(Starving(from, to)) ==> Starving(from, to)
    ensures old(Starving(to, from)) ==> Starving(to, from)
  {
    hide Direction, Act, Starves;
    var packet := from.link.Take();
    assert from.End() == old(from.End());
    assert CanHappen(from.End(), ReceiveEvent(packet));
    ReceiverActs(from.End(), to.End(), ReceiveEvent(packet));
    SenderActs(to.End(), from.End(), ReceiveEvent(packet));
    LogKept(to.End(), ReceiveEvent(packet));
    to.Ingest(packet);
    if old(Starving(from, to)) {
      StarvesReceiving(from.End(), old(to.End()), packet, old(to.link.inbox), to.link.inbox);
    }
    if old(Starving(to, from)) {
      StarvesHearing(old(to.End()), from.End(), packet, old(from.link.inbox), from.link.inbox);
    }
  }

  lemma LogKept(me: Endpoint, e: Event)
    requires e.ReceiveEvent? || e.TickEvent?
    ensures Act(me, e).log == me.log && Act(me, e).popped == me.popped
  {
  }

  lemma SentLog(me: Endpoint, payload: Bytes)
    ensures Act(me, SendEvent(payload)).log == me.log + [payload]
  {
  }

  lemma FreshlyPaired()
    ensures Direction(Endpoint(FRESH, [], [], {}), Endpoint(FRESH, [], [], {}))
  {
    hide Parse, Encode;
  }

  method DrainInbox(from: ReliableChannel, to: ReliableChannel)
    requires Paired(from, to)
    modifies from.link, to, to.link
    ensures Paired(from, to) && to.log == old(to.log) && to.popped == old(to.popped) && from.link.inbox == []
    ensures from.End() == old(from.End()) && to.End() == ReceiveAll(old(to.End()), old(from.link.inbox))
    ensures to.link.lossless ==>
              to.link.inbox == old(to.link.inbox) + Replies(old(to.State()), old(from.link.inbox))
    ensures old(Starving(from, to)) ==> Starving(from, to)
    ensures old(Starving(to, from)) ==> Starving(to, from)
  {
    hide Direction, Starving, Act, Ingest;
    while from.link.inbox != []
      invariant Paired(from, to) && to.log == old(to.log) && to.popped == old(to.popped)
      invariant from.End() == old(from.End())
      invariant ReceiveAll(to.End(), from.link.inbox) == ReceiveAll(old(to.End()), old(from.link.inbox))
      invariant to.link.lossless ==>
                  to.link.inbox + Replies(to.State(), from.link.inbox) ==
                  old(to.link.inbox) + Replies(old(to.State()), old(from.link.inbox))
      invariant old(Starving(from, to)) ==> Starving(from, to)
      invariant old(Starving(to, from)) ==> Starving(to, from)
      decreases |from.link.inbox|
    {
      RepliesInTurn(to.End(), from.link.inbox, to.link.inbox);
      DeliverNext(from, to);
    }
    NothingReplied(to.State());
    assert to.link.inbox + [] == to.link.inbox;
  }

  lemma RepliesInTurn(me: Endpoint, ds: seq<Bytes>, queued: seq<Bytes>)
    requires ds != []
    ensures var me', out := Act(me, ReceiveEvent(ds[0])), EncodeAll(Ingest(me.chan, ds[0]).1);
            && ReceiveAll(me, ds) == ReceiveAll(me', ds[1..])
            && queued + Replies(me.chan, ds) == (queued + out) + Replies(me'.chan, ds[1..])
  {
    hide Parse, Encode, Ingest;
    ConcatAssociative(queued, EncodeAll(Ingest(me.chan, ds[0]).1), Replies(Ingest(me.chan, ds[0]).0, ds[1..]));
  }

  /** Both ends and what is queued between them. */
  ghost function Wires(a: ReliableChannel, b: ReliableChannel): Wired
    reads a, b, a.link, b.link
  {
    Wired(a.End(), b.End(), a.link.inbox, b.link.inbox)
  }

  lemma PairedLinked(a: ReliableChannel, b: ReliableChannel)
    requires Paired(a, b)
    ensures Linked(Wires(a, b))
  {
    hide Direction;
    QueuedOnWire(a.link.inbox, a.link.taken, a.link.dropped, a.link.sent, a.link.copied);
    QueuedOnWire(b.link.inbox, b.link.taken, b.link.dropped, b.link.sent, b.link.copied);
  }

  lemma QueuedOnWire<T>(inbox: seq<T>, taken: multiset<T>, dropped: multiset<T>, sent: seq<T>, copied: multiset<T>)
    requires Balanced(inbox, taken, dropped, sent, copied) && forall d | d in copied :: d in sent
    ensures forall d | d in inbox :: d in sent
  {
    forall d | d in inbox
      ensures d in sent
    {
      assert d in multiset(inbox);
      assert d in multiset(sent) + copied;
    }
  }

  /** Each side in turn hears everything queued for it. */
  method DrainBoth(a: ReliableChannel, b: ReliableChannel)
    requires Paired(a, b)
    modifies a, b, a.link, b.link
    ensures Paired(a, b) && a.log == old(a.log) && b.log == old(b.log)
    ensures a.popped == old(a.popped) && b.popped == old(b.popped)
    ensures a.link.lossless && b.link.lossless ==> Wires(a, b) == Drained(old(Wires(a, b)))
    ensures old(Starving(a, b)) ==> Starving(a, b)
    ensures old(Starving(b, a)) ==> Starving(b, a)
  {
    hide Direction, Starving, ReceiveAll, Replies;
    DrainInbox(a, b);
    DrainInbox(b, a);
    ghost var replies := Replies(old(a.State()), HeardByA(old(Wires(a, b))));
    assert [] + replies == replies;
  }

  method ReorderBoth(a: ReliableChannel, b: ReliableChannel, ghost left: nat)
    requires Paired(a, b)
    modifies a.link, b.link
    ensures Paired(a, b) && a.End() == old(a.End()) && b.End() == old(b.End())
    ensures multiset(a.link.inbox) == multiset(old(a.link.inbox))
    ensures multiset(b.link.inbox) == multiset(old(b.link.inbox))
    ensures old(Starving(a, b)) ==> Starving(a, b)
    ensures old(Starving(b, a)) ==> Starving(b, a)
    ensures old(Calming(Wires(a, b), left)) ==> Calming(Wires(a, b), left)
  {
    hide Direction, Starves, Calming;
    b.link.Reorder();
    a.link.Reorder();
    if old(Calming(Wires(a, b), left)) {
      ReorderCalms(old(Wires(a, b)), a.link.inbox, b.link.inbox, left);
    }
    StarvesReordered(a.End(), b.End(), old(b.link.inbox), b.link.inbox);
    StarvesReordered(b.End(), a.End(), old(a.link.inbox), a.link.inbox);
  }

  /** Both sides retransmit what they still hold; returns how much that was. */
  method TickBoth(a: ReliableChannel, b: ReliableChannel) returns (count: nat)
    requires Paired(a, b)
    modifies a.link, b.link
    ensures Paired(a, b)
    ensures count == 0 <==> a.unacked == map[] && b.unacked == map[]
    ensures count == 0 ==> a.link.inbox == old(a.link.inbox) && b.link.inbox == old(b.link.inbox)
    ensures a.link.lossless && b.link.lossless ==> Wires(a, b) == Ticked(old(Wires(a, b)))
    ensures old(Starving(a, b)) ==> Starving(a, b) && count > 0
    ensures old(Starving(b, a)) ==> Starving(b, a) && count > 0
  {
    hide Direction, Act, Starves;
    ghost var ea, eb := a.End(), b.End();
    var sentA := a.TickRetransmit();
    SenderActs(ea, eb, TickEvent);
    ReceiverActs(eb, ea, TickEvent);
    ghost var ea' := a.End();
    var sentB := b.TickRetransmit();
    SenderActs(eb, ea', TickEvent);
    ReceiverActs(ea', eb, TickEvent);
    count := sentA + sentB;
    if old(Starving(a, b)) {
      StarvesTicking(ea, eb, old(b.link.inbox), b.link.inbox);
    }
    if old(Starving(b, a)) {
      StarvesTicking(eb, ea, old(a.link.inbox), a.link.inbox);
    }
  }

  lemma DeliveredPrefix(x: Endpoint, y: Endpoint)
    requires Direction(x, y)
    ensures y.History() <= x.log
  {
  }

  lemma Quiet(x: Endpoint, y: Endpoint)
    requires Direction(x, y) && x.chan.unacked == map[]
    ensures y.History() == x.log
  {
    Caught(x, y);
  }

  /** A drain round brings a calm wire one round closer to the end. */
  method DrainRound(a: ReliableChannel, b: ReliableChannel, ghost left: nat)
    requires Paired(a, b) && (a.link.inbox != [] || b.link.inbox != [])
    modifies a, b, a.link, b.link
    ensures Paired(a, b) && a.log == old(a.log) && b.log == old(b.log)
    ensures a.popped == old(a.popped) && b.popped == old(b.popped)
    ensures old(Starving(a, b)) ==> Starving(a, b)
    ensures old(Starving(b, a)) ==> Starving(b, a)
    ensures a.link.lossless && b.link.lossless && old(Calming(Wires(a, b), left)) ==>
              left > 0 && Calming(Wires(a, b), left - 1)
  {
    hide Paired, Starving, Calming, Drained;
    ghost var s := Wires(a, b);
    DrainBoth(a, b);
    if a.link.lossless && b.link.lossless && Calming(s, left) {
      DrainCalms(s, left);
    }
  }

  /** A tick on an idle, calm wire finds nothing held, or starts the last rounds. */
  method TickRound(a: ReliableChannel, b: ReliableChannel, ghost left: nat) returns (count: nat)
    requires Paired(a, b) && a.link.inbox == [] && b.link.inbox == []
    modifies a.link, b.link
    ensures Paired(a, b)
    ensures count == 0 ==> a.unacked == map[] && b.unacked == map[] && a.link.inbox == [] && b.link.inbox == []
    ensures old(Starving(a, b)) ==> Starving(a, b) && count > 0
    ensures old(Starving(b, a)) ==> Starving(b, a) && count > 0
    ensures a.link.lossless && b.link.lossless && old(Calming(Wires(a, b), left)) && count > 0 ==>
              left > 4 && Calming(Wires(a, b), 4)
  {
    hide Paired, Starving, Calming, Ticked;
    ghost var s := Wires(a, b);
    count := TickBoth(a, b);
    if a.link.lossless && b.link.lossless && Calming(s, left) {
      IdleCalms(s, left);
    }
  }

  /** Drains both inboxes round by round; on an idle wire both sides retransmit, and when neither had
      anything to retransmit the pump stops. Returning early means the wire is empty, nothing is
      unacknowledged and everything sent has been delivered in order, whatever was lost on the way. Once a
      side holds a payload its peer has and no acknowledgement under way covers, the pump runs to its limit,
      whatever the wire does. Otherwise it stops within nine rounds if nothing is lost or copied from then on,
      however the inboxes are reordered. */
  method PumpUntilStable(a: ReliableChannel, b: ReliableChannel, reordering: bool, maxRounds: nat)
    returns (rounds: nat)
    requires Paired(a, b)
    modifies a, b, a.link, b.link
    ensures Paired(a, b) && a.log == old(a.log) && b.log == old(b.log)
    ensures a.popped == old(a.popped) && b.popped == old(b.popped)
    ensures rounds <= maxRounds
    ensures rounds < maxRounds ==>
              && a.link.inbox == [] && b.link.inbox == []
              && a.unacked == map[] && b.unacked == map[]
              && b.End().History() == a.log && a.End().History() == b.log
    ensures old(Starving(a, b) || Starving(b, a)) ==> rounds == maxRounds
    ensures a.link.lossless && b.link.lossless && !old(Starving(a, b) || Starving(b, a)) ==> rounds <= 9
  {
    hide Direction, Starving, Calming, Wires;
    rounds := 0;
    ghost var calm := a.link.lossless && b.link.lossless && !(Starving(a, b) || Starving(b, a));
    ghost var left: nat := 9;
    if calm {
      StartsCalm(a, b);
    }
    while rounds < maxRounds
      invariant rounds <= maxRounds
      invariant Paired(a, b) && a.log == old(a.log) && b.log == old(b.log)
      invariant a.popped == old(a.popped) && b.popped == old(b.popped)
      invariant old(Starving(a, b)) ==> Starving(a, b)
      invariant old(Starving(b, a)) ==> Starving(b, a)
      invariant calm ==> Calming(Wires(a, b), left) && rounds + left <= 9
    {
      if reordering {
        ReorderBoth(a, b, left);
      }
      if b.link.inbox != [] || a.link.inbox != [] {
        DrainRound(a, b, left);
        rounds, left := rounds + 1, if calm then left - 1 else left;
        continue;
      }
      var sent := TickRound(a, b, left);
      if sent == 0 {
        Quiet(a.End(), b.End());
        Quiet(b.End(), a.End());
        return;
      }
      rounds, left := rounds + 1, 4;
    }
  }

  lemma StartsCalm(a: ReliableChannel, b: ReliableChannel)
    requires Paired(a, b) && !Starving(a, b) && !Starving(b, a)
    ensures Calming(Wires(a, b), 9)
  {
    hide Paired, Linked, Starves;
    PairedLinked(a, b);
    FedCalms(Wires(a, b));
  }

  method SendAll(a: ReliableChannel, b: ReliableChannel, payloads: seq<Bytes>)
    requires Paired(a, b) && a.log == []
    modifies a, a.link
    ensures Paired(a, b) && a.log == payloads && b.End() == old(b.End())
  {
    hide Act, Direction;
    for i := 0 to |payloads|
      invariant Paired(a, b) && a.log == payloads[..i] && b.End() == old(b.End())
    {
      ghost var ea := a.End();
      SenderActs(ea, b.End(), SendEvent(payloads[i]));
      ReceiverActs(b.End(), ea, SendEvent(payloads[i]));
      SentLog(ea, payloads[i]);
      var number := a.Send(payloads[i]);
      assert payloads[..i + 1] == payloads[..i] + [payloads[i]];
    }
    assert payloads[..|payloads|] == payloads;
  }

  /** Two channels over a fresh wire. */
  method Connect(lossless: bool) returns (a: ReliableChannel, b: ReliableChannel)
    ensures fresh(a) && fresh(b) && fresh(a.link) && fresh(b.link)
    ensures Paired(a, b) && a.log == [] && b.End() == Endpoint(FRESH, [], [], {})
    ensures a.link.lossless == b.link.lossless == lossless
  {
    hide Direction;
    var ab := new Link(lossless);
    var ba := new Link(lossless);
    a := new ReliableChannel(ab);
    b := new ReliableChannel(ba);
    FreshlyPaired();
  }

  /** A receiver that has heard nothing yet starves nobody. */
  lemma FreshNotStarving(x: Endpoint, y: Endpoint, replies: seq<Bytes>)
    requires Direction(x, y) && y.chan == FRESH
    ensures !Starves(x, y, replies) && !Starves(y, x, replies)
  {
    forall held | held in x.chan.unacked
      ensures |x.log| >= 1
    {
      assert Numbers(x.log, held, x.chan.unacked[held]);
    }
  }

  /** A whole transfer over a fresh wire, as the scenarios run it: whatever the wire did, what came out is a
      prefix of what went in, and all of it when the pump stopped before its limit; over a wire that loses
      nothing it always does, within nine rounds. */
  method Transfer(payloads: seq<Bytes>, lossless: bool, reordering: bool, maxRounds: nat)
    returns (rounds: nat, out: seq<Bytes>)
    ensures out <= payloads
    ensures rounds <= maxRounds && (rounds < maxRounds ==> out == payloads)
    ensures lossless ==> rounds <= 9 && (maxRounds > 9 ==> out == payloads)
  {
    hide Act, Direction, Starves;
    var a, b := Connect(lossless);
    SendAll(a, b, payloads);
    FreshNotStarving(a.End(), b.End(), a.link.inbox);
    FreshNotStarving(a.End(), b.End(), b.link.inbox);
    rounds := PumpUntilStable(a, b, reordering, maxRounds);
    DeliveredPrefix(a.End(), b.End());
    out := b.PopDelivered();
    assert [] + out == out;
  }
}
