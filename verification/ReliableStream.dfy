/** The reliable stream as a state machine: what one channel does with each call, the runs of two
    channels over a wire that may lose, repeat, delay and reorder, and what every run keeps. */
module ReliableStream {
  import opened Prelude
  import opened PacketCodec

  datatype Channel = Channel(
    nextSend: nat,
    unacked: map<int, Bytes>,
    expected: nat,
    buffered: map<int, Bytes>,
    delivered: seq<Bytes>,
    pendingNak: set<int>)

  const FRESH := Channel(1, map[], 1, map[], [], {})

  // ---- one channel ----

  function Send(c: Channel, payload: Bytes): (Channel, Packet) {
    (c.(nextSend := c.nextSend + 1, unacked := c.unacked[c.nextSend := payload]), Rel(c.nextSend, payload))
  }

  /** Deliver one payload and advance. */
  function Deliver(c: Channel, payload: Bytes): Channel {
    c.(delivered := c.delivered + [payload], pendingNak := c.pendingNak - {c.expected}, expected := c.expected + 1)
  }

  /** Deliver the buffered payloads that have become contiguous. */
  function Drain(c: Channel): Channel
    decreases |c.buffered|
  {
    if c.expected in c.buffered then
      assert c.buffered.Keys - {c.expected} < c.buffered.Keys;
      Drain(Deliver(c.(buffered := c.buffered - {c.expected}), c.buffered[c.expected]))
    else c
  }

  /** Python's range(from, to) as a list. */
  function Range(from: int, to: int): (r: seq<int>)
    requires from <= to
    ensures |r| == to - from && forall i | 0 <= i < |r| :: r[i] == from + i
  {
    seq(to - from, i => from + i)
  }

  function IngestRel(c: Channel, number: int, payload: Bytes): (Channel, seq<Packet>) {
    if number < c.expected then (c.(pendingNak := c.pendingNak - {number}), [])
    else if number == c.expected then
      var after := Drain(Deliver(c, payload));
      (after, [Ack(after.expected - 1)])
    else
      var missing := Range(c.expected, number);
      (c.(buffered := c.buffered[number := payload], pendingNak := c.pendingNak + set s | s in missing), [Nak(missing)])
  }

  /** The retransmissions a NAK asks for, as far as they are still held. */
  function Retransmit(unacked: map<int, Bytes>, numbers: seq<int>): seq<Packet> {
    if numbers == [] then []
    else
      (if numbers[0] in unacked then [Rel(numbers[0], unacked[numbers[0]])] else [])
      + Retransmit(unacked, numbers[1..])
  }

  /** A request is answered number by number, in the order asked: a held payload is sent, any other skipped. */
  lemma {:induction false} RetransmitInOrder(unacked: map<int, Bytes>, a: seq<int>, b: seq<int>)
    ensures Retransmit(unacked, a + b) == Retransmit(unacked, a) + Retransmit(unacked, b)
    decreases |a|
  {
    if a == [] {
      assert a + b == b;
    } else {
      RetransmitInOrder(unacked, a[1..], b);
      assert (a + b)[1..] == a[1..] + b && (a + b)[0] == a[0];
      ConcatAssociative(if a[0] in unacked then [Rel(a[0], unacked[a[0]])] else [],
                        Retransmit(unacked, a[1..]), Retransmit(unacked, b));
    }
  }

  lemma RetransmitOne(unacked: map<int, Bytes>, number: int)
    ensures Retransmit(unacked, [number]) == if number in unacked then [Rel(number, unacked[number])] else []
  {
    assert [number][1..] == [];
  }

  function IngestAck(c: Channel, upTo: int): Channel {
    c.(unacked := map s | s in c.unacked && s > upTo :: c.unacked[s])
  }

  /** `ack`: forget one payload. */
  function Acknowledge(c: Channel, number: int): Channel {
    c.(unacked := c.unacked - {number})
  }

  function IngestPacket(c: Channel, p: Packet): (Channel, seq<Packet>) {
    match p
    case Rel(number, payload) => IngestRel(c, number, payload)
    case Nak(missing) => (c, Retransmit(c.unacked, missing))
    case Ack(upTo) => (IngestAck(c, upTo), [])
  }

  function Ingest(c: Channel, packet: Bytes): (Channel, seq<Packet>) {
    match Parse(packet)
    case None => (c, [])
    case Some(p) => IngestPacket(c, p)
  }

  /** Everything a tick retransmits. The dictionary of unacknowledged payloads is filled in ascending
      order and never refilled, so its order is the numeric one. */
  function Tick(c: Channel): seq<Packet> {
    Retransmit(c.unacked, Range(Min(1, c.nextSend), c.nextSend))
  }

  // ---- runs ----

  /** A channel with its past: every payload sent, every payload handed to the application, and
      every datagram ever put on the wire. */
  datatype Endpoint = Endpoint(chan: Channel, log: seq<Bytes>, popped: seq<Bytes>, wire: set<Bytes>) {
    function History(): seq<Bytes> {
      popped + chan.delivered
    }
  }

  datatype Event = SendEvent(payload: Bytes) | ReceiveEvent(packet: Bytes) | TickEvent | PopEvent

  function Encoded(out: seq<Packet>): set<Bytes> {
    set p | p in out :: Encode(p)
  }

  function Act(me: Endpoint, e: Event): Endpoint {
    match e
    case SendEvent(payload) =>
      var (chan, p) := Send(me.chan, payload);
      me.(chan := chan, log := me.log + [payload], wire := me.wire + Encoded([p]))
    case ReceiveEvent(packet) =>
      var (chan, out) := Ingest(me.chan, packet);
      me.(chan := chan, wire := me.wire + Encoded(out))
    case TickEvent => me.(wire := me.wire + Encoded(Tick(me.chan)))
    case PopEvent => me.(popped := me.History(), chan := me.chan.(delivered := []))
  }

  /** What can arrive: anything the peer ever emitted, any number of times and in any order, or
      datagrams that do not parse. Loss is an arrival that never happens. */
  ghost predicate CanHappen(peer: Endpoint, e: Event) {
    e.ReceiveEvent? ==> e.packet in peer.wire || Parse(e.packet).None?
  }

  datatype World = World(a: Endpoint, b: Endpoint)

  datatype Step = ByA(e: Event) | ByB(e: Event)

  ghost predicate Enabled(w: World, s: Step) {
    match s
    case ByA(e) => CanHappen(w.b, e)
    case ByB(e) => CanHappen(w.a, e)
  }

  function Next(w: World, s: Step): World {
    match s
    case ByA(e) => w.(a := Act(w.a, e))
    case ByB(e) => w.(b := Act(w.b, e))
  }

  const START := World(Endpoint(FRESH, [], [], {}), Endpoint(FRESH, [], [], {}))

  ghost predicate IsRun(w: World, steps: seq<Step>)
    decreases |steps|
  {
    steps == [] || (Enabled(w, steps[0]) && IsRun(Next(w, steps[0]), steps[1..]))
  }

  function After(w: World, steps: seq<Step>): World
    decreases |steps|
  {
    if steps == [] then w else After(Next(w, steps[0]), steps[1..])
  }

  // ---- the invariant of one direction, x sending to y ----

  /** `s` numbers the payload `p` of the log; numbering starts at one. */
  ghost predicate Numbers(log: seq<Bytes>, s: int, p: Bytes) {
    1 <= s <= |log| && p == log[s - 1]
  }

  ghost predicate HeldFrom(log: seq<Bytes>, held: map<int, Bytes>) {
    forall s | s in held :: Numbers(log, s, held[s])
  }

  ghost predicate EmitsLog(log: seq<Bytes>, wire: set<Bytes>) {
    forall d, s, p | d in wire && Parse(d) == Some(Rel(s, p)) :: Numbers(log, s, p)
  }

  ghost predicate SenderOk(x: Endpoint) {
    x.chan.nextSend == |x.log| + 1 && HeldFrom(x.log, x.chan.unacked) && EmitsLog(x.log, x.wire)
  }

  /** The receiving half: what it handed on is a prefix of the log, what it holds back is the log's
      and lies beyond `gap`, and what it asked for lies between. */
  ghost predicate Receives(log: seq<Bytes>, popped: seq<Bytes>, c: Channel, gap: int) {
    && c.expected == |popped + c.delivered| + 1
    && popped + c.delivered <= log
    && HeldFrom(log, c.buffered)
    && (forall s | s in c.buffered :: s > gap)
    && (forall s | s in c.pendingNak :: c.expected <= s < |log|)
  }

  /** Whatever is missing before something held back has been asked for. */
  ghost predicate Asks(c: Channel) {
    forall s, b | b in c.buffered && c.expected <= s < b && s !in c.buffered :: s in c.pendingNak
  }

  /** Every acknowledgement ever emitted is covered by what was delivered, and the newest is there. */
  ghost predicate AcksDelivered(y: Endpoint) {
    && (forall d, n | d in y.wire && Parse(d) == Some(Ack(n)) :: n < y.chan.expected)
    && (y.chan.expected > 1 ==> Encode(Ack(y.chan.expected - 1)) in y.wire)
  }

  ghost predicate ReceiverOk(log: seq<Bytes>, y: Endpoint) {
    Receives(log, y.popped, y.chan, y.chan.expected) && Asks(y.chan) && AcksDelivered(y)
  }

  /** What the receiver still misses is still held for retransmission. */
  ghost predicate NothingLost(x: Endpoint, y: Endpoint) {
    forall s | y.chan.expected <= s <= |x.log| :: s in x.chan.unacked
  }

  ghost predicate Direction(x: Endpoint, y: Endpoint) {
    SenderOk(x) && ReceiverOk(x.log, y) && NothingLost(x, y)
  }

  ghost predicate Invariant(w: World) {
    Direction(w.a, w.b) && Direction(w.b, w.a)
  }

  // ---- preservation: emitting ----

  lemma {:induction false} RetransmitFromHeld(unacked: map<int, Bytes>, numbers: seq<int>, p: Packet)
    requires p in Retransmit(unacked, numbers)
    ensures p.Rel? && p.number in numbers && p.number in unacked && p.payload == unacked[p.number]
  {
    if numbers == [] {
    } else {
      var head := if numbers[0] in unacked then [Rel(numbers[0], unacked[numbers[0]])] else [];
      if p !in head {
        RetransmitFromHeld(unacked, numbers[1..], p);
        assert p.number in numbers[1..];
      }
    }
  }

  lemma {:induction false} RetransmitHolds(unacked: map<int, Bytes>, numbers: seq<int>, s: int)
    requires s in numbers && s in unacked
    ensures Rel(s, unacked[s]) in Retransmit(unacked, numbers)
  {
    if s == numbers[0] {
    } else {
      RetransmitHolds(unacked, numbers[1..], s);
    }
  }

  /** What a packet list puts on the wire reads back as that list's packets. */
  lemma EncodedReadsBack(out: seq<Packet>, d: Bytes)
    requires d in Encoded(out)
    ensures Parse(d).Some? && Parse(d).value in out
  {
    hide Parse, Encode;
    var p :| p in out && d == Encode(p);
    ParseEncoded(p);
  }

  lemma EmitsMore(log: seq<Bytes>, wire: set<Bytes>, out: seq<Packet>)
    requires EmitsLog(log, wire)
    requires forall p | p in out && p.Rel? :: Numbers(log, p.number, p.payload)
    ensures EmitsLog(log, wire + Encoded(out))
  {
    hide Parse, Encode;
    forall d, s, p | d in wire + Encoded(out) && Parse(d) == Some(Rel(s, p))
      ensures Numbers(log, s, p)
    {
      if d !in wire {
        EncodedReadsBack(out, d);
      }
    }
  }

  /** No reply to data carries data, and a reply to a request carries only held payloads. */
  lemma RepliesAreHeld(c: Channel, packet: Bytes, log: seq<Bytes>, p: Packet)
    requires HeldFrom(log, c.unacked) && p in Ingest(c, packet).1 && p.Rel?
    ensures Numbers(log, p.number, p.payload)
  {
    hide Parse, Drain;
    if Parse(packet).Some? && Parse(packet).value.Nak? {
      RetransmitFromHeld(c.unacked, Parse(packet).value.missing, p);
    }
  }

  lemma TickIsHeld(c: Channel, log: seq<Bytes>, p: Packet)
    requires HeldFrom(log, c.unacked) && p in Tick(c)
    ensures p.Rel? && Numbers(log, p.number, p.payload)
  {
    RetransmitFromHeld(c.unacked, Range(Min(1, c.nextSend), c.nextSend), p);
  }

  // ---- preservation: the sending half ----

  lemma {:induction false} DrainKeeps(c: Channel)
    ensures Drain(c).nextSend == c.nextSend && Drain(c).unacked == c.unacked && Drain(c).expected >= c.expected
    decreases |c.buffered|
  {
    if c.expected !in c.buffered {
    } else {
      assert c.buffered.Keys - {c.expected} < c.buffered.Keys;
      DrainKeeps(Deliver(c.(buffered := c.buffered - {c.expected}), c.buffered[c.expected]));
    }
  }

  lemma SenderKept(x: Endpoint, e: Event)
    requires SenderOk(x)
    ensures SenderOk(Act(x, e))
  {
    hide Parse, Encode, Drain, EmitsLog;
    match e
    case SendEvent(payload) =>
      SendKept(x, payload);
    case ReceiveEvent(packet) =>
      var (chan, out) := Ingest(x.chan, packet);
      if Parse(packet).Some? && Parse(packet).value.Rel? {
        DrainKeeps(Deliver(x.chan, Parse(packet).value.payload));
      }
      forall p | p in out && p.Rel?
        ensures Numbers(x.log, p.number, p.payload)
      {
        RepliesAreHeld(x.chan, packet, x.log, p);
      }
      EmitsMore(x.log, x.wire, out);
    case TickEvent =>
      forall p | p in Tick(x.chan)
        ensures p.Rel? && Numbers(x.log, p.number, p.payload)
      {
        TickIsHeld(x.chan, x.log, p);
      }
      EmitsMore(x.log, x.wire, Tick(x.chan));
    case PopEvent =>
  }

  lemma SendKept(x: Endpoint, payload: Bytes)
    requires SenderOk(x)
    ensures SenderOk(Act(x, SendEvent(payload)))
  {
    hide Parse, Encode;
    var log := x.log + [payload];
    assert EmitsLog(log, x.wire) by {
      forall d, s, p | d in x.wire && Parse(d) == Some(Rel(s, p))
        ensures Numbers(log, s, p)
      {
        assert Numbers(x.log, s, p);
      }
    }
    EmitsMore(log, x.wire, [Send(x.chan, payload).1]);
    forall s | s in Send(x.chan, payload).0.unacked
      ensures Numbers(log, s, Send(x.chan, payload).0.unacked[s])
    {
      assert s in x.chan.unacked ==> Numbers(x.log, s, x.chan.unacked[s]);
    }
  }

  /** Whatever the sender does, the receiver's half stays right and nothing it misses is forgotten:
      an acknowledgement removes only what was delivered. */
  lemma SenderActs(x: Endpoint, y: Endpoint, e: Event)
    requires Direction(x, y) && CanHappen(y, e)
    ensures Direction(Act(x, e), y)
  {
    hide Parse, Encode, Drain, Retransmit, SenderOk;
    SenderKept(x, e);
    assert SenderOk(Act(x, e));
    var x' := Act(x, e);
    assert ReceiverOk(x'.log, y) by {
      forall s | s in y.chan.buffered
        ensures Numbers(x'.log, s, y.chan.buffered[s])
      {
        assert Numbers(x.log, s, y.chan.buffered[s]);
      }
    }
    forall s | y.chan.expected <= s <= |x'.log|
      ensures s in x'.chan.unacked
    {
      SenderHolds(x, y, e, s);
    }
  }

  lemma SenderHolds(x: Endpoint, y: Endpoint, e: Event, s: int)
    requires Direction(x, y) && CanHappen(y, e)
    requires y.chan.expected <= s <= |Act(x, e).log|
    ensures s in Act(x, e).chan.unacked
  {
    hide Parse, Encode, Drain, Retransmit, Receives;
    if e.ReceiveEvent? && Parse(e.packet).Some? {
      match Parse(e.packet).value
      case Rel(number, payload) => DrainKeeps(Deliver(x.chan, payload));
      case Nak(_) =>
      case Ack(n) => assert n < y.chan.expected;
    }
  }

  // ---- preservation: the receiving half ----

  lemma DeliverOne(log: seq<Bytes>, popped: seq<Bytes>, c: Channel, payload: Bytes)
    requires Receives(log, popped, c, c.expected) && Numbers(log, c.expected, payload)
    ensures Receives(log, popped, Deliver(c, payload), c.expected)
  {
    assert popped + (c.delivered + [payload]) == (popped + c.delivered) + [payload];
  }

  lemma {:induction false} DrainReceives(log: seq<Bytes>, popped: seq<Bytes>, c: Channel)
    requires Receives(log, popped, c, c.expected - 1)
    ensures Receives(log, popped, Drain(c), Drain(c).expected)
    decreases |c.buffered|
  {
    if c.expected !in c.buffered {
    } else {
      assert c.buffered.Keys - {c.expected} < c.buffered.Keys;
      var payload := c.buffered[c.expected];
      assert Numbers(log, c.expected, payload);
      var rest := c.(buffered := c.buffered - {c.expected});
      DeliverOne(log, popped, rest, payload);
      DrainReceives(log, popped, Deliver(rest, payload));
    }
  }

  lemma RelReceived(log: seq<Bytes>, popped: seq<Bytes>, c: Channel, number: int, payload: Bytes)
    requires Receives(log, popped, c, c.expected) && Numbers(log, number, payload)
    ensures var after := IngestRel(c, number, payload).0; Receives(log, popped, after, after.expected)
  {
    if number == c.expected {
      DeliverOne(log, popped, c, payload);
      DrainReceives(log, popped, Deliver(c, payload));
    } else if number > c.expected {
      var after := IngestRel(c, number, payload).0;
      forall s | s in after.buffered
        ensures Numbers(log, s, after.buffered[s]) && s > after.expected
      {
        assert s != number ==> Numbers(log, s, c.buffered[s]);
      }
    }
  }

  lemma {:induction false} DrainAsks(c: Channel)
    requires Asks(c)
    ensures Asks(Drain(c))
    decreases |c.buffered|
  {
    if c.expected !in c.buffered {
    } else {
      assert c.buffered.Keys - {c.expected} < c.buffered.Keys;
      DrainAsks(Deliver(c.(buffered := c.buffered - {c.expected}), c.buffered[c.expected]));
    }
  }

  lemma RelAsks(c: Channel, number: int, payload: Bytes)
    requires Asks(c)
    ensures Asks(IngestRel(c, number, payload).0)
  {
    if number == c.expected {
      DrainAsks(Deliver(c, payload));
    } else if number > c.expected {
      var after := IngestRel(c, number, payload).0;
      forall s, b | b in after.buffered && after.expected <= s < b && s !in after.buffered
        ensures s in after.pendingNak
      {
        if s < number {
          assert Range(c.expected, number)[s - c.expected] == s;
        }
      }
    }
  }

  /** The acknowledgements in a reply to data: one when the receiver advances, none otherwise. */
  lemma AckOnAdvance(c: Channel, number: int, payload: Bytes)
    ensures var (after, out) := IngestRel(c, number, payload);
            && after.expected >= c.expected
            && (after.expected > c.expected ==> out == [Ack(after.expected - 1)])
            && (after.expected == c.expected ==> forall p | p in out :: p.Nak?)
  {
    DrainKeeps(Deliver(c, payload));
  }

  lemma AcksMore(y: Endpoint, y': Endpoint, out: seq<Packet>)
    requires AcksDelivered(y) && y'.wire == y.wire + Encoded(out) && y'.chan.expected >= y.chan.expected
    requires forall p | p in out && p.Ack? :: p.upTo < y'.chan.expected
    requires y'.chan.expected > y.chan.expected ==> Ack(y'.chan.expected - 1) in out
    ensures AcksDelivered(y')
  {
    hide Parse, Encode;
    forall d, n | d in y'.wire && Parse(d) == Some(Ack(n))
      ensures n < y'.chan.expected
    {
      if d !in y.wire {
        EncodedReadsBack(out, d);
      }
    }
  }

  lemma ReceiverActs(x: Endpoint, y: Endpoint, e: Event)
    requires Direction(x, y) && CanHappen(x, e)
    ensures Direction(x, Act(y, e))
  {
    hide Parse, Encode, Drain, Encoded, Retransmit, SenderOk;
    var y' := Act(y, e);
    match e
    case SendEvent(payload) =>
      AcksMore(y, y', [Send(y.chan, payload).1]);
    case TickEvent =>
      forall p | p in Tick(y.chan)
        ensures p.Rel?
      {
        RetransmitFromHeld(y.chan.unacked, Range(Min(1, y.chan.nextSend), y.chan.nextSend), p);
      }
      AcksMore(y, y', Tick(y.chan));
    case PopEvent =>
      assert y'.popped + y'.chan.delivered == y.popped + y.chan.delivered;
    case ReceiveEvent(packet) =>
      PacketReceived(x, y, packet);
  }

  lemma PacketReceived(x: Endpoint, y: Endpoint, packet: Bytes)
    requires Direction(x, y) && CanHappen(x, ReceiveEvent(packet))
    ensures Direction(x, Act(y, ReceiveEvent(packet)))
  {
    hide Parse, Encode, Drain, Encoded, Retransmit;
    var y' := Act(y, ReceiveEvent(packet));
    if Parse(packet).None? {
      AcksMore(y, y', []);
    } else {
      match Parse(packet).value
      case Rel(number, payload) =>
        assert Numbers(x.log, number, payload);
        RelReceived(x.log, y.popped, y.chan, number, payload);
        RelAsks(y.chan, number, payload);
        AckOnAdvance(y.chan, number, payload);
        AcksMore(y, y', IngestRel(y.chan, number, payload).1);
      case Nak(missing) =>
        var out := Retransmit(y.chan.unacked, missing);
        forall p | p in out
          ensures p.Rel?
        {
          RetransmitFromHeld(y.chan.unacked, missing, p);
        }
        AcksMore(y, y', out);
      case Ack(upTo) =>
        AcksMore(y, y', []);
    }
  }

  // ---- how much a tick retransmits ----

  lemma {:induction false} RetransmitRange(unacked: map<int, Bytes>, lo: int, hi: int)
    requires lo < hi
    ensures Retransmit(unacked, Range(lo, hi))
         == (if lo in unacked then [Rel(lo, unacked[lo])] else []) + Retransmit(unacked, Range(lo + 1, hi))
  {
    assert Range(lo, hi)[0] == lo && Range(lo, hi)[1..] == Range(lo + 1, hi);
  }

  lemma {:induction false} RetransmitCount(unacked: map<int, Bytes>, lo: int, hi: int)
    requires lo <= hi
    ensures |Retransmit(unacked, Range(lo, hi))| == |set s | s in unacked && lo <= s < hi|
    decreases hi - lo
  {
    var held := set s | s in unacked && lo <= s < hi;
    if lo == hi {
      assert held == {};
    } else {
      RetransmitCount(unacked, lo + 1, hi);
      RetransmitRange(unacked, lo, hi);
      hide Retransmit;
      var rest := set s | s in unacked && lo + 1 <= s < hi;
      assert held == rest + if lo in unacked then {lo} else {};
    }
  }

  /** Numbering starts at one, and a channel holds only payloads it has numbered. */
  ghost predicate HoldsNumbered(c: Channel) {
    1 <= c.nextSend && forall s | s in c.unacked :: 1 <= s < c.nextSend
  }

  /** A tick sends one packet for each payload held. */
  lemma TickCount(c: Channel)
    requires HoldsNumbered(c)
    ensures |Tick(c)| == |c.unacked|
  {
    hide Retransmit;
    RetransmitCount(c.unacked, Min(1, c.nextSend), c.nextSend);
    assert (set s | s in c.unacked && Min(1, c.nextSend) <= s < c.nextSend) == c.unacked.Keys;
  }

  // ---- every run ----

  lemma StepKeepsInvariant(w: World, s: Step)
    requires Invariant(w) && Enabled(w, s)
    ensures Invariant(Next(w, s))
  {
    hide Direction, CanHappen;
    match s
    case ByA(e) =>
      SenderActs(w.a, w.b, e);
      ReceiverActs(w.b, w.a, e);
    case ByB(e) =>
      SenderActs(w.b, w.a, e);
      ReceiverActs(w.a, w.b, e);
  }

  lemma {:induction false} RunKeepsInvariant(w: World, steps: seq<Step>)
    requires Invariant(w) && IsRun(w, steps)
    ensures Invariant(After(w, steps))
    decreases |steps|
  {
    if steps == [] {
    } else {
      hide Invariant, Enabled;
      StepKeepsInvariant(w, steps[0]);
      RunKeepsInvariant(Next(w, steps[0]), steps[1..]);
    }
  }

  /** Safety over every run: each side has handed on, in order and without repeats, a prefix of what
      the other side sent; whatever is still missing is held for retransmission; a side that has
      everything holds nothing back and asks for nothing; and when a side has nothing left
      unacknowledged, everything it sent has been delivered. */
  lemma InOrderExactlyOnce(steps: seq<Step>)
    requires IsRun(START, steps)
    ensures var w := After(START, steps);
            && w.b.History() <= w.a.log && w.a.History() <= w.b.log
            && (forall s | |w.b.History()| < s <= |w.a.log| ::
                  s in w.a.chan.unacked && w.a.chan.unacked[s] == w.a.log[s - 1])
            && (forall s | |w.a.History()| < s <= |w.b.log| ::
                  s in w.b.chan.unacked && w.b.chan.unacked[s] == w.b.log[s - 1])
            && (w.b.History() == w.a.log ==> w.b.chan.buffered == map[] && w.b.chan.pendingNak == {})
            && (w.a.chan.unacked == map[] ==> w.b.History() == w.a.log)
            && (w.b.chan.unacked == map[] ==> w.a.History() == w.b.log)
  {
    assert Invariant(START);
    RunKeepsInvariant(START, steps);
    var w := After(START, steps);
    Caught(w.a, w.b);
    Caught(w.b, w.a);
  }

  lemma Caught(x: Endpoint, y: Endpoint)
    requires Direction(x, y)
    ensures y.History() <= x.log && y.chan.expected == |y.History()| + 1
    ensures forall s | |y.History()| < s <= |x.log| :: s in x.chan.unacked && x.chan.unacked[s] == x.log[s - 1]
    ensures x.chan.unacked == map[] ==> y.History() == x.log
    ensures y.History() == x.log ==> y.chan.buffered == map[] && y.chan.pendingNak == {}
  {
    assert forall s | s in y.chan.buffered.Keys :: Numbers(x.log, s, y.chan.buffered[s]) && s > y.chan.expected;
    if y.History() == x.log {
      assert y.chan.expected == |x.log| + 1;
      assert forall s | s in y.chan.pendingNak :: y.chan.expected <= s < |x.log|;
      assert y.chan.buffered.Keys == {} && y.chan.pendingNak == {};
    }
    forall s | |y.History()| < s <= |x.log|
      ensures s in x.chan.unacked && x.chan.unacked[s] == x.log[s - 1]
    {
      assert Numbers(x.log, s, x.chan.unacked[s]);
    }
    if |y.History()| < |x.log| {
      assert |x.log| in x.chan.unacked;
    }
  }
}
