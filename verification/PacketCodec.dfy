/** The wire verbs of the reliable stream, `REL:<seq>:<payload>`, `NAK:<seq,...>` and `ACK:<seq>`,
    as byte strings (one char per byte), and the parser that reads them back. */
module PacketCodec {
  import opened Prelude
  import opened PyText

  type Bytes = string

  datatype Packet =
    | Rel(number: int, payload: Bytes)
    | Nak(missing: seq<int>)
    | Ack(upTo: int)

  const REL_PREFIX: Bytes := "REL:"
  const NAK_PREFIX: Bytes := "NAK:"
  const ACK_PREFIX: Bytes := "ACK:"

  function ShowList(xs: seq<int>): Bytes {
    if xs == [] then ""
    else if |xs| == 1 then ShowInt(xs[0])
    else ShowInt(xs[0]) + "," + ShowList(xs[1..])
  }

  function Encode(p: Packet): Bytes {
    match p
    case Rel(number, payload) => REL_PREFIX + (ShowInt(number) + ":" + payload)
    case Nak(missing) => NAK_PREFIX + ShowList(missing)
    case Ack(upTo) => ACK_PREFIX + ShowInt(upTo)
  }

  /** The bytes `decode("ascii")` accepts. */
  predicate Ascii(s: Bytes) {
    forall i | 0 <= i < |s| :: s[i] as int < 128
  }

  /** The number in a field, None where decoding or int() raises. */
  function ReadField(s: Bytes): Option<int> {
    if Ascii(s) then ReadInt(s) else None
  }

  /** The comma-separated fields of a text, empty ones skipped; None when one is not a number. */
  function ReadList(s: Bytes): Option<seq<int>>
    decreases |s|
  {
    var i := Find(s, ',');
    var tail := if i < |s| then ReadList(s[i + 1..]) else Some([]);
    if i == 0 then tail
    else
      match ReadInt(s[..i])
      case None => None
      case Some(n) => if tail.None? then None else Some([n] + tail.value)
  }

  /** How `ingest` reads a datagram; None for the ones it ignores. */
  function Parse(packet: Bytes): Option<Packet> {
    if REL_PREFIX <= packet then
      var rest := packet[4..];
      var sep := Find(rest, ':');
      if sep == |rest| then None
      else
        match ReadField(rest[..sep])
        case None => None
        case Some(number) => Some(Rel(number, rest[sep + 1..]))
    else if NAK_PREFIX <= packet then
      match if Ascii(packet[4..]) then ReadList(packet[4..]) else None
      case None => None
      case Some(missing) => Some(Nak(missing))
    else if ACK_PREFIX <= packet then
      match ReadField(packet[4..])
      case None => None
      case Some(upTo) => Some(Ack(upTo))
    else None
  }

  lemma ShownAscii(n: int)
    ensures Ascii(ShowInt(n))
  {
    assert forall c | IsDigit(c) :: c as int < 128;
  }

  lemma {:induction false} ShownListAscii(xs: seq<int>)
    ensures Ascii(ShowList(xs))
  {
    if xs == [] {
    } else {
      hide ShowInt;
      ShownAscii(xs[0]);
      ShownListAscii(xs[1..]);
    }
  }

  lemma ShownHasNo(n: int, c: char)
    requires !IsDigit(c) && c != '-'
    ensures c !in ShowInt(n)
  {
  }

  lemma {:induction false} ReadShownList(xs: seq<int>)
    ensures ReadList(ShowList(xs)) == Some(xs)
  {
    if xs == [] {
    } else {
      hide ShowInt, ReadInt, Find;
      var shown := ShowInt(xs[0]);
      ShownHasNo(xs[0], ',');
      ReadShownInt(xs[0]);
      if |xs| == 1 {
        assert Find(shown, ',') == |shown|;
        assert shown[..|shown|] == shown && [xs[0]] + [] == xs;
      } else {
        var rest := ShowList(xs[1..]);
        FindAfter(shown, ',', rest);
        ReadShownList(xs[1..]);
        assert (shown + "," + rest)[..|shown|] == shown;
        assert (shown + "," + rest)[|shown| + 1..] == rest;
        HeadTail(xs);
      }
    }
  }

  /** Every packet a channel emits reads back as itself. */
  lemma ParseEncoded(p: Packet)
    ensures Parse(Encode(p)) == Some(p)
  {
    hide ShowInt, ReadInt, Find, ReadList, ShowList, Ascii;
    match p
    case Rel(number, payload) =>
      var shown := ShowInt(number);
      var rest := shown + ":" + payload;
      assert Encode(p)[4..] == rest;
      ShownHasNo(number, ':');
      FindAfter(shown, ':', payload);
      ReadShownInt(number);
      ShownAscii(number);
      assert rest[..|shown|] == shown && rest[|shown| + 1..] == payload;
    case Nak(missing) =>
      assert Encode(p)[4..] == ShowList(missing);
      assert Encode(p)[0] == 'N';
      ReadShownList(missing);
      ShownListAscii(missing);
    case Ack(upTo) =>
      assert Encode(p)[4..] == ShowInt(upTo);
      assert Encode(p)[0] == 'A';
      ReadShownInt(upTo);
      ShownAscii(upTo);
  }

  // ---- the wire format ----

  /** Three datagrams, byte by byte. */
  lemma WireFormat()
    ensures Encode(Rel(3, "ab:c")) == "REL:3:ab:c"
    ensures Encode(Nak([1, 12])) == "NAK:1,12"
    ensures Encode(Ack(10)) == "ACK:10"
  {
    assert ShowNat(12) == ShowNat(1) + "2" && ShowNat(1) == "1" && ShowNat(3) == "3";
    assert ShowNat(10) == ShowNat(1) + "0";
    assert [1, 12][1..] == [12];
  }

  /** The four bytes of a verb, and what follows them. */
  ghost predicate Follows(d: Bytes, verb: Bytes, rest: Bytes) {
    d == verb + rest
  }

  ghost predicate DataField(rest: Bytes, field: Bytes, payload: Bytes) {
    rest == field + ":" + payload && ':' !in field
  }

  /** Exactly the datagrams read as data: the verb, a number up to the first colon, and any payload. */
  lemma ParseRelIff(d: Bytes, number: int, payload: Bytes)
    ensures Parse(d) == Some(Rel(number, payload)) <==>
            exists rest, field ::
              Follows(d, "REL:", rest) && DataField(rest, field, payload) && ReadField(field) == Some(number)
  {
    hide ReadField, DataField, Find, ReadList;
    if Parse(d) == Some(Rel(number, payload)) {
      var rest := d[4..];
      assert d == "REL:" + rest;
      SplitAtColon(rest);
      assert Follows(d, "REL:", rest) && DataField(rest, rest[..Find(rest, ':')], payload);
    }
    if rest, field :| Follows(d, "REL:", rest) && DataField(rest, field, payload) && ReadField(field) == Some(number) {
      assert d[4..] == rest;
      ColonSplits(rest, field, payload);
    }
  }

  lemma SplitAtColon(rest: Bytes)
    ensures var sep := Find(rest, ':'); sep < |rest| ==> DataField(rest, rest[..sep], rest[sep + 1..])
  {
    hide Find;
    var sep := Find(rest, ':');
    if sep < |rest| {
      SplitAt(rest, sep);
      HeadTail(rest[sep..]);
      assert rest[sep..][1..] == rest[sep + 1..];
      ConcatAssociative(rest[..sep], ":", rest[sep + 1..]);
    }
  }

  lemma ColonSplits(rest: Bytes, field: Bytes, payload: Bytes)
    requires DataField(rest, field, payload)
    ensures var sep := Find(rest, ':'); sep < |rest| && rest[..sep] == field && rest[sep + 1..] == payload
  {
    FindAfter(field, ':', payload);
  }

  /** Exactly the datagrams read as an acknowledgement, and as a request. */
  lemma ParseControlIff(d: Bytes)
    ensures forall upTo :: Parse(d) == Some(Ack(upTo)) <==>
              exists rest :: Follows(d, "ACK:", rest) && ReadField(rest) == Some(upTo)
    ensures forall missing :: Parse(d) == Some(Nak(missing)) <==>
              exists rest :: Follows(d, "NAK:", rest) && Ascii(rest) && ReadList(rest) == Some(missing)
  {
    hide ReadField, ReadList, Ascii;
    if |d| >= 4 {
      assert d == d[..4] + d[4..];
      assert Follows(d, d[..4], d[4..]);
      assert "REL:" <= d <==> d[..4] == "REL:";
      assert "NAK:" <= d <==> d[..4] == "NAK:";
      assert "ACK:" <= d <==> d[..4] == "ACK:";
      assert "REL:" != "NAK:" && "REL:" != "ACK:" && "NAK:" != "ACK:";
      forall verb, rest | |verb| == 4 && Follows(d, verb, rest)
        ensures verb == d[..4] && rest == d[4..]
      {
      }
    }
  }

  /** A request's list, field by field: empty fields are skipped, any other must be a number. */
  lemma ReadListMeans(field: Bytes, rest: Bytes)
    requires ',' !in field
    ensures ReadList("") == Some([])
    ensures field != "" ==> ReadList(field) == match ReadInt(field) case None => None case Some(n) => Some([n])
    ensures ReadList(field + "," + rest) ==
            if field == "" then ReadList(rest)
            else if ReadInt(field).None? || ReadList(rest).None? then None
            else Some([ReadInt(field).value] + ReadList(rest).value)
  {
    hide ReadList;
    ReadNoField();
    ReadOneField(field);
    ReadFirstField(field, rest);
  }

  lemma ReadOneField(field: Bytes)
    requires ',' !in field
    ensures field != "" ==> ReadList(field) == match ReadInt(field) case None => None case Some(n) => Some([n])
  {
    hide ReadInt, Find;
    OnlyField(field);
    if ReadInt(field).Some? {
      assert [ReadInt(field).value] + [] == [ReadInt(field).value];
    }
  }

  lemma ReadFirstField(field: Bytes, rest: Bytes)
    requires ',' !in field
    ensures ReadList(field + "," + rest) ==
            if field == "" then ReadList(rest)
            else if ReadInt(field).None? || ReadList(rest).None? then None
            else Some([ReadInt(field).value] + ReadList(rest).value)
  {
    hide ReadInt, Find;
    FirstField(field, rest);
  }

  lemma ReadNoField()
    ensures ReadList("") == Some([])
  {
  }

  lemma FirstField(field: Bytes, rest: Bytes)
    requires ',' !in field
    ensures var whole := field + "," + rest;
            Find(whole, ',') == |field| < |whole| && whole[..|field|] == field && whole[|field| + 1..] == rest
  {
    FindAfter(field, ',', rest);
  }

  lemma OnlyField(field: Bytes)
    requires ',' !in field
    ensures Find(field, ',') == |field| && field[..|field|] == field
  {
  }
}
