/** The chunk layer of section 3.2 of RFC 2083: serialised chunk lists, and the walk that reads them. */
module PngChunks {
  import opened Prelude
  import opened PngFilter

  const SIGNATURE: seq<Byte> := [0x89, 0x50, 0x4E, 0x47, 0x0D, 0x0A, 0x1A, 0x0A]
  const IHDR: seq<Byte> := [0x49, 0x48, 0x44, 0x52]
  const IDAT: seq<Byte> := [0x49, 0x44, 0x41, 0x54]
  const IEND: seq<Byte> := [0x49, 0x45, 0x4E, 0x44]

  const MAX_LENGTH := 0x1_0000_0000

  /** Four bytes, most significant first. */
  function BigEndian(n: nat): (s: seq<Byte>)
    requires n < MAX_LENGTH
    ensures |s| == 4
  {
    var q := n / 256;
    var p := q / 256;
    [p / 256, p % 256, q % 256, n % 256]
  }

  function ReadBigEndian(s: seq<Byte>): (n: nat)
    requires |s| == 4
    ensures n < MAX_LENGTH
  {
    var a: int, b: int, c: int, d: int := s[0], s[1], s[2], s[3];
    ((a * 256 + b) * 256 + c) * 256 + d
  }

  lemma BigEndianRoundTrip(n: nat)
    requires n < MAX_LENGTH
    ensures ReadBigEndian(BigEndian(n)) == n
  {
  }

  /** Reading is injective and puts the first byte highest. */
  lemma BigEndianReadBack(s: seq<Byte>)
    requires |s| == 4
    ensures BigEndian(ReadBigEndian(s)) == s
    ensures ReadBigEndian(s)
         == 0x100_0000 * (s[0] as int) + 0x1_0000 * (s[1] as int) + 0x100 * (s[2] as int) + (s[3] as int)
  {
    var n := ReadBigEndian(s);
    var a: int, b: int, c: int, d: int := s[0], s[1], s[2], s[3];
    assert n % 256 == d && n / 256 == (a * 256 + b) * 256 + c;
    assert n / 256 % 256 == c && n / 256 / 256 == a * 256 + b;
    assert n / 256 / 256 % 256 == b && n / 256 / 256 / 256 == a;
  }

  datatype Chunk = Chunk(kind: seq<Byte>, body: seq<Byte>, crc: seq<Byte>)

  ghost predicate WellFormed(c: Chunk) {
    |c.kind| == 4 && |c.crc| == 4 && |c.body| < MAX_LENGTH
  }

  ghost predicate AllWellFormed(cs: seq<Chunk>) {
    forall i | 0 <= i < |cs| :: WellFormed(cs[i])
  }

  function Serialise(c: Chunk): (s: seq<Byte>)
    requires WellFormed(c)
    ensures |s| == 12 + |c.body|
  {
    BigEndian(|c.body|) + c.kind + c.body + c.crc
  }

  function SerialiseAll(cs: seq<Chunk>): seq<Byte>
    requires AllWellFormed(cs)
  {
    if cs == [] then [] else Serialise(cs[0]) + SerialiseAll(cs[1..])
  }

  datatype Header = Header(width: nat, height: nat, colorType: nat)

  /** What the walk has gathered: the last image header, and all image data joined. */
  datatype Gathered = Gathered(header: Option<Header>, idat: seq<Byte>)

  const NOTHING := Gathered(None, [])

  /** The 13 bytes of an image header: width, height, bit depth, colour type, compression, filter, interlace. */
  function ParseHeader(body: seq<Byte>): Result<Header, PngError> {
    if |body| != 13 then Err(BadIhdr)
    else if body[8] != 8 || body[10] != 0 || body[11] != 0 || body[12] != 0 then Err(UnsupportedEncoding)
    else if body[9] != 2 && body[9] != 6 then Err(UnsupportedColorType)
    else Ok(Header(ReadBigEndian(body[0..4]), ReadBigEndian(body[4..8]), body[9]))
  }

  function HeaderBody(h: Header): (body: seq<Byte>)
    requires h.width < MAX_LENGTH && h.height < MAX_LENGTH && h.colorType in {2, 6}
    ensures |body| == 13
  {
    BigEndian(h.width) + BigEndian(h.height) + [8, h.colorType, 0, 0, 0]
  }

  lemma HeaderRoundTrip(h: Header)
    requires h.width < MAX_LENGTH && h.height < MAX_LENGTH && h.colorType in {2, 6}
    ensures ParseHeader(HeaderBody(h)) == Ok(h)
  {
    var body := HeaderBody(h);
    assert body[0..4] == BigEndian(h.width) && body[4..8] == BigEndian(h.height);
    BigEndianRoundTrip(h.width);
    BigEndianRoundTrip(h.height);
  }

  /** Exactly the headers that are accepted: width, height, bit depth 8, colour type 2 or 6, and zero for
      compression, filter method and interlacing, in that order. */
  lemma HeaderLayout(body: seq<Byte>, h: Header)
    ensures ParseHeader(body) == Ok(h) <==>
            && h.width < MAX_LENGTH && h.height < MAX_LENGTH && h.colorType in {2, 6}
            && body == BigEndian(h.width) + BigEndian(h.height) + [8, h.colorType as Byte, 0, 0, 0]
  {
    if h.width < MAX_LENGTH && h.height < MAX_LENGTH && h.colorType in {2, 6} && body == HeaderBody(h) {
      HeaderRoundTrip(h);
    }
    if ParseHeader(body) == Ok(h) {
      BigEndianReadBack(body[0..4]);
      BigEndianReadBack(body[4..8]);
      assert body == body[0..4] + body[4..8] + body[8..];
      assert body[8..] == [body[8], body[9], body[10], body[11], body[12]];
    }
  }

  /** The effect of one chunk other than the end marker. */
  function Absorb(kind: seq<Byte>, body: seq<Byte>, st: Gathered): Result<Gathered, PngError> {
    if kind == IHDR then
      match ParseHeader(body)
      case Err(e) => Err(e)
      case Ok(h) => Ok(st.(header := Some(h)))
    else if kind == IDAT then Ok(st.(idat := st.idat + body))
    else Ok(st)
  }

  /** The meaning of a chunk list: chunks take effect in order up to the first end marker. */
  function AbsorbAll(cs: seq<Chunk>, st: Gathered): Result<Gathered, PngError> {
    if cs == [] || cs[0].kind == IEND then Ok(st)
    else
      match Absorb(cs[0].kind, cs[0].body, st)
      case Err(e) => Err(e)
      case Ok(next) => AbsorbAll(cs[1..], next)
  }

  datatype RawChunk = RawChunk(kind: seq<Byte>, body: seq<Byte>, next: nat)

  /** The chunk whose header starts at `pos`, its body clamped to the data, and where the next one starts. */
  function ReadChunk(data: seq<Byte>, pos: nat): RawChunk
    requires pos + 8 <= |data|
  {
    var length := ReadBigEndian(data[pos..pos + 4]);
    RawChunk(data[pos + 4..pos + 8], Slice(data, pos + 8, pos + 8 + length), pos + 12 + length)
  }

  /** The meaning of the bytes from `pos` on. A last chunk may be cut short; a header may not. */
  function Walk(data: seq<Byte>, pos: nat, st: Gathered): Result<Gathered, PngError>
    decreases |data| - pos
  {
    if pos >= |data| then Ok(st)
    else if pos + 8 > |data| then Err(TruncatedHeader)
    else
      var c := ReadChunk(data, pos);
      if c.kind == IEND then Ok(st)
      else
        match Absorb(c.kind, c.body, st)
        case Err(e) => Err(e)
        case Ok(next) => Walk(data, c.next, next)
  }

  lemma WalkStep(data: seq<Byte>, pos: nat, st: Gathered)
    ensures pos >= |data| ==> Walk(data, pos, st) == Ok(st)
    ensures pos < |data| < pos + 8 ==> Walk(data, pos, st) == Err(TruncatedHeader)
    ensures pos + 8 <= |data| ==>
              var c := ReadChunk(data, pos);
              Walk(data, pos, st) ==
                if c.kind == IEND then Ok(st)
                else match Absorb(c.kind, c.body, st)
                     case Err(e) => Err(e)
                     case Ok(next) => Walk(data, c.next, next)
  {
    hide Absorb, ReadChunk;
  }

  /** The decoder's chunk loop. */
  method WalkChunks(data: seq<Byte>) returns (r: Result<Gathered, PngError>)
    requires |data| >= 8
    ensures r == Walk(data, 8, NOTHING)
  {
    hide ParseHeader, ReadBigEndian, Slice, Walk;
    var pos := 8;
    var header: Option<Header> := None;
    var idat: seq<Byte> := [];
    while pos < |data|
      invariant 8 <= pos
      invariant Walk(data, pos, Gathered(header, idat)) == Walk(data, 8, NOTHING)
      decreases |data| - pos
    {
      WalkStep(data, pos, Gathered(header, idat));
      if pos + 8 > |data| {
        return Err(TruncatedHeader);
      }
      var length := ReadBigEndian(data[pos..pos + 4]);
      var kind := data[pos + 4..pos + 8];
      var body := Slice(data, pos + 8, pos + 8 + length);
      assert RawChunk(kind, body, pos + 12 + length) == ReadChunk(data, pos);
      pos := pos + 12 + length;
      if kind == IHDR {
        var parsed := ParseHeader(body);
        if parsed.Err? {
          return Err(parsed.error);
        }
        header := Some(parsed.value);
      } else if kind == IDAT {
        idat := idat + body;
      } else if kind == IEND {
        return Ok(Gathered(header, idat));
      }
    }
    WalkStep(data, pos, Gathered(header, idat));
    return Ok(Gathered(header, idat));
  }

  /** Where a serialised chunk sits in the data, its length, kind and body are read back. */
  lemma ReadChunkBack(before: seq<Byte>, c: Chunk, after: seq<Byte>)
    requires WellFormed(c)
    ensures var data, pos := before + Serialise(c) + after, |before|;
            ReadChunk(data, pos) == RawChunk(c.kind, c.body, pos + |Serialise(c)|)
  {
    var data, pos := before + Serialise(c) + after, |before|;
    assert data[pos..pos + 4] == BigEndian(|c.body|);
    BigEndianRoundTrip(|c.body|);
    assert data[pos + 4..pos + 8] == c.kind;
    assert data[pos + 8..pos + 8 + |c.body|] == c.body;
  }

  lemma RegroupChunk<T>(before: seq<T>, c: seq<T>, rest: seq<T>, tail: seq<T>)
    ensures before + (c + rest) + tail == before + c + (rest + tail) == before + c + rest + tail
  {
  }

  /** The walk's step over one serialised chunk. */
  lemma WalkOneChunk(before: seq<Byte>, c: Chunk, after: seq<Byte>, st: Gathered)
    requires WellFormed(c)
    ensures var data := before + Serialise(c) + after;
            Walk(data, |before|, st) ==
            if c.kind == IEND then Ok(st)
            else match Absorb(c.kind, c.body, st)
                 case Err(e) => Err(e)
                 case Ok(next) => Walk(data, |before + Serialise(c)|, next)
  {
    hide Absorb, ReadChunk, Serialise;
    ReadChunkBack(before, c, after);
  }

  ghost predicate Ends(cs: seq<Chunk>) {
    exists i | 0 <= i < |cs| :: cs[i].kind == IEND
  }

  /** The walk inverts serialisation: on a serialised chunk list it computes the list's meaning. Bytes
      after the list change nothing once the list holds an end marker. */
  lemma {:induction false} WalkSerialised(before: seq<Byte>, cs: seq<Chunk>, tail: seq<Byte>, st: Gathered)
    requires AllWellFormed(cs) && (tail == [] || Ends(cs))
    ensures Walk(before + SerialiseAll(cs) + tail, |before|, st) == AbsorbAll(cs, st)
    decreases |cs|
  {
    if cs == [] {
      assert before + [] + tail == before;
    } else {
      var c, rest := cs[0], SerialiseAll(cs[1..]);
      RegroupChunk(before, Serialise(c), rest, tail);
      WalkOneChunk(before, c, rest + tail, st);
      if c.kind != IEND && Absorb(c.kind, c.body, st).Ok? {
        WalkSerialised(before + Serialise(c), cs[1..], tail, Absorb(c.kind, c.body, st).value);
      }
    }
  }

  /** The image data of a chunk list, joined. */
  function ImageData(cs: seq<Chunk>): seq<Byte> {
    if cs == [] then []
    else (if cs[0].kind == IDAT then cs[0].body else []) + ImageData(cs[1..])
  }

  /** Joining: chunk by chunk, in order. */
  lemma {:induction false} ImageDataJoins(a: seq<Chunk>, b: seq<Chunk>)
    ensures ImageData(a + b) == ImageData(a) + ImageData(b)
    decreases |a|
  {
    if a == [] {
      assert a + b == b;
    } else {
      var first := if a[0].kind == IDAT then a[0].body else [];
      ImageDataJoins(a[1..], b);
      assert (a + b)[1..] == a[1..] + b && (a + b)[0] == a[0];
      ConcatAssociative(first, ImageData(a[1..]), ImageData(b));
    }
  }

  lemma ImageDataOfOne(c: Chunk)
    ensures ImageData([c]) == if c.kind == IDAT then c.body else []
  {
    assert [c][1..] == [];
  }

  /** Chunk `i` is the last header chunk of the list. */
  ghost predicate LastHeader(cs: seq<Chunk>, i: int) {
    0 <= i < |cs| && cs[i].kind == IHDR && forall j | i < j < |cs| :: cs[j].kind != IHDR
  }

  /** What a list of chunks without an end marker amounts to: every header chunk must parse, the last one
      counts, and the image data is joined in order. */
  lemma {:induction false} AbsorbMeans(cs: seq<Chunk>, st: Gathered)
    requires forall i | 0 <= i < |cs| :: cs[i].kind != IEND
    ensures AbsorbAll(cs, st).Ok? <==> forall i | 0 <= i < |cs| && cs[i].kind == IHDR :: ParseHeader(cs[i].body).Ok?
    ensures AbsorbAll(cs, st).Ok? ==>
              var g := AbsorbAll(cs, st).value;
              && g.idat == st.idat + ImageData(cs)
              && (forall i | LastHeader(cs, i) :: g.header == Some(ParseHeader(cs[i].body).value))
              && ((forall i | 0 <= i < |cs| :: cs[i].kind != IHDR) ==> g.header == st.header)
    decreases |cs|
  {
    hide ParseHeader;
    if cs == [] {
      assert st.idat + [] == st.idat;
    } else {
      var c, rest := cs[0], cs[1..];
      assert IHDR[1] != IDAT[1];
      assert forall i | 0 <= i < |rest| :: rest[i] == cs[i + 1];
      if Absorb(c.kind, c.body, st).Ok? {
        var next := Absorb(c.kind, c.body, st).value;
        AbsorbMeans(rest, next);
        ConcatAssociative(st.idat, if c.kind == IDAT then c.body else [], ImageData(rest));
        assert c.kind != IDAT ==> st.idat + [] == st.idat;
        LastHeaderOfRest(cs);
      }
    }
  }

  lemma LastHeaderOfRest(cs: seq<Chunk>)
    requires cs != []
    ensures forall i | LastHeader(cs, i) :: (i == 0 && forall j | 0 <= j < |cs[1..]| :: cs[1..][j].kind != IHDR)
                                            || LastHeader(cs[1..], i - 1)
  {
    forall i | LastHeader(cs, i)
      ensures (i == 0 && forall j | 0 <= j < |cs[1..]| :: cs[1..][j].kind != IHDR) || LastHeader(cs[1..], i - 1)
    {
      assert forall j | 0 <= j < |cs[1..]| :: cs[1..][j] == cs[j + 1];
    }
  }

  /** An end marker ends the list. */
  lemma {:induction false} AbsorbToEnd(cs: seq<Chunk>, end: Chunk, st: Gathered)
    requires end.kind == IEND
    ensures AbsorbAll(cs + [end], st) == AbsorbAll(cs, st)
    decreases |cs|
  {
    hide Absorb;
    if cs == [] {
      assert cs + [end] == [end];
    } else {
      assert (cs + [end])[1..] == cs[1..] + [end];
      if cs[0].kind != IEND && Absorb(cs[0].kind, cs[0].body, st).Ok? {
        AbsorbToEnd(cs[1..], end, Absorb(cs[0].kind, cs[0].body, st).value);
      }
    }
  }

  lemma {:induction false} FindLastHeader(cs: seq<Chunk>) returns (i: nat)
    requires exists j | 0 <= j < |cs| :: cs[j].kind == IHDR
    ensures LastHeader(cs, i)
  {
    var n := |cs| - 1;
    if cs[n].kind == IHDR {
      i := n;
    } else {
      i := FindLastHeader(cs[..n]);
    }
  }

  /** The walk over whole chunks, whatever follows them. */
  lemma {:induction false} WalkPast(before: seq<Byte>, cs: seq<Chunk>, tail: seq<Byte>, st: Gathered)
    requires AllWellFormed(cs) && !Ends(cs) && AbsorbAll(cs, st).Ok?
    ensures var data := before + SerialiseAll(cs) + tail;
            Walk(data, |before|, st) == Walk(data, |before + SerialiseAll(cs)|, AbsorbAll(cs, st).value)
    decreases |cs|
  {
    hide Walk;
    if cs == [] {
      assert before + [] == before;
    } else {
      var c, rest := cs[0], SerialiseAll(cs[1..]);
      assert c.kind != IEND;
      RegroupChunk(before, Serialise(c), rest, tail);
      WalkOneChunk(before, c, rest + tail, st);
      assert !Ends(cs[1..]) by {
        assert forall i | 0 <= i < |cs[1..]| :: cs[1..][i] == cs[i + 1];
      }
      WalkPast(before + Serialise(c), cs[1..], tail, Absorb(c.kind, c.body, st).value);
      ConcatAssociative(before, Serialise(c), rest);
    }
  }

  /** A file cut short inside a chunk: within the eight bytes of length and kind that is an error; later the
      chunk counts with the part of its body that is there. */
  lemma WalkCutShort(before: seq<Byte>, cs: seq<Chunk>, c: Chunk, n: nat, st: Gathered)
    requires AllWellFormed(cs) && !Ends(cs) && AbsorbAll(cs, st).Ok?
    requires WellFormed(c) && 0 < n < |Serialise(c)|
    ensures var g := AbsorbAll(cs, st).value;
            Walk(before + SerialiseAll(cs) + Serialise(c)[..n], |before|, st) ==
              if n < 8 then Err(TruncatedHeader)
              else if c.kind == IEND then Ok(g)
              else Absorb(c.kind, c.body[..Min(n - 8, |c.body|)], g)
  {
    hide AbsorbAll, Absorb, ReadChunk, SerialiseAll, Serialise;
    var part, start := Serialise(c)[..n], before + SerialiseAll(cs);
    WalkPast(before, cs, part, st);
    if n >= 8 {
      ReadCutShort(start, c, n);
    }
  }

  lemma ReadCutShort(before: seq<Byte>, c: Chunk, n: nat)
    requires WellFormed(c) && 8 <= n < |Serialise(c)|
    ensures var data := before + Serialise(c)[..n];
            ReadChunk(data, |before|)
            == RawChunk(c.kind, c.body[..Min(n - 8, |c.body|)], |before| + |Serialise(c)|)
  {
    hide ReadBigEndian, BigEndian;
    var data, pos, whole := before + Serialise(c)[..n], |before|, Serialise(c);
    assert whole[..4] == BigEndian(|c.body|) && whole[4..8] == c.kind && whole[8..8 + |c.body|] == c.body;
    assert data[pos..pos + 4] == whole[..4] && data[pos + 4..pos + 8] == whole[4..8];
    BigEndianRoundTrip(|c.body|);
    CutSlice(before, whole, n, 8, 8 + |c.body|);
    assert whole[8..8 + Min(n - 8, |c.body|)] == whole[8..8 + |c.body|][..Min(n - 8, |c.body|)];
  }

  lemma CutSlice<T>(before: seq<T>, whole: seq<T>, n: nat, lo: nat, hi: nat)
    requires lo <= hi && lo <= n <= |whole| && hi <= |whole|
    ensures Slice(before + whole[..n], |before| + lo, |before| + hi) == whole[lo..Min(n, hi)]
  {
  }

  /** A chunk list that announces `h`: every header chunk carries it, and no end marker comes early.
      Image data may be split and other chunks inserted in any way. */
  ghost predicate Announces(cs: seq<Chunk>, h: Header)
    requires h.width < MAX_LENGTH && h.height < MAX_LENGTH && h.colorType in {2, 6}
  {
    forall i | 0 <= i < |cs| :: cs[i].kind != IEND && (cs[i].kind == IHDR ==> cs[i].body == HeaderBody(h))
  }

  lemma AbsorbOne(c: Chunk, h: Header, st: Gathered)
    requires h.width < MAX_LENGTH && h.height < MAX_LENGTH && h.colorType in {2, 6}
    requires c.kind == IHDR ==> c.body == HeaderBody(h)
    ensures Absorb(c.kind, c.body, st)
         == Ok(Gathered(if c.kind == IHDR then Some(h) else st.header, st.idat + if c.kind == IDAT then c.body else []))
  {
    hide ParseHeader, HeaderBody;
    HeaderRoundTrip(h);
    assert st.idat + [] == st.idat;
    assert IHDR[1] != IDAT[1];
  }

  /** Only the header and the joined image data of a chunk list matter. */
  lemma {:induction false} AbsorbAnnounced(cs: seq<Chunk>, rest: seq<Chunk>, h: Header, st: Gathered)
    requires h.width < MAX_LENGTH && h.height < MAX_LENGTH && h.colorType in {2, 6}
    requires Announces(cs, h) && (rest == [] || rest[0].kind == IEND)
    requires st.header == Some(h) || exists i | 0 <= i < |cs| :: cs[i].kind == IHDR
    ensures AbsorbAll(cs + rest, st) == Ok(Gathered(Some(h), st.idat + ImageData(cs)))
    decreases |cs|
  {
    hide Absorb;
    if cs == [] {
      assert cs + rest == rest && st.idat + [] == st.idat;
    } else {
      AbsorbOne(cs[0], h, st);
      var next := Absorb(cs[0].kind, cs[0].body, st).value;
      if next.header != Some(h) {
        var i :| 0 <= i < |cs| && cs[i].kind == IHDR;
        assert cs[1..][i - 1].kind == IHDR;
      }
      AbsorbAnnounced(cs[1..], rest, h, next);
      assert (cs + rest)[1..] == cs[1..] + rest;
      ConcatAssociative(st.idat, if cs[0].kind == IDAT then cs[0].body else [], ImageData(cs[1..]));
    }
  }
}
