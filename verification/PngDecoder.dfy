/** `read_png` end to end, and the theorem that the picture does not depend on how it was encoded. */
module PngDecoder {
  import opened Prelude
  import opened PngFilter
  import opened PngChunks

  /** `rgba` holds four bytes a pixel, row after row. */
  datatype PngImage = PngImage(width: nat, height: nat, rgba: seq<Byte>) {
    ghost predicate Valid() {
      |rgba| == 4 * (width * height)
    }
  }

  /** RGB samples as RGBA, every pixel opaque. */
  function Widen(row: seq<Byte>): seq<Byte> {
    if |row| < 3 then [] else [row[0], row[1], row[2], 255] + Widen(row[3..])
  }

  function Expand(row: seq<Byte>, bpp: nat): seq<Byte> {
    if bpp == 4 then row else Widen(row)
  }

  /** The RGBA bytes of decoded rows. */
  function Pixels(rows: seq<seq<Byte>>, bpp: nat): seq<Byte> {
    if rows == [] then [] else Expand(rows[0], bpp) + Pixels(rows[1..], bpp)
  }

  function Zeros(n: nat): (z: seq<Byte>)
    ensures |z| == n && forall i | 0 <= i < n :: z[i] == 0
  {
    seq(n, _ => 0)
  }

  function Channels(h: Header): nat {
    if h.colorType == 2 then 3 else 4
  }

  /** What the file denotes. `inflate` is the zlib decompressor, None where it raises. */
  function Decode(data: seq<Byte>, inflate: seq<Byte> -> Option<seq<Byte>>): Result<PngImage, PngError> {
    if !(SIGNATURE <= data) then Err(NotPng)
    else
      match Walk(data, 8, NOTHING)
      case Err(e) => Err(e)
      case Ok(Gathered(None, _)) => Err(MissingIhdr)
      case Ok(Gathered(Some(h), idat)) =>
        match inflate(idat)
        case None => Err(BadZlibStream)
        case Some(raw) => DecodeSamples(h, raw)
  }

  function DecodeSamples(h: Header, raw: seq<Byte>): Result<PngImage, PngError> {
    match DecodeRows(raw, Channels(h), h.height, Zeros(h.width * Channels(h)))
    case Err(e) => Err(e)
    case Ok(rows) => Ok(PngImage(h.width, h.height, Pixels(rows, Channels(h))))
  }

  lemma {:induction false} WidenLength(row: seq<Byte>, width: nat)
    requires |row| == 3 * width
    ensures |Widen(row)| == 4 * width
  {
    if width == 0 {
    } else {
      WidenLength(row[3..], width - 1);
    }
  }

  lemma {:induction false} PixelsLength(rows: seq<seq<Byte>>, bpp: nat, width: nat, stride: nat)
    requires Uniform(rows, stride) && bpp in {3, 4} && stride == if bpp == 3 then 3 * width else 4 * width
    ensures |Pixels(rows, bpp)| == |rows| * (4 * width)
  {
    if rows == [] {
    } else {
      if bpp == 3 {
        WidenLength(rows[0], width);
      }
      PixelsLength(rows[1..], bpp, width, stride);
      MulStep(|rows|, 4 * width);
    }
  }

  lemma MulStep(n: int, k: int)
    ensures n * k == (n - 1) * k + k
  {
  }

  lemma MulShuffle(a: int, b: int)
    ensures a * (4 * b) == a * (b * 4) == 4 * (b * a)
  {
  }

  lemma SamplesValid(h: Header, raw: seq<Byte>)
    requires DecodeSamples(h, raw).Ok?
    ensures DecodeSamples(h, raw).value.Valid()
  {
    hide DecodeRows;
    var rows := DecodeRows(raw, Channels(h), h.height, Zeros(h.width * Channels(h))).value;
    PixelsLength(rows, Channels(h), h.width, h.width * Channels(h));
    MulShuffle(h.height, h.width);
  }

  /** Every picture the decoder returns has four bytes for each pixel of its announced size. */
  lemma DecodedIsValid(data: seq<Byte>, inflate: seq<Byte> -> Option<seq<Byte>>)
    requires Decode(data, inflate).Ok?
    ensures Decode(data, inflate).value.Valid()
  {
    hide DecodeSamples;
    SamplesValid(Walk(data, 8, NOTHING).value.header.value, inflate(Walk(data, 8, NOTHING).value.idat).value);
  }

  /** The decoder's output loop for one row: RGBA samples as they are, RGB samples widened. */
  method ExpandRow(scan: array<Byte>, bpp: nat, out: seq<Byte>) returns (longer: seq<Byte>)
    requires bpp == 4 || scan.Length % 3 == 0
    ensures longer == out + Expand(scan[..], bpp)
  {
    longer := out;
    if bpp == 4 {
      longer := longer + scan[..];
    } else {
      var i := 0;
      assert scan[0..] == scan[..];
      while i < scan.Length
        invariant 0 <= i <= scan.Length && i % 3 == 0
        invariant longer + Widen(scan[i..]) == out + Widen(scan[..])
      {
        var pixel := [scan[i], scan[i + 1], scan[i + 2], 255];
        ghost var rest := Widen(scan[i + 3..]);
        assert scan[i..][3..] == scan[i + 3..];
        ConcatAssociative(longer, pixel, rest);
        longer := longer + pixel;
        i := i + 3;
      }
      assert Widen(scan[i..]) == [];
      assert longer == longer + Widen(scan[i..]);
    }
  }

  /** What remains to be done after some rows are out. */
  ghost function Finish(out: seq<Byte>, rest: Result<seq<seq<Byte>>, PngError>, bpp: nat): Result<seq<Byte>, PngError> {
    if rest.Ok? then Ok(out + Pixels(rest.value, bpp)) else Err(rest.error)
  }

  lemma FinishNothing(rest: Result<seq<seq<Byte>>, PngError>, bpp: nat)
    ensures Finish([], rest, bpp) == if rest.Ok? then Ok(Pixels(rest.value, bpp)) else Err(rest.error)
  {
    if rest.Ok? {
      assert [] + Pixels(rest.value, bpp) == Pixels(rest.value, bpp);
    }
  }

  lemma FinishLast(out: seq<Byte>, raw: seq<Byte>, bpp: nat, prev: seq<Byte>)
    requires 0 < bpp
    ensures Finish(out, DecodeRows(raw, bpp, 0, prev), bpp) == Ok(out)
  {
    assert out + [] == out;
  }

  lemma FinishCons(out: seq<Byte>, row: seq<Byte>, rest: Result<seq<seq<Byte>>, PngError>, bpp: nat)
    ensures Finish(out, Prepend(row, rest), bpp) == Finish(out + Expand(row, bpp), rest, bpp)
  {
    if rest.Ok? {
      assert ([row] + rest.value)[1..] == rest.value;
      ConcatAssociative(out, Expand(row, bpp), Pixels(rest.value, bpp));
    }
  }

  lemma FinishStep(out: seq<Byte>, rest: seq<Byte>, bpp: nat, n: nat, prev: seq<Byte>)
    requires 0 < bpp && 0 < n
    ensures Finish(out, DecodeRows(rest, bpp, n, prev), bpp) ==
            match DecodeScanline(rest, bpp, prev)
            case Err(e) => Err(e)
            case Ok(row) => Finish(out + Expand(row, bpp), DecodeRows(rest[1 + |prev|..], bpp, n - 1, row), bpp)
  {
    hide DecodeScanline, Pixels, Expand;
    if DecodeScanline(rest, bpp, prev).Ok? {
      var row := DecodeScanline(rest, bpp, prev).value;
      FinishCons(out, row, DecodeRows(rest[1 + |prev|..], bpp, n - 1, row), bpp);
    }
  }

  /** The outcome of one scanline in terms of the filter byte and the clamped samples after it. */
  lemma ScanlineOutcome(rest: seq<Byte>, bpp: nat, prev: seq<Byte>)
    requires 0 < bpp
    ensures var samples := Slice(rest, 1, 1 + |prev|);
            DecodeScanline(rest, bpp, prev) ==
            if rest == [] then Err(ShortData)
            else if |prev| > 0 && rest[0] > 4 then Err(UnsupportedFilter)
            else if |samples| < |prev| then Err(ShortData)
            else Ok(if prev == [] then [] else UnfilterRow(rest[0], bpp, samples, prev))
  {
    hide UnfilterRow;
  }

  /** One pass of the decoder's row loop: the filter byte, a buffer for the samples, the unfilter in place. */
  method ReadScanline(raw: seq<Byte>, start: nat, bpp: nat, prev: array<Byte>)
    returns (err: Option<PngError>, scan: array<Byte>)
    requires 0 < bpp && start <= |raw|
    ensures fresh(scan) && prev[..] == old(prev[..])
    ensures DecodeScanline(raw[start..], bpp, prev[..]) == if err.Some? then Err(err.value) else Ok(scan[..])
  {
    hide UnfilterRow, DecodeScanline, Slice;
    ScanlineOutcome(raw[start..], bpp, prev[..]);
    scan := new Byte[0];
    var offset := start;
    if offset >= |raw| {
      return Some(ShortData), scan;
    }
    var filterType := raw[offset];
    offset := offset + 1;
    var samples := Slice(raw, offset, offset + prev.Length);
    SliceOfRest(raw, start, 1, 1 + prev.Length);
    scan := new Byte[|samples|](i requires 0 <= i < |samples| => samples[i]);
    assert scan[..] == samples;
    err := UnfilterInPlace(scan, prev, filterType, bpp);
  }

  /** The decoder's row loop, the row above kept in `prev`. */
  method ReadRows(raw: seq<Byte>, bpp: nat, width: nat, height: nat) returns (r: Result<seq<Byte>, PngError>)
    requires bpp in {3, 4}
    ensures r == Finish([], DecodeRows(raw, bpp, height, Zeros(width * bpp)), bpp)
  {
    hide UnfilterRow, DecodeRows, DecodeScanline, Finish, Pixels, Expand;
    var stride := width * bpp;
    var out: seq<Byte> := [];
    var prev := new Byte[stride](_ => 0);
    var offset := 0;
    assert prev[..] == Zeros(stride) && raw[0..] == raw;
    for k := 0 to height
      invariant prev.Length == stride && offset <= |raw|
      invariant Finish(out, DecodeRows(raw[offset..], bpp, height - k, prev[..]), bpp)
             == Finish([], DecodeRows(raw, bpp, height, Zeros(stride)), bpp)
    {
      ghost var rest := raw[offset..];
      FinishStep(out, rest, bpp, height - k, prev[..]);
      var err, scan := ReadScanline(raw, offset, bpp, prev);
      if err.Some? {
        return Err(err.value);
      }
      assert rest[1 + stride..] == raw[offset + 1 + stride..];
      offset := offset + 1 + stride;
      prev := scan;
      out := ExpandRow(scan, bpp, out);
    }
    FinishLast(out, raw[offset..], bpp, prev[..]);
    return Ok(out);
  }

  /** `read_png` on the bytes of a file. */
  method ReadPng(data: seq<Byte>, inflate: seq<Byte> -> Option<seq<Byte>>) returns (r: Result<PngImage, PngError>)
    ensures r == Decode(data, inflate)
    ensures r.Ok? ==> r.value.Valid()
  {
    hide Walk, DecodeRows, Pixels;
    if !(SIGNATURE <= data) {
      return Err(NotPng);
    }
    var gathered := WalkChunks(data);
    if gathered.Err? {
      return Err(gathered.error);
    }
    if gathered.value.header.None? {
      return Err(MissingIhdr);
    }
    var h := gathered.value.header.value;
    var bpp := if h.colorType == 2 then 3 else 4;
    var raw := inflate(gathered.value.idat);
    if raw.None? {
      return Err(BadZlibStream);
    }
    var pixels := ReadRows(raw.value, bpp, h.width, h.height);
    assert Decode(data, inflate) == DecodeSamples(h, raw.value);
    FinishNothing(DecodeRows(raw.value, bpp, h.height, Zeros(h.width * bpp)), bpp);
    if pixels.Err? {
      return Err(pixels.error);
    }
    DecodedIsValid(data, inflate);
    return Ok(PngImage(h.width, h.height, pixels.value));
  }

  // ---- what the picture is, sample by sample ----

  /** Each decoded row comes from its own scanline, above it the row before or the initial one. */
  lemma {:induction false} RowOfStream(raw: seq<Byte>, bpp: nat, n: nat, prev: seq<Byte>, r: nat)
    requires 0 < bpp && r < n && DecodeRows(raw, bpp, n, prev).Ok?
    ensures var rows, line := DecodeRows(raw, bpp, n, prev).value, 1 + |prev|;
            && 0 <= r * line <= |raw|
            && DecodeScanline(raw[r * line..], bpp, if r == 0 then prev else rows[r - 1]) == Ok(rows[r])
    decreases n
  {
    hide DecodeScanline;
    var line := 1 + |prev|;
    if r == 0 {
      assert raw[0..] == raw;
    } else {
      var rest := raw[line..];
      var row := DecodeRows(raw, bpp, n, prev).value[0];
      RowOfStream(rest, bpp, n - 1, row, r - 1);
      MulStep(r, line);
      assert rest[(r - 1) * line..] == raw[r * line..];
    }
  }

  lemma {:induction false} WidenAt(row: seq<Byte>, width: nat, p: nat, k: nat)
    requires |row| == 3 * width && p < width && k < 4
    ensures |Widen(row)| == 4 * width
    ensures Widen(row)[4 * p + k] == if k == 3 then 255 else row[3 * p + k]
  {
    WidenLength(row, width);
    if p == 0 {
    } else {
      WidenAt(row[3..], width - 1, p - 1, k);
    }
  }

  lemma ExpandAt(row: seq<Byte>, bpp: nat, width: nat, p: nat, k: nat)
    requires bpp in {3, 4} && |row| == bpp * width && p < width && k < 4
    ensures |Expand(row, bpp)| == 4 * width && 0 <= bpp * p && bpp * p + bpp <= |row|
    ensures Expand(row, bpp)[4 * p + k] == if k < bpp then row[bpp * p + k] else 255
  {
    if bpp == 3 {
      WidenAt(row, width, p, k);
    }
  }

  /** Where channel `k` of the pixel in row `r` and column `p` is. */
  lemma {:induction false} PixelAt(rows: seq<seq<Byte>>, bpp: nat, width: nat, r: nat, p: nat, k: nat)
    requires bpp in {3, 4} && Uniform(rows, bpp * width) && r < |rows| && p < width && k < 4
    ensures 0 <= r * width && 4 * (r * width + p) + k < |Pixels(rows, bpp)|
    ensures 0 <= bpp * p && bpp * p + bpp <= |rows[r]|
    ensures Pixels(rows, bpp)[4 * (r * width + p) + k] == if k < bpp then rows[r][bpp * p + k] else 255
  {
    ExpandAt(rows[r], bpp, width, p, k);
    if r == 0 {
    } else {
      ExpandAt(rows[0], bpp, width, p, k);
      PixelAt(rows[1..], bpp, width, r - 1, p, k);
      MulStep(r, width);
    }
  }

  /** Channel `k` of the pixel in row `r` and column `p`; 0 above the picture and to its left. */
  ghost function Sample(image: PngImage, r: int, p: int, k: nat): Byte
    requires image.Valid() && r < image.height && p < image.width && k < 4
  {
    if r < 0 || p < 0 then 0
    else
      PixelIndex(image.width, image.height, r, p);
      image.rgba[4 * (r * image.width + p) + k]
  }

  lemma PixelIndex(width: nat, height: nat, r: nat, p: nat)
    requires r < height && p < width
    ensures 0 <= r * width + p < width * height
  {
    MulStep(r + 1, width);
    MulMonotone(r + 1, height, width);
  }

  lemma MulMonotone(a: nat, b: nat, k: nat)
    requires a <= b
    ensures 0 <= a * k <= b * k == k * b
  {
  }

  /** Where the filter byte of row `r` and the filtered byte of a sample stand in the raw stream. */
  ghost function LineStart(h: Header, r: nat): int {
    r * (1 + Channels(h) * h.width)
  }

  lemma RowMeans(raw: seq<Byte>, start: nat, bpp: nat, prev: seq<Byte>, row: seq<Byte>, i: nat)
    requires 0 < bpp && start <= |raw| && DecodeScanline(raw[start..], bpp, prev) == Ok(row) && i < |prev|
    ensures start + 1 + |prev| <= |raw| && |row| == |prev|
    ensures Undone(raw[start], row[i], raw[start + 1 + i],
                   if i < bpp then 0 else row[i - bpp], prev[i], if i < bpp then 0 else prev[i - bpp])
  {
    hide UnfilterRow, Undone;
    var line := raw[start..];
    UnfilterMeans(line[0], bpp, line[1..1 + |prev|], prev, i);
  }

  /** What `read_png` makes of a raw stream, for every picture it returns: each sample is what the filter byte
      of its row makes of its byte in the stream and of the samples to its left, above it and above its left,
      taken as 0 outside the picture. Pixels of three channels are opaque. */
  lemma PictureMeans(h: Header, raw: seq<Byte>, r: nat, p: nat, k: nat)
    requires h.colorType in {2, 6} && DecodeSamples(h, raw).Ok? && r < h.height && p < h.width && k < 4
    ensures var image, line := DecodeSamples(h, raw).value, LineStart(h, r);
            var channels := if h.colorType == 2 then 3 else 4;
            && image.Valid() && image.width == h.width && image.height == h.height
            && 0 <= line && 0 <= channels * p && line + 1 + channels * p + channels <= |raw|
            && (k < channels ==>
                  Undone(raw[line], Sample(image, r, p, k), raw[line + 1 + channels * p + k],
                         Sample(image, r, p - 1, k), Sample(image, r - 1, p, k), Sample(image, r - 1, p - 1, k)))
            && (k >= channels ==> Sample(image, r, p, k) == 255)
  {
    hide DecodeSamples, DecodeScanline, Pixels, Undone, Sample, RowsOf, LineStart;
    var image, channels, i := DecodeSamples(h, raw).value, Channels(h), Channels(h) * p + k;
    SampleIs(h, raw, r, p, k);
    SampleIs(h, raw, r, p - 1, k);
    SampleIs(h, raw, r - 1, p, k);
    SampleIs(h, raw, r - 1, p - 1, k);
    OnePixelBack(channels, p, k);
    LineMeans(h, raw, r, p, k);
  }

  ghost function RowsOf(h: Header, raw: seq<Byte>): seq<seq<Byte>>
    requires DecodeSamples(h, raw).Ok?
  {
    DecodeRows(raw, Channels(h), h.height, Zeros(h.width * Channels(h))).value
  }

  lemma RowsFit(h: Header, raw: seq<Byte>)
    requires DecodeSamples(h, raw).Ok?
    ensures var image := DecodeSamples(h, raw).value;
            && image.Valid() && image.width == h.width && image.height == h.height
            && image.rgba == Pixels(RowsOf(h, raw), Channels(h))
            && |RowsOf(h, raw)| == h.height && Uniform(RowsOf(h, raw), Channels(h) * h.width)
  {
    hide DecodeRows, Pixels;
    SamplesValid(h, raw);
    MulMonotone(Channels(h), Channels(h), h.width);
  }

  /** Samples of the picture in terms of the decoded rows. */
  lemma SampleIs(h: Header, raw: seq<Byte>, r: int, p: int, k: nat)
    requires h.colorType in {2, 6} && DecodeSamples(h, raw).Ok? && r < h.height && p < h.width && k < 4
    ensures var image, channels := DecodeSamples(h, raw).value, Channels(h);
            && image.Valid() && image.width == h.width && image.height == h.height
            && |RowsOf(h, raw)| == h.height
            && (r >= 0 && p >= 0 ==> 0 <= channels * p && channels * p + channels <= |RowsOf(h, raw)[r]|)
            && Sample(image, r, p, k) ==
                 if r < 0 || p < 0 then 0
                 else if k < channels then RowsOf(h, raw)[r][channels * p + k] else 255
  {
    hide DecodeSamples, DecodeRows, Pixels, RowsOf;
    RowsFit(h, raw);
    if r >= 0 && p >= 0 {
      PixelAt(RowsOf(h, raw), Channels(h), h.width, r, p, k);
    }
  }

  lemma OnePixelBack(channels: nat, p: nat, k: nat)
    requires channels in {3, 4}
    ensures channels * p + k >= 0
    ensures k < channels ==> (channels * p + k < channels <==> p == 0)
    ensures channels * p + k - channels == channels * (p - 1) + k
  {
  }

  /** The sample in terms of its own row and the one above, and where its bytes stand in the stream. */
  lemma LineMeans(h: Header, raw: seq<Byte>, r: nat, p: nat, k: nat)
    requires h.colorType in {2, 6} && DecodeSamples(h, raw).Ok? && r < h.height && p < h.width && k < 4
    ensures var line, channels := LineStart(h, r), Channels(h);
            && 0 <= line && 0 <= channels * p && line + 1 + channels * p + channels <= |raw|
    ensures var rows, line, channels := RowsOf(h, raw), LineStart(h, r), Channels(h);
            var i := channels * p + k;
            && |rows| == h.height && channels * p + channels <= |rows[r]| && (r > 0 ==> |rows[r - 1]| == |rows[r]|)
            && (k < channels ==>
                  Undone(raw[line], rows[r][i], raw[line + 1 + i], if i < channels then 0 else rows[r][i - channels],
                         if r == 0 then 0 else rows[r - 1][i],
                         if r == 0 || i < channels then 0 else rows[r - 1][i - channels]))
  {
    hide DecodeSamples, DecodeRows, DecodeScanline, Undone;
    var channels, rows := Channels(h), RowsOf(h, raw);
    var above := Zeros(h.width * channels);
    RowsFit(h, raw);
    DecodedRows(h, raw);
    MulMonotone(channels, channels, h.width);
    RowOfStream(raw, channels, h.height, above, r);
    ExpandFits(rows[r], channels, h.width, p);
    var i := channels * p + k;
    if k < channels {
      RowMeans(raw, LineStart(h, r), channels, if r == 0 then above else rows[r - 1], rows[r], i);
    }
  }

  lemma DecodedRows(h: Header, raw: seq<Byte>)
    requires DecodeSamples(h, raw).Ok?
    ensures DecodeRows(raw, Channels(h), h.height, Zeros(h.width * Channels(h))) == Ok(RowsOf(h, raw))
  {
    hide DecodeRows;
  }

  lemma ExpandFits(row: seq<Byte>, channels: nat, width: nat, p: nat)
    requires channels in {3, 4} && |row| == channels * width && p < width
    ensures 0 <= channels * p && channels * p + channels <= |row|
  {
  }

  // ---- encoding independence ----

  /** The choices an encoder makes for one picture. */
  datatype Recipe = Recipe(
    header: Header,
    rows: seq<seq<Byte>>,        // the samples, `Channels(header)` bytes a pixel
    filters: seq<FilterType>,    // any filter for any row
    extra: seq<Byte>,            // bytes of the raw stream after the last row
    chunks: seq<Chunk>,          // everything before the end marker
    end: Chunk,
    tail: seq<Byte>)             // bytes of the file after the end marker
  {
    ghost predicate WellFormedFor(inflate: seq<Byte> -> Option<seq<Byte>>) {
      && header.width < MAX_LENGTH && header.height == |rows| < MAX_LENGTH && header.colorType in {2, 6}
      && Uniform(rows, header.width * Channels(header)) && |filters| == |rows|
      && AllWellFormed(chunks + [end]) && end.kind == IEND
      && Announces(chunks, header) && (exists i | 0 <= i < |chunks| :: chunks[i].kind == IHDR)
      && inflate(ImageData(chunks)) == Some(RawStream())
    }

    function RawStream(): seq<Byte>
      requires Uniform(rows, header.width * Channels(header)) && |filters| == |rows|
    {
      FilterRows(filters, Channels(header), rows, Zeros(header.width * Channels(header))) + extra
    }

    function File(): seq<Byte>
      requires AllWellFormed(chunks + [end])
    {
      SIGNATURE + SerialiseAll(chunks + [end]) + tail
    }

    function Picture(): PngImage {
      PngImage(header.width, header.height, Pixels(rows, Channels(header)))
    }
  }

  /** `read_png` inverts every encoder: any filter per row, any split of the compressed stream over
      IDAT chunks, any other chunks in between, any bytes after the end marker. */
  lemma DecodeEncoded(recipe: Recipe, inflate: seq<Byte> -> Option<seq<Byte>>)
    requires recipe.WellFormedFor(inflate)
    ensures Decode(recipe.File(), inflate) == Ok(recipe.Picture())
  {
    hide Walk, AbsorbAll, DecodeRows, FilterRows, SerialiseAll, HeaderBody;
    var Recipe(h, rows, filters, extra, chunks, end, tail) := recipe;
    assert (chunks + [end])[|chunks|].kind == IEND;
    assert SIGNATURE <= recipe.File();
    WalkSerialised(SIGNATURE, chunks + [end], tail, NOTHING);
    AbsorbAnnounced(chunks, [end], h, NOTHING);
    assert NOTHING.idat + ImageData(chunks) == ImageData(chunks);
    assert Walk(recipe.File(), 8, NOTHING) == Ok(Gathered(Some(h), ImageData(chunks)));
    DecodeFiltered(filters, Channels(h), rows, Zeros(h.width * Channels(h)), extra);
  }

  /** `rgba` holds the pixels of `rgb` in the same order, channel by channel, each fully opaque. */
  ghost predicate Opaquely(rgba: seq<Byte>, rgb: seq<Byte>) {
    && 3 * |rgba| == 4 * |rgb|
    && forall p | 0 <= p < |rgb| / 3 :: SamePixel(rgba, rgb, p)
  }

  ghost predicate SamePixel(rgba: seq<Byte>, rgb: seq<Byte>, p: nat)
    requires 4 * p + 3 < |rgba| && 3 * p + 2 < |rgb|
  {
    && rgba[4 * p] == rgb[3 * p] && rgba[4 * p + 1] == rgb[3 * p + 1] && rgba[4 * p + 2] == rgb[3 * p + 2]
    && rgba[4 * p + 3] == 255
  }

  /** Widening is the one way to write RGB samples as opaque RGBA. */
  lemma {:induction false} OpaquelyIsWidened(rgba: seq<Byte>, rgb: seq<Byte>)
    requires |rgb| % 3 == 0
    ensures Opaquely(rgba, rgb) <==> rgba == Widen(rgb)
    decreases |rgb|
  {
    if rgb == [] {
    } else if |rgba| >= 4 {
      OpaquelyIsWidened(rgba[4..], rgb[3..]);
      OpaquelyTail(rgba, rgb);
      assert rgba == rgba[..4] + rgba[4..];
      assert Widen(rgb)[4..] == Widen(rgb[3..]) && Widen(rgb)[..4] == [rgb[0], rgb[1], rgb[2], 255];
    }
  }

  lemma OpaquelyTail(rgba: seq<Byte>, rgb: seq<Byte>)
    requires |rgb| % 3 == 0 && 3 <= |rgb| && 4 <= |rgba|
    ensures Opaquely(rgba, rgb) <==> Opaquely(rgba[4..], rgb[3..]) && rgba[..4] == [rgb[0], rgb[1], rgb[2], 255]
  {
    if 3 * |rgba| == 4 * |rgb| {
      assert forall p | 0 <= p < |rgb| / 3 - 1 :: SamePixel(rgba[4..], rgb[3..], p) <==> SamePixel(rgba, rgb, p + 1);
      if Opaquely(rgba, rgb) {
        assert SamePixel(rgba, rgb, 0);
        forall p | 0 <= p < |rgb| / 3 - 1
          ensures SamePixel(rgba[4..], rgb[3..], p)
        {
          assert SamePixel(rgba, rgb, p + 1);
        }
      }
      if Opaquely(rgba[4..], rgb[3..]) && rgba[..4] == [rgb[0], rgb[1], rgb[2], 255] {
        assert rgba[..4][0] == rgba[0] && rgba[..4][1] == rgba[1] && rgba[..4][2] == rgba[2] && rgba[..4][3] == rgba[3];
        forall p | 0 <= p < |rgb| / 3
          ensures SamePixel(rgba, rgb, p)
        {
          if p > 0 {
            assert SamePixel(rgba[4..], rgb[3..], p - 1);
          }
        }
      }
    }
  }

  /** An opaque picture given as RGB rows, and the two sample formats that can carry it. */
  ghost predicate Carries(recipe: Recipe, width: nat, rgb: seq<seq<Byte>>) {
    && recipe.header.width == width && recipe.header.height == |rgb| == |recipe.rows|
    && Uniform(rgb, width * 3)
    && match recipe.header.colorType
       case 2 => recipe.rows == rgb
       case _ => forall i | 0 <= i < |rgb| :: Opaquely(recipe.rows[i], rgb[i])
  }

  lemma {:induction false} WidenedPixels(rgb: seq<seq<Byte>>, rgba: seq<seq<Byte>>)
    requires |rgba| == |rgb| && forall i | 0 <= i < |rgb| :: rgba[i] == Widen(rgb[i])
    ensures Pixels(rgba, 4) == Pixels(rgb, 3)
  {
    if rgb == [] {
    } else {
      WidenedPixels(rgb[1..], rgba[1..]);
    }
  }

  lemma CarriedPicture(recipe: Recipe, width: nat, rgb: seq<seq<Byte>>)
    requires recipe.header.colorType in {2, 6} && Carries(recipe, width, rgb)
    ensures recipe.Picture() == PngImage(width, |rgb|, Pixels(rgb, 3))
  {
    if recipe.header.colorType == 6 {
      forall i | 0 <= i < |rgb|
        ensures recipe.rows[i] == Widen(rgb[i])
      {
        assert |rgb[i]| == width * 3;
        OpaquelyIsWidened(recipe.rows[i], rgb[i]);
      }
      WidenedPixels(rgb, recipe.rows);
    }
  }

  /** Two files that carry the same opaque picture decode to the same image, whatever each encoder chose. */
  lemma EncodingIndependence(r1: Recipe, r2: Recipe, width: nat, rgb: seq<seq<Byte>>,
                             inflate: seq<Byte> -> Option<seq<Byte>>)
    requires r1.WellFormedFor(inflate) && r2.WellFormedFor(inflate)
    requires Carries(r1, width, rgb) && Carries(r2, width, rgb)
    ensures Decode(r1.File(), inflate) == Decode(r2.File(), inflate) == Ok(PngImage(width, |rgb|, Pixels(rgb, 3)))
  {
    DecodeEncoded(r1, inflate);
    DecodeEncoded(r2, inflate);
    CarriedPicture(r1, width, rgb);
    CarriedPicture(r2, width, rgb);
  }

  // ---- which files decode ----

  /** The raw stream is long enough for the header's picture, with a known filter byte on each line that has
      samples. */
  ghost predicate StreamFits(h: Header, raw: seq<Byte>) {
    var stride := h.width * Channels(h);
    h.height * (1 + stride) <= |raw| && (stride > 0 ==> KnownFilters(raw, h.height, 1 + stride))
  }

  /** A file that does not start with the signature is refused. */
  lemma SignatureNeeded(data: seq<Byte>, inflate: seq<Byte> -> Option<seq<Byte>>)
    requires |data| < 8 || data[..8] != [137, 80, 78, 71, 13, 10, 26, 10]
    ensures Decode(data, inflate) == Err(NotPng)
  {
    if SIGNATURE <= data {
      WholePrefix(SIGNATURE, data);
    }
  }

  lemma WholePrefix<T>(a: seq<T>, b: seq<T>)
    requires a <= b
    ensures b[..|a|] == a
  {
  }

  lemma StreamFitsIff(h: Header, raw: seq<Byte>)
    ensures DecodeSamples(h, raw).Ok? <==> StreamFits(h, raw)
  {
    hide DecodeRows, KnownFilters;
    DecodesIff(raw, Channels(h), h.height, Zeros(h.width * Channels(h)));
  }

  lemma DecodeOfFile(cs: seq<Chunk>, end: Chunk, tail: seq<Byte>, inflate: seq<Byte> -> Option<seq<Byte>>)
    requires AllWellFormed(cs + [end]) && end.kind == IEND
    ensures var gathered := AbsorbAll(cs, NOTHING);
            Decode(SIGNATURE + SerialiseAll(cs + [end]) + tail, inflate).Ok? <==>
              && gathered.Ok? && gathered.value.header.Some? && inflate(gathered.value.idat).Some?
              && DecodeSamples(gathered.value.header.value, inflate(gathered.value.idat).value).Ok?
  {
    hide Walk, AbsorbAll, DecodeSamples, SerialiseAll;
    assert (cs + [end])[|cs|].kind == IEND;
    assert SIGNATURE <= SIGNATURE + SerialiseAll(cs + [end]) + tail;
    WalkSerialised(SIGNATURE, cs + [end], tail, NOTHING);
    AbsorbToEnd(cs, end, NOTHING);
  }

  /** Exactly which files of whole chunks decode: those with a header chunk, all header chunks sound, image data
      that inflates, and a stream that fits the last header. */
  lemma FileDecodesIff(cs: seq<Chunk>, end: Chunk, tail: seq<Byte>, inflate: seq<Byte> -> Option<seq<Byte>>)
    requires AllWellFormed(cs + [end]) && end.kind == IEND && forall i | 0 <= i < |cs| :: cs[i].kind != IEND
    ensures Decode(SIGNATURE + SerialiseAll(cs + [end]) + tail, inflate).Ok? <==>
            && (exists i | 0 <= i < |cs| :: cs[i].kind == IHDR)
            && (forall i | 0 <= i < |cs| && cs[i].kind == IHDR :: ParseHeader(cs[i].body).Ok?)
            && inflate(ImageData(cs)).Some?
            && forall i | LastHeader(cs, i) :: StreamFits(ParseHeader(cs[i].body).value, inflate(ImageData(cs)).value)
  {
    hide Decode, AbsorbAll, SerialiseAll, ParseHeader, LastHeader, StreamFits, DecodeSamples, ImageData;
    DecodeOfFile(cs, end, tail, inflate);
    AbsorbMeans(cs, NOTHING);
    assert NOTHING.idat + ImageData(cs) == ImageData(cs);
    if exists i | 0 <= i < |cs| :: cs[i].kind == IHDR {
      var i := FindLastHeader(cs);
      OnlyLastHeader(cs, i);
      if AbsorbAll(cs, NOTHING).Ok? && inflate(ImageData(cs)).Some? {
        StreamFitsIff(ParseHeader(cs[i].body).value, inflate(ImageData(cs)).value);
      }
    }
  }

  lemma OnlyLastHeader(cs: seq<Chunk>, i: nat)
    requires LastHeader(cs, i)
    ensures cs[i].kind == IHDR && forall j | LastHeader(cs, j) :: j == i
  {
  }

  /** A whole file, byte by byte: one pixel in colour type 2, unfiltered. */
  lemma OnePixelFile(file: seq<Byte>, inflate: seq<Byte> -> Option<seq<Byte>>)
    requires file == [137, 80, 78, 71, 13, 10, 26, 10]
                   + ([0, 0, 0, 13] + [73, 72, 68, 82] + [0, 0, 0, 1, 0, 0, 0, 1, 8, 2, 0, 0, 0] + [0, 0, 0, 0])
                   + ([0, 0, 0, 2] + [73, 68, 65, 84] + [1, 2] + [0, 0, 0, 0])
                   + ([0, 0, 0, 0] + [73, 69, 78, 68] + [] + [0, 0, 0, 0])
    requires inflate([1, 2]) == Some([0, 10, 20, 30])
    ensures Decode(file, inflate) == Ok(PngImage(1, 1, [10, 20, 30, 255]))
  {
    hide Decode, Pixels, FilterRows, ImageData, SerialiseAll, HeaderBody;
    var crc: seq<Byte> := [0, 0, 0, 0];
    var h := Header(1, 1, 2);
    var first, second, end := Chunk(IHDR, HeaderBody(h), crc), Chunk(IDAT, [1, 2], crc), Chunk(IEND, [], crc);
    var recipe := Recipe(h, [[10, 20, 30]], [0], [], [first, second], end, []);
    OnePixelStream();
    OnePixelChunks(first, second, end);
    assert recipe.RawStream() == [0, 10, 20, 30];
    assert recipe.chunks[0].kind == IHDR;
    assert recipe.File() == file;
    DecodeEncoded(recipe, inflate);
    OnePixelPicture();
  }

  lemma OnePixelPicture()
    ensures Pixels([[10, 20, 30]], 3) == [10, 20, 30, 255]
  {
    var row: seq<Byte> := [10, 20, 30];
    WidenAt(row, 1, 0, 0);
    WidenAt(row, 1, 0, 1);
    WidenAt(row, 1, 0, 2);
    WidenAt(row, 1, 0, 3);
    assert [row][1..] == [];
  }

  lemma OnePixelStream()
    ensures Uniform([[10, 20, 30]], 3) && FilterRows([0], 3, [[10, 20, 30]], Zeros(3)) + [] == [0, 10, 20, 30]
  {
    var row: seq<Byte> := [10, 20, 30];
    FiltersCancelRepetition(3, row, Zeros(3));
    assert [row][1..] == [];
  }

  lemma OnePixelChunks(first: Chunk, second: Chunk, end: Chunk)
    requires first == Chunk(IHDR, HeaderBody(Header(1, 1, 2)), [0, 0, 0, 0])
    requires second == Chunk(IDAT, [1, 2], [0, 0, 0, 0]) && end == Chunk(IEND, [], [0, 0, 0, 0])
    ensures ImageData([first, second]) == [1, 2] && Announces([first, second], Header(1, 1, 2))
    ensures AllWellFormed([first, second] + [end])
    ensures SIGNATURE + SerialiseAll([first, second] + [end]) + []
         == [137, 80, 78, 71, 13, 10, 26, 10]
          + ([0, 0, 0, 13] + [73, 72, 68, 82] + [0, 0, 0, 1, 0, 0, 0, 1, 8, 2, 0, 0, 0] + [0, 0, 0, 0])
          + ([0, 0, 0, 2] + [73, 68, 65, 84] + [1, 2] + [0, 0, 0, 0])
          + ([0, 0, 0, 0] + [73, 69, 78, 68] + [] + [0, 0, 0, 0])
  {
    hide BigEndian;
    SmallBigEndians();
    assert IHDR[1] != IDAT[1] && IHDR[1] != IEND[1] && IDAT[1] != IEND[1];
    assert HeaderBody(Header(1, 1, 2)) == [0, 0, 0, 1, 0, 0, 0, 1, 8, 2, 0, 0, 0];
    assert [first, second] + [end] == [first, second, end];
    ThreeChunks(first, second, end);
    JoinFour(SIGNATURE, Serialise(first), Serialise(second), Serialise(end));
    assert [first, second][1..] == [second] && [second][1..] == [];
    assert ImageData([]) == [] && ImageData([second]) == [1, 2] + [];
  }

  lemma SmallBigEndians()
    ensures BigEndian(13) == [0, 0, 0, 13] && BigEndian(2) == [0, 0, 0, 2] && BigEndian(0) == [0, 0, 0, 0]
    ensures BigEndian(1) == [0, 0, 0, 1]
  {
  }

  lemma ThreeChunks(first: Chunk, second: Chunk, end: Chunk)
    requires WellFormed(first) && WellFormed(second) && WellFormed(end)
    ensures AllWellFormed([first, second, end])
    ensures SerialiseAll([first, second, end]) == Serialise(first) + (Serialise(second) + (Serialise(end) + []))
  {
    hide Serialise;
    assert [first, second, end][1..] == [second, end] && [second, end][1..] == [end] && [end][1..] == [];
    assert SerialiseAll([]) == [] && SerialiseAll([end]) == Serialise(end) + [];
    assert SerialiseAll([second, end]) == Serialise(second) + (Serialise(end) + []);
  }

  lemma JoinFour<T>(a: seq<T>, b: seq<T>, c: seq<T>, d: seq<T>)
    ensures a + (b + (c + (d + []))) + [] == a + b + c + d
  {
  }
}
