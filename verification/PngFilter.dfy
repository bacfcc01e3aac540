/** The five scanline filters of section 6 of RFC 2083: the encoder's direction, the decoder's
    in-place loop, and the proof that each undoes the other on rows and on whole images. */
module PngFilter {
  import opened Prelude

  type FilterType = f: int | 0 <= f <= 4

  datatype PngError =
    | NotPng
    | TruncatedHeader
    | BadIhdr
    | UnsupportedEncoding
    | UnsupportedColorType
    | MissingIhdr
    | BadZlibStream
    | ShortData
    | UnsupportedFilter

  function Paeth(a: Byte, b: Byte, c: Byte): Byte {
    var p := a + b - c;
    var pa, pb, pc := Abs(p - a), Abs(p - b), Abs(p - c);
    if pa <= pb && pa <= pc then a else if pb <= pc then b else c
  }

  /** Section 6.6: the neighbour nearest to a + b - c, ties going to a, then b, then c. */
  lemma PaethIsNearest(a: Byte, b: Byte, c: Byte)
    ensures var p, r := a + b - c, Paeth(a, b, c);
            && (r == a || r == b || r == c)
            && Abs(p - r) <= Abs(p - a) && Abs(p - r) <= Abs(p - b) && Abs(p - r) <= Abs(p - c)
            && (Abs(p - a) == Abs(p - r) ==> r == a)
            && (Abs(p - b) == Abs(p - r) && r != a ==> r == b)
  {
  }

  /** Section 6.5: the mean of two neighbours, summed without wrap-around and rounded down. */
  function Average(a: int, b: int): int {
    (a + b) / 2
  }

  /** The value that filter `ft` predicts from the left, upper and upper-left neighbours. */
  function Predict(ft: FilterType, left: Byte, up: Byte, upLeft: Byte): Byte {
    match ft
    case 0 => 0
    case 1 => left
    case 2 => up
    case 3 => Average(left, up)
    case _ => Paeth(left, up, upLeft)
  }

  /** A sample, or 0 to the left of the row's first pixel. */
  function At(s: seq<Byte>, i: int): Byte
    requires i < |s|
  {
    if i < 0 then 0 else s[i]
  }

  function PredictAt(ft: FilterType, bpp: nat, row: seq<Byte>, prev: seq<Byte>, i: nat): Byte
    requires 0 < bpp && i <= |row| && i < |prev|
  {
    Predict(ft, At(row, i - bpp), prev[i], At(prev, i - bpp))
  }

  /** Byte addition and subtraction wrap around. */
  function AddByte(x: Byte, p: Byte): Byte {
    (x + p) % 256
  }

  function SubByte(x: Byte, p: Byte): Byte {
    (x - p) % 256
  }

  lemma AddSubByte(x: Byte, p: Byte)
    ensures AddByte(SubByte(x, p), p) == x && SubByte(AddByte(x, p), p) == x
  {
    WrapsOnce(x as int + p as int);
    WrapsOnce(x as int - p as int);
    WrapsOnce(AddByte(x, p) as int - p as int);
    WrapsOnce(SubByte(x, p) as int + p as int);
  }

  lemma WrapsOnce(n: int)
    requires -256 < n < 512
    ensures n % 256 == if n < 0 then n + 256 else if n < 256 then n else n - 256
  {
  }

  /** The encoder's direction, as RFC 2083 gives it: each byte minus its prediction, mod 256. */
  function FilterRow(ft: FilterType, bpp: nat, row: seq<Byte>, prev: seq<Byte>): (scan: seq<Byte>)
    requires 0 < bpp && |row| == |prev|
    ensures |scan| == |row|
  {
    seq(|row|, i requires 0 <= i < |row| => SubByte(row[i], PredictAt(ft, bpp, row, prev, i)))
  }

  /** `row` solves the reconstruction equations for the filtered bytes `scan`. */
  ghost predicate Reconstructs(ft: FilterType, bpp: nat, scan: seq<Byte>, prev: seq<Byte>, row: seq<Byte>)
    requires 0 < bpp
  {
    && |row| == |scan| <= |prev|
    && forall i | 0 <= i < |row| :: row[i] == AddByte(scan[i], PredictAt(ft, bpp, row, prev, i))
  }

  /** The decoder's direction, left to right, each byte using the bytes already decoded. */
  function UnfilterRow(ft: FilterType, bpp: nat, scan: seq<Byte>, prev: seq<Byte>): (row: seq<Byte>)
    requires 0 < bpp && |scan| <= |prev|
    ensures Reconstructs(ft, bpp, scan, prev, row)
  {
    if scan == [] then []
    else
      var n := |scan| - 1;
      var r := UnfilterRow(ft, bpp, scan[..n], prev);
      r + [AddByte(scan[n], PredictAt(ft, bpp, r, prev, n))]
  }

  /** Decoding undoes encoding, byte by byte, for every filter type and pixel size. */
  lemma {:induction false} UnfilterFilter(ft: FilterType, bpp: nat, row: seq<Byte>, prev: seq<Byte>, n: nat)
    requires 0 < bpp && |row| == |prev| && n <= |row|
    ensures UnfilterRow(ft, bpp, FilterRow(ft, bpp, row, prev)[..n], prev) == row[..n]
  {
    if n == 0 {
    } else {
      var scan := FilterRow(ft, bpp, row, prev);
      UnfilterFilter(ft, bpp, row, prev, n - 1);
      assert scan[..n][..n - 1] == scan[..n - 1];
      assert At(row[..n - 1], n - 1 - bpp) == At(row, n - 1 - bpp);
      AddSubByte(row[n - 1], PredictAt(ft, bpp, row, prev, n - 1));
      assert row[..n] == row[..n - 1] + [row[n - 1]];
    }
  }

  /** Encoding undoes decoding. */
  lemma FilterUnfilter(ft: FilterType, bpp: nat, scan: seq<Byte>, prev: seq<Byte>)
    requires 0 < bpp && |scan| == |prev|
    ensures FilterRow(ft, bpp, UnfilterRow(ft, bpp, scan, prev), prev) == scan
  {
    var row := UnfilterRow(ft, bpp, scan, prev);
    var back := FilterRow(ft, bpp, row, prev);
    forall i | 0 <= i < |scan|
      ensures back[i] == scan[i]
    {
      AddSubByte(scan[i], PredictAt(ft, bpp, row, prev, i));
    }
  }

  lemma UnfilterOneMore(ft: FilterType, bpp: nat, scan: seq<Byte>, prev: seq<Byte>, n: nat)
    requires 0 < bpp && n < |scan| <= |prev|
    ensures var done := UnfilterRow(ft, bpp, scan[..n], prev);
            UnfilterRow(ft, bpp, scan[..n + 1], prev) == done + [AddByte(scan[n], PredictAt(ft, bpp, done, prev, n))]
  {
    assert scan[..n + 1][..n] == scan[..n];
  }

  /** The decoder's inner loop: undoes one row's filter inside `scan`, left to right. `scan` may be
      shorter than the row when the data ran out; the filter byte is looked at once per sample. */
  method UnfilterInPlace(scan: array<Byte>, prev: array<Byte>, ft: Byte, bpp: nat) returns (err: Option<PngError>)
    requires 0 < bpp && scan != prev && scan.Length <= prev.Length
    modifies scan
    ensures err == if prev.Length > 0 && ft > 4 then Some(UnsupportedFilter)
                   else if scan.Length < prev.Length then Some(ShortData)
                   else None
    ensures err.None? ==> scan[..] == if prev.Length == 0 then [] else UnfilterRow(ft, bpp, old(scan[..]), prev[..])
  {
    hide FilterRow, UnfilterRow, Paeth;
    ghost var was, above := scan[..], prev[..];
    var i := 0;
    while i < prev.Length
      invariant 0 <= i <= scan.Length
      invariant 0 < i ==> ft <= 4
      invariant scan[i..] == was[i..]
      invariant ft <= 4 ==> scan[..i] == UnfilterRow(ft, bpp, was[..i], above)
    {
      var left := if i >= bpp then scan[i - bpp] else 0;
      var up := prev[i];
      var upLeft := if i >= bpp then prev[i - bpp] else 0;
      if ft > 4 {
        return Some(UnsupportedFilter);
      }
      if i >= scan.Length {
        return Some(ShortData);
      }
      ghost var done, tail := scan[..i], scan[i + 1..];
      assert scan[i] == scan[i..][0] == was[i];
      assert tail == was[i + 1..] by { assert tail == scan[i..][1..]; }
      var value;
      if ft == 0 {
        value := scan[i];
      } else if ft == 1 {
        value := AddByte(scan[i], left);
      } else if ft == 2 {
        value := AddByte(scan[i], up);
      } else if ft == 3 {
        value := AddByte(scan[i], Average(left, up));
      } else {
        value := AddByte(scan[i], Paeth(left, up, upLeft));
      }
      scan[i] := value;
      assert scan[i + 1..] == tail && scan[..i + 1] == done + [value];
      UnfilterOneMore(ft, bpp, was, above, i);
      i := i + 1;
    }
    assert was[..prev.Length] == was && scan[..prev.Length] == scan[..];
    return None;
  }

  /** What the simple filters cancel, in the terms of sections 6.2 to 6.5: None is the identity; a row equal
      to the one above is all zero under Up, and only such a row; a row that repeats its pixel is zero
      under Sub past the first pixel, and only such a row; Average predicts the floor of the mean. */
  lemma FiltersCancelRepetition(bpp: nat, row: seq<Byte>, prev: seq<Byte>)
    requires 0 < bpp && |row| == |prev|
    ensures FilterRow(0, bpp, row, prev) == row
    ensures (forall i | 0 <= i < |row| :: FilterRow(2, bpp, row, prev)[i] == 0) <==> row == prev
    ensures (forall i | bpp <= i < |row| :: FilterRow(1, bpp, row, prev)[i] == 0) <==>
            (forall i | bpp <= i < |row| :: row[i] == row[i - bpp])
    ensures forall i | bpp <= i < |row| :: FilterRow(3, bpp, row, prev)[i] == 0 <==>
              2 * (row[i] as int) <= (row[i - bpp] as int) + (prev[i] as int) <= 2 * (row[i] as int) + 1
  {
    hide Paeth;
    forall i | 0 <= i < |row|
      ensures FilterRow(0, bpp, row, prev)[i] == row[i]
      ensures FilterRow(2, bpp, row, prev)[i] == 0 <==> row[i] == prev[i]
      ensures i >= bpp ==> (FilterRow(1, bpp, row, prev)[i] == 0 <==> row[i] == row[i - bpp])
      ensures i >= bpp ==> (FilterRow(3, bpp, row, prev)[i] == 0 <==> row[i] == Average(row[i - bpp], prev[i]))
    {
      ZeroDifference(row[i], PredictAt(0, bpp, row, prev, i));
      ZeroDifference(row[i], PredictAt(1, bpp, row, prev, i));
      ZeroDifference(row[i], PredictAt(2, bpp, row, prev, i));
      ZeroDifference(row[i], PredictAt(3, bpp, row, prev, i));
    }
  }

  lemma ZeroDifference(x: Byte, p: Byte)
    ensures SubByte(x, p) == 0 <==> x == p
    ensures SubByte(x, 0) == x
  {
    WrapsOnce(x as int - p as int);
  }

  // ---- what a filter byte means ----

  /** `d` is the first of `a`, `b` and `c` that lies nearest to `p`. */
  ghost predicate FirstNearest(p: int, d: int, a: int, b: int, c: int) {
    && (d == a || d == b || d == c)
    && Abs(p - d) <= Abs(p - a) && Abs(p - d) <= Abs(p - b) && Abs(p - d) <= Abs(p - c)
    && (Abs(p - a) == Abs(p - d) ==> d == a)
    && (Abs(p - b) == Abs(p - d) && d != a ==> d == b)
  }

  /** The sample that filter byte `ft` stands for, in the terms of sections 6.2 to 6.6: what it adds to the
      byte in the stream, mod 256, is nothing, the left sample, the upper one, the mean of the two rounded
      down, or the first of left, upper and upper-left nearest to left + upper - upper-left. */
  ghost predicate Undone(ft: Byte, sample: Byte, scan: Byte, left: Byte, up: Byte, upLeft: Byte) {
    var added := ((sample as int) - (scan as int)) % 256;
    && (ft == 0 ==> added == 0)
    && (ft == 1 ==> added == left)
    && (ft == 2 ==> added == up)
    && (ft == 3 ==> 2 * added <= (left as int) + (up as int) <= 2 * added + 1)
    && (ft == 4 ==> FirstNearest((left as int) + (up as int) - (upLeft as int), added, left, up, upLeft))
  }

  /** Every decoded byte, with 0 for what would lie to the left of the first pixel. */
  lemma UnfilterMeans(ft: FilterType, bpp: nat, scan: seq<Byte>, prev: seq<Byte>, i: nat)
    requires 0 < bpp && i < |scan| <= |prev|
    ensures var row := UnfilterRow(ft, bpp, scan, prev);
            Undone(ft, row[i], scan[i], if i < bpp then 0 else row[i - bpp], prev[i],
                   if i < bpp then 0 else prev[i - bpp])
  {
    hide UnfilterRow, Paeth;
    var row := UnfilterRow(ft, bpp, scan, prev);
    var left: Byte, upLeft: Byte := At(row, i - bpp), At(prev, i - bpp);
    PaethIsNearest(left, prev[i], upLeft);
    AddedByte(scan[i], PredictAt(ft, bpp, row, prev, i));
  }

  lemma AddedByte(scan: Byte, p: Byte)
    ensures ((AddByte(scan, p) as int) - (scan as int)) % 256 == p
  {
    WrapsOnce(scan as int + p as int);
    WrapsOnce(AddByte(scan, p) as int - scan as int);
  }

  // ---- whole images ----

  ghost predicate Uniform(rows: seq<seq<Byte>>, stride: nat) {
    forall i | 0 <= i < |rows| :: |rows[i]| == stride
  }

  function Prepend(row: seq<Byte>, rest: Result<seq<seq<Byte>>, PngError>): Result<seq<seq<Byte>>, PngError> {
    if rest.Ok? then Ok([row] + rest.value) else rest
  }

  /** One scanline of the stream: the filter byte and the filtered samples. */
  function Scanline(ft: FilterType, bpp: nat, row: seq<Byte>, prev: seq<Byte>): (line: seq<Byte>)
    requires 0 < bpp && |row| == |prev|
    ensures |line| == 1 + |row|
  {
    [ft as Byte] + FilterRow(ft, bpp, row, prev)
  }

  /** The filtered stream of an image, each row predicted from the one above. */
  function FilterRows(fts: seq<FilterType>, bpp: nat, rows: seq<seq<Byte>>, prev: seq<Byte>): seq<Byte>
    requires 0 < bpp && |fts| == |rows|
    requires Uniform(rows, |prev|)
  {
    if rows == [] then []
    else Scanline(fts[0], bpp, rows[0], prev) + FilterRows(fts[1..], bpp, rows[1..], rows[0])
  }

  /** The row that one scanline decodes to. */
  function DecodeScanline(line: seq<Byte>, bpp: nat, prev: seq<Byte>): (r: Result<seq<Byte>, PngError>)
    requires 0 < bpp
    ensures r.Ok? ==> |r.value| == |prev| < |line|
  {
    if line == [] then Err(ShortData)
    else if |prev| > 0 && line[0] > 4 then Err(UnsupportedFilter)
    else if |line| < 1 + |prev| then Err(ShortData)
    else Ok(if prev == [] then [] else UnfilterRow(line[0], bpp, line[1..1 + |prev|], prev))
  }

  /** What the decoder's row loop makes of a raw stream: `n` rows as long as `prev`, or its first error. */
  function DecodeRows(raw: seq<Byte>, bpp: nat, n: nat, prev: seq<Byte>): (r: Result<seq<seq<Byte>>, PngError>)
    requires 0 < bpp
    ensures r.Ok? ==> |r.value| == n && Uniform(r.value, |prev|)
    decreases n
  {
    if n == 0 then Ok([])
    else
      match DecodeScanline(raw, bpp, prev)
      case Err(e) => Err(e)
      case Ok(row) =>
        Prepend(row, DecodeRows(raw[1 + |prev|..], bpp, n - 1, row))
  }

  /** Exactly which streams decode: those long enough for every row, with a known filter byte before each row
      that has samples. */
  lemma {:induction false} DecodesIff(raw: seq<Byte>, bpp: nat, n: nat, prev: seq<Byte>)
    requires 0 < bpp
    ensures DecodeRows(raw, bpp, n, prev).Ok? <==>
            && n * (1 + |prev|) <= |raw|
            && (|prev| > 0 ==> KnownFilters(raw, n, 1 + |prev|))
    decreases n
  {
    hide KnownFilters;
    assert n == 0 ==> KnownFilters(raw, n, 1 + |prev|) by { NoFilters(raw, 1 + |prev|); }
    var line := 1 + |prev|;
    if n == 0 {
    } else {
      LinesLeft(n, line);
      if DecodeScanline(raw, bpp, prev).Ok? {
        var row := DecodeScanline(raw, bpp, prev).value;
        DecodesIff(raw[line..], bpp, n - 1, row);
      }
      FilterBytesSplit(raw, n, line);
    }
  }

  lemma LinesLeft(n: nat, line: nat)
    requires n > 0
    ensures n * line == (n - 1) * line + line && (n - 1) * line >= 0
  {
  }

  /** The byte that starts line `r`, 0 when the stream is too short. */
  ghost function FilterByte(raw: seq<Byte>, r: nat, line: nat): Byte {
    if 0 <= r * line < |raw| then raw[r * line] else 0
  }

  ghost predicate KnownFilters(raw: seq<Byte>, n: nat, line: nat) {
    forall r: nat | r < n :: FilterByte(raw, r, line) <= 4
  }

  lemma NoFilters(raw: seq<Byte>, line: nat)
    ensures KnownFilters(raw, 0, line)
  {
  }

  lemma FilterBytesSplit(raw: seq<Byte>, n: nat, line: nat)
    requires n > 0 && line > 0
    ensures line <= |raw| ==>
              (KnownFilters(raw, n, line) <==> raw[0] <= 4 && KnownFilters(raw[line..], n - 1, line))
  {
    if line <= |raw| {
      var rest := raw[line..];
      forall r: nat
        ensures FilterByte(rest, r, line) == FilterByte(raw, r + 1, line)
      {
        LinesLeft(r + 1, line);
      }
      assert FilterByte(raw, 0, line) == raw[0];
      hide FilterByte;
      if raw[0] <= 4 && KnownFilters(rest, n - 1, line) {
        forall r: nat | r < n
          ensures FilterByte(raw, r, line) <= 4
        {
          if r > 0 {
            assert FilterByte(rest, r - 1, line) <= 4;
          }
        }
      }
    }
  }

  /** The filter bytes a decoded stream carries. */
  function FilterTypes(raw: seq<Byte>, n: nat, stride: nat): seq<FilterType> {
    if n == 0 || |raw| < 1 + stride || raw[0] > 4 then []
    else [raw[0]] + FilterTypes(raw[1 + stride..], n - 1, stride)
  }

  lemma DecodeOneScanline(ft: FilterType, bpp: nat, row: seq<Byte>, prev: seq<Byte>, rest: seq<Byte>)
    requires 0 < bpp && |row| == |prev|
    ensures DecodeScanline(Scanline(ft, bpp, row, prev) + rest, bpp, prev) == Ok(row)
  {
    var raw := Scanline(ft, bpp, row, prev) + rest;
    assert raw[1..1 + |prev|] == FilterRow(ft, bpp, row, prev);
    UnfilterFilter(ft, bpp, row, prev, |row|);
    assert FilterRow(ft, bpp, row, prev)[..|row|] == FilterRow(ft, bpp, row, prev) && row[..|row|] == row;
  }

  lemma FilterRowsCons(ft: FilterType, fts: seq<FilterType>, bpp: nat, row: seq<Byte>, rows: seq<seq<Byte>>,
                       prev: seq<Byte>)
    requires 0 < bpp && |fts| == |rows| && |row| == |prev| && Uniform(rows, |prev|)
    ensures FilterRows([ft] + fts, bpp, [row] + rows, prev)
         == Scanline(ft, bpp, row, prev) + FilterRows(fts, bpp, rows, row)
  {
    assert ([ft] + fts)[1..] == fts && ([row] + rows)[1..] == rows;
  }

  lemma DecodeRowsCons(line: seq<Byte>, rest: seq<Byte>, bpp: nat, n: nat, row: seq<Byte>, prev: seq<Byte>)
    requires 0 < bpp && 0 < n && |line| == 1 + |prev| && DecodeScanline(line + rest, bpp, prev) == Ok(row)
    ensures DecodeRows(line + rest, bpp, n, prev) == Prepend(row, DecodeRows(rest, bpp, n - 1, row))
  {
    assert (line + rest)[1 + |prev|..] == rest;
  }

  lemma DecodeFilteredCons(ft: FilterType, fts: seq<FilterType>, bpp: nat, row: seq<Byte>, rows: seq<seq<Byte>>,
                           prev: seq<Byte>, extra: seq<Byte>)
    requires 0 < bpp && |fts| == |rows| && |row| == |prev| && Uniform(rows, |prev|)
    requires DecodeRows(FilterRows(fts, bpp, rows, row) + extra, bpp, |rows|, row) == Ok(rows)
    ensures DecodeRows(FilterRows([ft] + fts, bpp, [row] + rows, prev) + extra, bpp, 1 + |rows|, prev)
         == Ok([row] + rows)
  {
    var line, rest := Scanline(ft, bpp, row, prev), FilterRows(fts, bpp, rows, row);
    DecodeOneScanline(ft, bpp, row, prev, rest + extra);
    DecodeRowsCons(line, rest + extra, bpp, 1 + |rows|, row, prev);
    FilterRowsCons(ft, fts, bpp, row, rows, prev);
    ConcatAssociative(line, rest, extra);
  }

  /** Decoding an encoded image gives its rows back, whatever filter each row uses and whatever
      bytes follow the last row. */
  lemma {:induction false} DecodeFiltered(fts: seq<FilterType>, bpp: nat, rows: seq<seq<Byte>>, prev: seq<Byte>,
                                          extra: seq<Byte>)
    requires 0 < bpp && |fts| == |rows|
    requires Uniform(rows, |prev|)
    ensures DecodeRows(FilterRows(fts, bpp, rows, prev) + extra, bpp, |rows|, prev) == Ok(rows)
    decreases |rows|
  {
    if rows == [] {
    } else {
      hide FilterRow, UnfilterRow;
      DecodeFiltered(fts[1..], bpp, rows[1..], rows[0], extra);
      DecodeFilteredCons(fts[0], fts[1..], bpp, rows[0], rows[1..], prev, extra);
      HeadTail(fts);
      HeadTail(rows);
    }
  }

  lemma EncodeOneScanline(raw: seq<Byte>, bpp: nat, prev: seq<Byte>)
    requires 0 < bpp && 0 < |prev| && DecodeScanline(raw, bpp, prev).Ok?
    ensures Scanline(raw[0], bpp, DecodeScanline(raw, bpp, prev).value, prev) == raw[..1 + |prev|]
  {
    FilterUnfilter(raw[0], bpp, raw[1..1 + |prev|], prev);
  }

  lemma PrefixCons<T>(s: seq<T>, n: nat, rest: seq<T>)
    requires n <= |s| && rest <= s[n..]
    ensures s[..n] + rest <= s
  {
    assert s == s[..n] + s[n..];
  }

  /** Whatever stream decodes is the encoding of the rows it decodes to, under its own filter bytes. */
  lemma {:induction false} FilterDecoded(raw: seq<Byte>, bpp: nat, n: nat, prev: seq<Byte>)
    requires 0 < bpp && 0 < |prev| && DecodeRows(raw, bpp, n, prev).Ok?
    ensures var rows, fts := DecodeRows(raw, bpp, n, prev).value, FilterTypes(raw, n, |prev|);
            && |fts| == n
            && FilterRows(fts, bpp, rows, prev) <= raw
    decreases n
  {
    hide FilterRow, UnfilterRow;
    if n == 0 {
    } else {
      var row := DecodeScanline(raw, bpp, prev).value;
      var rest := raw[1 + |prev|..];
      EncodeOneScanline(raw, bpp, prev);
      FilterDecoded(rest, bpp, n - 1, row);
      var rows, fts := DecodeRows(rest, bpp, n - 1, row).value, FilterTypes(rest, n - 1, |prev|);
      FilterRowsCons(raw[0], fts, bpp, row, rows, prev);
      PrefixCons(raw, 1 + |prev|, FilterRows(fts, bpp, rows, row));
    }
  }
}
