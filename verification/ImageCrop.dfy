/** `crop_image`: rectangles of a row-major grid, and how cropping relates to the diff. */
module ImageCrop {
  import opened Prelude
  import opened PngDecoder
  import opened ImageDiff

  datatype CropError = BadRectangle | ExceedsSource

  /** The grid `g`, `w` wide, without its first rows; empty when it has no more. */
  function SkipRows<T>(g: seq<T>, w: nat, rows: nat): (r: seq<T>)
    decreases rows
  {
    if rows == 0 then g else SkipRows(Rest(g, w), w, rows - 1)
  }

  /** `cw` columns from column `x` of each of the first `ch` rows, clamped as Python slices are. */
  function CropRows<T>(g: seq<T>, w: nat, x: nat, cw: nat, ch: nat): seq<T>
    decreases ch
  {
    if ch == 0 then [] else Slice(g, x, x + cw) + CropRows(Rest(g, w), w, x, cw, ch - 1)
  }

  function CropGrid<T>(g: seq<T>, w: nat, x: nat, y: nat, cw: nat, ch: nat): seq<T> {
    CropRows(SkipRows(g, w, y), w, x, cw, ch)
  }

  function Crop(image: PngImage, x: int, y: int, width: int, height: int): Result<PngImage, CropError> {
    if x < 0 || y < 0 || width <= 0 || height <= 0 then Err(BadRectangle)
    else if x + width > image.width || y + height > image.height then Err(ExceedsSource)
    else Ok(PngImage(width, height, CropGrid(image.rgba, image.width * 4, x * 4, y, width * 4, height)))
  }

  // ---- flat offsets ----

  lemma RestTwice<T>(g: seq<T>, m: nat, n: nat)
    ensures Rest(Rest(g, m), n) == Rest(g, m + n)
  {
  }

  /** Skipping rows is dropping a flat prefix. */
  lemma {:induction false} SkipIsOffset<T>(g: seq<T>, w: nat, rows: nat)
    ensures 0 <= rows * w && SkipRows(g, w, rows) == Rest(g, rows * w)
    decreases rows
  {
    if rows == 0 {
    } else {
      SkipIsOffset(Rest(g, w), w, rows - 1);
      RestTwice(g, w, (rows - 1) * w);
      MulStep(rows, w);
    }
  }

  /** Where column `x` of row `rows` starts in the flat buffer. */
  lemma RowAtOffset<T>(g: seq<T>, w: nat, rows: nat, x: nat, n: nat)
    ensures 0 <= rows * w && Slice(SkipRows(g, w, rows), x, x + n) == Slice(g, rows * w + x, rows * w + x + n)
  {
    SkipIsOffset(g, w, rows);
    SliceOfRest(g, rows * w, x, x + n);
  }

  lemma GridStep<T>(g: seq<T>, w: nat, x: nat, y: nat, cw: nat, n: nat, start: int, out: seq<T>, whole: seq<T>)
    requires n > 0 && start == y * w + x && out + CropGrid(g, w, x, y, cw, n) == whole
    ensures 0 <= start
    ensures out + Slice(g, start, start + cw) + CropGrid(g, w, x, y + 1, cw, n - 1) == whole
  {
    hide Slice, Rest;
    RowAtOffset(g, w, y, x, cw);
    SkipSum(g, w, y, 1);
    SkipOnce(SkipRows(g, w, y), w);
    ConcatAssociative(out, Slice(g, start, start + cw), CropGrid(g, w, x, y + 1, cw, n - 1));
  }

  lemma GridDone<T>(g: seq<T>, w: nat, x: nat, y: nat, cw: nat)
    ensures CropGrid(g, w, x, y, cw, 0) == []
  {
  }

  method CropImage(image: PngImage, x: int, y: int, width: int, height: int) returns (r: Result<PngImage, CropError>)
    ensures r == Crop(image, x, y, width, height)
  {
    if x < 0 || y < 0 || width <= 0 || height <= 0 {
      return Err(BadRectangle);
    }
    if x + width > image.width || y + height > image.height {
      return Err(ExceedsSource);
    }
    hide Slice, CropGrid;
    var out := [];
    var rowBytes := image.width * 4;
    ghost var whole := CropGrid(image.rgba, rowBytes, x * 4, y, width * 4, height);
    for row := y to y + height
      invariant out + CropGrid(image.rgba, rowBytes, x * 4, row, width * 4, y + height - row) == whole
    {
      var start := row * rowBytes + x * 4;
      GridStep(image.rgba, rowBytes, x * 4, row, width * 4, y + height - row, start, out, whole);
      out := out + Slice(image.rgba, start, start + width * 4);
    }
    GridDone(image.rgba, rowBytes, x * 4, y + height, width * 4);
    assert out + [] == out;
    return Ok(PngImage(width, height, out));
  }

  // ---- grids ----

  lemma MulNonNegative(a: nat, b: nat)
    ensures 0 <= a * b
  {
  }

  lemma MulCommutes(a: nat, b: nat)
    ensures a * b == b * a
  {
  }

  lemma MulAtMost(a: nat, b: nat, w: nat)
    requires a <= b
    ensures a * w <= b * w
  {
  }

  ghost predicate HasRows<T>(g: seq<T>, w: nat, rows: nat)
    decreases rows
  {
    rows == 0 || (w <= |g| && HasRows(g[w..], w, rows - 1))
  }

  /** A grid with at least `rows` rows of width `w` has at least `rows * w` elements. */
  lemma {:induction false} HasRowsLength<T>(g: seq<T>, w: nat, rows: nat)
    ensures HasRows(g, w, rows) <==> rows * w <= |g|
    decreases rows
  {
    if rows == 0 {
    } else {
      MulStep(rows, w);
      MulNonNegative(rows - 1, w);
      if w <= |g| {
        HasRowsLength(g[w..], w, rows - 1);
      }
    }
  }

  lemma SkipOnce<T>(g: seq<T>, w: nat)
    ensures SkipRows(g, w, 1) == Rest(g, w)
  {
  }

  lemma {:induction false} SkipSum<T>(g: seq<T>, w: nat, a: nat, b: nat)
    ensures SkipRows(g, w, a + b) == SkipRows(SkipRows(g, w, a), w, b)
    decreases a
  {
    if a == 0 {
    } else {
      SkipSum(Rest(g, w), w, a - 1, b);
    }
  }

  lemma {:induction false} SkipKeepsRows<T>(g: seq<T>, w: nat, a: nat, b: nat)
    requires HasRows(g, w, a + b)
    ensures HasRows(SkipRows(g, w, a), w, b)
    decreases a
  {
    if a == 0 {
    } else {
      SkipKeepsRows(g[w..], w, a - 1, b);
    }
  }

  /** The crop's own rows: skipping some of them is cropping from further down. */
  lemma {:induction false} SkipCropped<T>(g: seq<T>, w: nat, x: nat, cw: nat, ch: nat, k: nat)
    requires HasRows(g, w, ch) && x + cw <= w && k <= ch
    ensures SkipRows(CropRows(g, w, x, cw, ch), cw, k) == CropRows(SkipRows(g, w, k), w, x, cw, ch - k)
    decreases k
  {
    hide CropRows;
    if k == 0 {
    } else {
      hide SkipRows;
      SkipCropped(g[w..], w, x, cw, ch - 1, k - 1);
      SkipCroppedRow(g, w, x, cw, ch, k);
      SkipStep(g, w, k);
    }
  }

  lemma SkipCroppedRow<T>(g: seq<T>, w: nat, x: nat, cw: nat, ch: nat, k: nat)
    requires HasRows(g, w, ch) && x + cw <= w && 0 < k <= ch
    ensures w <= |g|
    ensures SkipRows(CropRows(g, w, x, cw, ch), cw, k) == SkipRows(CropRows(g[w..], w, x, cw, ch - 1), cw, k - 1)
  {
    hide CropRows, SkipRows;
    CropRowsCons(g, w, x, cw, ch);
    var row, below := g[x..x + cw], CropRows(g[w..], w, x, cw, ch - 1);
    RestOfRow(row, below);
    SkipStep(row + below, cw, k);
  }

  lemma SkipStep<T>(g: seq<T>, w: nat, k: nat)
    requires k > 0
    ensures SkipRows(g, w, k) == SkipRows(Rest(g, w), w, k - 1)
  {
  }

  lemma {:induction false} CropLength<T>(g: seq<T>, w: nat, x: nat, cw: nat, ch: nat)
    requires HasRows(g, w, ch) && x + cw <= w
    ensures |CropRows(g, w, x, cw, ch)| == ch * cw
    decreases ch
  {
    if ch == 0 {
    } else {
      CropLength(g[w..], w, x, cw, ch - 1);
      MulStep(ch, cw);
    }
  }

  lemma CropRowsCons<T>(g: seq<T>, w: nat, x: nat, cw: nat, ch: nat)
    requires HasRows(g, w, ch) && x + cw <= w && ch > 0
    ensures CropRows(g, w, x, cw, ch) == g[x..x + cw] + CropRows(g[w..], w, x, cw, ch - 1)
  {
  }

  /** Any stretch of any row of a crop is the stretch `x` columns further right in the source. */
  lemma SelectInGrid<T>(g: seq<T>, w: nat, x: nat, cw: nat, ch: nat, i: nat, j: nat, n: nat)
    requires HasRows(g, w, ch) && x + cw <= w && i + n <= cw && j < ch
    ensures var c, s := SkipRows(CropRows(g, w, x, cw, ch), cw, j), SkipRows(g, w, j);
            Slice(c, i, i + n) == Slice(s, x + i, x + i + n) && |Slice(c, i, i + n)| == n
  {
    SkipCropped(g, w, x, cw, ch, j);
    SkipKeepsRows(g, w, j, ch - j);
    var s := SkipRows(g, w, j);
    CropRowsCons(s, w, x, cw, ch - j);
    SliceInRow(s, CropRows(s[w..], w, x, cw, ch - j - 1), x, cw, i, n);
  }

  lemma CropAllStep<T>(g: seq<T>, w: nat, h: nat)
    requires w <= |g| && h > 0 && CropRows(g[w..], w, 0, w, h - 1) == g[w..]
    ensures CropRows(g, w, 0, w, h) == g
  {
    hide CropRows;
    CropRowsUnfold(g, w, 0, w, h);
    SplitAt(g, w);
    SliceOfRow(g[..w], g[w..], 0, w);
  }

  /** Cropping a grid to all of its rows and columns changes nothing. */
  lemma {:induction false} CropAll<T>(g: seq<T>, w: nat, h: nat)
    requires |g| == h * w
    ensures CropRows(g, w, 0, w, h) == g
    decreases h
  {
    if h == 0 {
    } else {
      MulStep(h, w);
      MulNonNegative(h - 1, w);
      CropAll(g[w..], w, h - 1);
      CropAllStep(g, w, h);
    }
  }

  lemma SliceOfRow<T>(row: seq<T>, rest: seq<T>, x: nat, n: nat)
    requires x + n <= |row|
    ensures Slice(row + rest, x, x + n) == row[x..x + n]
  {
  }

  lemma RestOfRow<T>(row: seq<T>, rest: seq<T>)
    ensures Rest(row + rest, |row|) == rest
  {
  }

  lemma SliceInRow<T>(g: seq<T>, rest: seq<T>, x: nat, cw: nat, x2: nat, cw2: nat)
    requires x + cw <= |g| && x2 + cw2 <= cw
    ensures Slice(g[x..x + cw] + rest, x2, x2 + cw2) == Slice(g, x + x2, x + x2 + cw2)
  {
    SliceOfRow(g[x..x + cw], rest, x2, cw2);
    SliceOfSlice(g, x, x + cw, x2, x2 + cw2);
  }

  lemma CropRowsUnfold<T>(g: seq<T>, w: nat, x: nat, cw: nat, ch: nat)
    requires ch > 0
    ensures CropRows(g, w, x, cw, ch) == Slice(g, x, x + cw) + CropRows(Rest(g, w), w, x, cw, ch - 1)
  {
  }

  lemma CropTwiceStep<T>(g: seq<T>, w: nat, x: nat, cw: nat, ch: nat, x2: nat, cw2: nat, ch2: nat)
    requires HasRows(g, w, ch) && x + cw <= w && x2 + cw2 <= cw && 0 < ch2 <= ch
    requires CropRows(CropRows(g[w..], w, x, cw, ch - 1), cw, x2, cw2, ch2 - 1)
          == CropRows(g[w..], w, x + x2, cw2, ch2 - 1)
    ensures CropRows(CropRows(g, w, x, cw, ch), cw, x2, cw2, ch2) == CropRows(g, w, x + x2, cw2, ch2)
  {
    hide CropRows, Slice;
    var row, rest := g[x..x + cw], CropRows(g[w..], w, x, cw, ch - 1);
    CropRowsCons(g, w, x, cw, ch);
    CropRowsUnfold(row + rest, cw, x2, cw2, ch2);
    CropRowsUnfold(g, w, x + x2, cw2, ch2);
    RestOfRow(row, rest);
    SliceInRow(g, rest, x, cw, x2, cw2);
  }

  /** Cropping a crop is one crop at the summed column offsets. */
  lemma {:induction false} CropTwice<T>(g: seq<T>, w: nat, x: nat, cw: nat, ch: nat, x2: nat, cw2: nat, ch2: nat)
    requires HasRows(g, w, ch) && x + cw <= w && x2 + cw2 <= cw && ch2 <= ch
    ensures CropRows(CropRows(g, w, x, cw, ch), cw, x2, cw2, ch2) == CropRows(g, w, x + x2, cw2, ch2)
    decreases ch2
  {
    if ch2 == 0 {
    } else {
      CropTwice(g[w..], w, x, cw, ch - 1, x2, cw2, ch2 - 1);
      CropTwiceStep(g, w, x, cw, ch, x2, cw2, ch2);
    }
  }

  // ---- images ----

  lemma CropFits(image: PngImage, x: int, y: int, width: int, height: int)
    requires image.Valid() && Crop(image, x, y, width, height).Ok?
    ensures HasRows(image.rgba, image.width * 4, y + height)
    ensures HasRows(SkipRows(image.rgba, image.width * 4, y), image.width * 4, height)
  {
    var w := image.width * 4;
    MulShuffle(image.height, image.width);
    MulAtMost(y + height, image.height, w);
    HasRowsLength(image.rgba, w, y + height);
    SkipKeepsRows(image.rgba, w, y, height);
  }

  /** A crop of a valid image is valid. */
  lemma CropIsValid(image: PngImage, x: int, y: int, width: int, height: int)
    requires image.Valid() && Crop(image, x, y, width, height).Ok?
    ensures Crop(image, x, y, width, height).value.Valid()
  {
    CropFits(image, x, y, width, height);
    CropLength(SkipRows(image.rgba, image.width * 4, y), image.width * 4, x * 4, width * 4, height);
    MulShuffle(height, width);
  }

  /** The bytes of `n` pixels starting at column `x` of row `y`, by flat offset. */
  function Stretch(image: PngImage, x: nat, y: nat, n: nat): seq<Byte> {
    Slice(image.rgba, y * (image.width * 4) + x * 4, y * (image.width * 4) + x * 4 + n * 4)
  }

  /** Every stretch of pixels of a crop is the stretch at the shifted place in the source. */
  lemma CropSelects(image: PngImage, x: int, y: int, width: int, height: int, i: nat, j: nat, n: nat)
    requires image.Valid() && Crop(image, x, y, width, height).Ok? && j < height && i + n <= width
    ensures |Stretch(Crop(image, x, y, width, height).value, i, j, n)| == n * 4
    ensures Stretch(Crop(image, x, y, width, height).value, i, j, n) == Stretch(image, x + i, y + j, n)
  {
    hide CropRows, SkipRows, HasRows, Slice;
    var w, cw := image.width * 4, width * 4;
    var from := SkipRows(image.rgba, w, y);
    CropFits(image, x, y, width, height);
    SelectInGrid(from, w, x * 4, cw, height, i * 4, j, n * 4);
    SkipSum(image.rgba, w, y, j);
    RowAtOffset(CropRows(from, w, x * 4, cw, height), cw, j, i * 4, n * 4);
    RowAtOffset(image.rgba, w, y + j, (x + i) * 4, n * 4);
    assert (x + i) * 4 == x * 4 + i * 4;
  }

  ghost predicate InPicture(image: PngImage, column: int, row: int) {
    0 <= column < image.width && 0 <= row < image.height
  }

  /** Exactly the rectangles that are cut: those that hold pixels, all of them in the picture. */
  lemma CropAccepts(image: PngImage, x: int, y: int, width: int, height: int)
    ensures Crop(image, x, y, width, height).Ok? <==>
            && width > 0 && height > 0
            && forall column, row | x <= column < x + width && y <= row < y + height :: InPicture(image, column, row)
    ensures Crop(image, x, y, width, height).Ok? ==>
              var cut := Crop(image, x, y, width, height).value; cut.width == width && cut.height == height
    ensures Crop(image, x, y, width, height) == Err(BadRectangle) <==> x < 0 || y < 0 || width <= 0 || height <= 0
  {
    hide CropGrid;
    assert width > 0 && height > 0 && (!InPicture(image, x, y) || !InPicture(image, x + width - 1, y + height - 1)) ==>
             Crop(image, x, y, width, height).Err?;
  }

  /** Channel `k` of pixel (p, r) of a crop is that of pixel (x + p, y + r) of the source. */
  lemma CropPixel(image: PngImage, x: int, y: int, width: int, height: int, p: nat, r: nat, k: nat)
    requires image.Valid() && Crop(image, x, y, width, height).Ok? && p < width && r < height && k < 4
    ensures var cut := Crop(image, x, y, width, height).value;
            var here, there := 4 * (r * width + p) + k, 4 * ((y + r) * image.width + (x + p)) + k;
            0 <= here < |cut.rgba| && 0 <= there < |image.rgba| && cut.rgba[here] == image.rgba[there]
  {
    hide Crop, Stretch;
    var cut := Crop(image, x, y, width, height).value;
    CropIsValid(image, x, y, width, height);
    CropAccepts(image, x, y, width, height);
    CropSelects(image, x, y, width, height, p, r, 1);
    assert InPicture(image, x + p, y + r);
    PixelOfStretch(cut, p, r, k);
    PixelOfStretch(image, x + p, y + r, k);
  }

  lemma PixelOfStretch(image: PngImage, p: nat, r: nat, k: nat)
    requires image.Valid() && p < image.width && r < image.height && k < 4
    ensures 0 <= 4 * (r * image.width + p) + k < |image.rgba| && |Stretch(image, p, r, 1)| == 4
    ensures Stretch(image, p, r, 1)[k] == image.rgba[4 * (r * image.width + p) + k]
  {
    hide Slice;
    PixelIndex(image.width, image.height, r, p);
    FourTimes(r, image.width, p);
  }

  lemma FourTimes(r: nat, w: nat, p: nat)
    ensures r * (w * 4) + p * 4 == 4 * (r * w + p) && r * (w * 4) >= 0
  {
  }

  /** The full-size crop of a non-empty image is the image. */
  lemma CropIdentity(image: PngImage)
    requires image.Valid() && image.width > 0 && image.height > 0
    ensures Crop(image, 0, 0, image.width, image.height) == Ok(image)
  {
    MulShuffle(image.height, image.width);
    CropAll(image.rgba, image.width * 4, image.height);
  }

  /** Cropping a crop is cropping once, at the summed offsets. */
  lemma CropOfCrop(image: PngImage, x: int, y: int, width: int, height: int, x2: int, y2: int, width2: int,
                   height2: int)
    requires image.Valid() && Crop(image, x, y, width, height).Ok?
    requires Crop(Crop(image, x, y, width, height).value, x2, y2, width2, height2).Ok?
    ensures Crop(Crop(image, x, y, width, height).value, x2, y2, width2, height2)
         == Crop(image, x + x2, y + y2, width2, height2)
  {
    var w, cw := image.width * 4, width * 4;
    var from := SkipRows(image.rgba, w, y);
    CropFits(image, x, y, width, height);
    SkipCropped(from, w, x * 4, cw, height, y2);
    SkipKeepsRows(from, w, y2, height - y2);
    SkipSum(image.rgba, w, y, y2);
    CropTwice(SkipRows(from, w, y2), w, x * 4, cw, height - y2, x2 * 4, width2 * 4, height2);
    assert x * 4 + x2 * 4 == (x + x2) * 4;
  }

  // ---- cropping and diffing ----

  /** `s` is obtained from `t` by leaving elements out. */
  ghost predicate Subsequence<T(!new)>(s: seq<T>, t: seq<T>) {
    if s == [] then true
    else if t == [] then false
    else
      || Subsequence(s, t[..|t| - 1])
      || (s[|s| - 1] == t[|t| - 1] && Subsequence(s[..|s| - 1], t[..|t| - 1]))
  }

  /** Leaving pixels out lowers none of the three measures' bounds. */
  lemma {:induction false} SubsequenceMeasures(s: seq<nat>, t: seq<nat>)
    requires Subsequence(s, t)
    ensures Changed(s) <= Changed(t) && Total(s) <= Total(t) && Max(s) <= Max(t)
  {
    if s == [] {
    } else {
      if Subsequence(s, t[..|t| - 1]) {
        SubsequenceMeasures(s, t[..|t| - 1]);
      } else {
        SubsequenceMeasures(s[..|s| - 1], t[..|t| - 1]);
      }
    }
  }

  lemma {:induction false} SubsequenceAppend<T(!new)>(s: seq<T>, t: seq<T>, u: seq<T>, v: seq<T>)
    requires Subsequence(s, t) && Subsequence(u, v)
    ensures Subsequence(s + u, t + v)
    decreases |v|
  {
    if v == [] {
      assert s + u == s && t + v == t;
    } else {
      var v' := v[..|v| - 1];
      assert (t + v)[..|t + v| - 1] == t + v';
      if Subsequence(u, v') {
        SubsequenceAppend(s, t, u, v');
      } else {
        var u' := u[..|u| - 1];
        SubsequenceAppend(s, t, u', v');
        assert (s + u)[..|s + u| - 1] == s + u';
      }
    }
  }

  lemma {:induction false} SubsequenceSelf<T(!new)>(s: seq<T>)
    ensures Subsequence(s, s) && Subsequence([], s)
  {
    if s == [] {
    } else {
      SubsequenceSelf(s[..|s| - 1]);
    }
  }

  lemma StretchIsSubsequence<T(!new)>(s: seq<T>, i: nat, j: nat)
    requires i <= j <= |s|
    ensures Subsequence(s[i..j], s)
  {
    SplitAt(s, j);
    SplitAt(s[..j], i);
    SubsequenceOfSuffix(s[..j][..i], s[..j][i..]);
    SubsequenceOfPrefix(s[..j], s[..j][i..], s[j..]);
    SliceOfPrefix(s, j, i, j);
  }

  lemma SubsequenceOfSuffix<T(!new)>(a: seq<T>, b: seq<T>)
    ensures Subsequence(b, a + b)
  {
    SubsequenceSelf(a);
    SubsequenceSelf(b);
    SubsequenceAppend([], a, b, b);
    assert [] + b == b;
  }

  lemma SubsequenceOfPrefix<T(!new)>(a: seq<T>, s: seq<T>, b: seq<T>)
    requires Subsequence(s, a)
    ensures Subsequence(s, a + b)
  {
    SubsequenceSelf(b);
    SubsequenceAppend(s, a, [], b);
    assert s + [] == s;
  }

  lemma {:induction false} CropIsSubsequence<T(!new)>(g: seq<T>, w: nat, x: nat, cw: nat, ch: nat)
    requires HasRows(g, w, ch) && x + cw <= w
    ensures Subsequence(CropRows(g, w, x, cw, ch), g)
    decreases ch
  {
    if ch == 0 {
      SubsequenceSelf(g);
    } else {
      hide CropRows;
      StretchIsSubsequence(g[..w], x, x + cw);
      CropIsSubsequence(g[w..], w, x, cw, ch - 1);
      SubsequenceAppend(g[..w][x..x + cw], g[..w], CropRows(g[w..], w, x, cw, ch - 1), g[w..]);
      CropRowsCons(g, w, x, cw, ch);
      SplitAt(g, w);
      SliceOfPrefix(g, w, x, x + cw);
    }
  }

  lemma DeltasOfStretch(a: seq<Byte>, b: seq<Byte>, i: nat, j: nat)
    requires |a| % 4 == 0 && |a| == |b| && i <= j <= |a| / 4
    ensures Deltas(a[4 * i..4 * j], b[4 * i..4 * j]) == Deltas(a, b)[i..j]
  {
    hide Apart;
    var part := Deltas(a[4 * i..4 * j], b[4 * i..4 * j]);
    assert |part| == j - i;
    forall p | 0 <= p < j - i
      ensures part[p] == Deltas(a, b)[i + p]
    {
      assert 4 * i + 4 * p == 4 * (i + p);
    }
  }

  lemma DeltasAppend(a: seq<Byte>, b: seq<Byte>, c: seq<Byte>, d: seq<Byte>)
    requires |a| % 4 == 0 && |a| == |b| && |c| % 4 == 0 && |c| == |d|
    ensures Deltas(a + c, b + d) == Deltas(a, b) + Deltas(c, d)
  {
    var both, n := Deltas(a + c, b + d), |a| / 4;
    DeltasOfStretch(a + c, b + d, 0, n);
    DeltasOfStretch(a + c, b + d, n, |both|);
    assert (a + c)[4 * 0..4 * n] == a && (b + d)[4 * 0..4 * n] == b;
    assert (a + c)[4 * n..4 * |both|] == c && (b + d)[4 * n..4 * |both|] == d;
    assert both == both[0..n] + both[n..|both|];
  }

  ghost predicate SameShape(a: seq<Byte>, b: seq<Byte>) {
    |a| % 4 == 0 && |a| == |b|
  }

  lemma DeltasOfTail(a: seq<Byte>, b: seq<Byte>, w: nat)
    requires SameShape(a, b) && w <= |a| / 4
    ensures Deltas(a[w * 4..], b[w * 4..]) == Deltas(a, b)[w..]
  {
    hide Delta;
    var n, ds := |a| / 4, Deltas(a, b);
    DeltasOfStretch(a, b, w, n);
    assert a[4 * w..4 * n] == a[w * 4..] && b[4 * w..4 * n] == b[w * 4..] && ds[w..n] == ds[w..];
  }

  lemma {:induction false} BytesHaveRows(a: seq<Byte>, b: seq<Byte>, w: nat, rows: nat)
    requires SameShape(a, b) && HasRows(Deltas(a, b), w, rows)
    ensures HasRows(a, w * 4, rows) && HasRows(b, w * 4, rows)
    decreases rows
  {
    if rows == 0 {
    } else {
      DeltasOfTail(a, b, w);
      BytesHaveRows(a[w * 4..], b[w * 4..], w, rows - 1);
    }
  }

  lemma DeltasOfRowAndRest(a: seq<Byte>, b: seq<Byte>, x: nat, cw: nat, ta: seq<Byte>, tb: seq<Byte>)
    requires SameShape(a, b) && SameShape(ta, tb) && x + cw <= |a| / 4
    ensures var ca, cb := a[x * 4..x * 4 + cw * 4] + ta, b[x * 4..x * 4 + cw * 4] + tb;
            SameShape(ca, cb) && Deltas(ca, cb) == Deltas(a, b)[x..x + cw] + Deltas(ta, tb)
  {
    DeltasOfStretch(a, b, x, x + cw);
    assert a[4 * x..4 * (x + cw)] == a[x * 4..x * 4 + cw * 4] && b[4 * x..4 * (x + cw)] == b[x * 4..x * 4 + cw * 4];
    DeltasAppend(a[x * 4..x * 4 + cw * 4], b[x * 4..x * 4 + cw * 4], ta, tb);
  }

  /** Diffing two crops is cropping the diff. */
  lemma {:induction false} DeltasOfCrops(a: seq<Byte>, b: seq<Byte>, w: nat, x: nat, cw: nat, ch: nat)
    requires SameShape(a, b) && HasRows(Deltas(a, b), w, ch) && x + cw <= w
    ensures var ca, cb := CropRows(a, w * 4, x * 4, cw * 4, ch), CropRows(b, w * 4, x * 4, cw * 4, ch);
            SameShape(ca, cb) && Deltas(ca, cb) == CropRows(Deltas(a, b), w, x, cw, ch)
    decreases ch
  {
    if ch == 0 {
    } else {
      hide Delta, Slice, CropRows;
      DeltasOfTail(a, b, w);
      DeltasOfCrops(a[w * 4..], b[w * 4..], w, x, cw, ch - 1);
      BytesHaveRows(a, b, w, ch);
      CropRowsCons(a, w * 4, x * 4, cw * 4, ch);
      CropRowsCons(b, w * 4, x * 4, cw * 4, ch);
      CropRowsCons(Deltas(a, b), w, x, cw, ch);
      DeltasOfRowAndRest(a, b, x, cw, CropRows(a[w * 4..], w * 4, x * 4, cw * 4, ch - 1),
                         CropRows(b[w * 4..], w * 4, x * 4, cw * 4, ch - 1));
    }
  }

  lemma {:induction false} DeltasOfSkipped(a: seq<Byte>, b: seq<Byte>, w: nat, rows: nat)
    requires SameShape(a, b) && HasRows(Deltas(a, b), w, rows)
    ensures SameShape(SkipRows(a, w * 4, rows), SkipRows(b, w * 4, rows))
    ensures Deltas(SkipRows(a, w * 4, rows), SkipRows(b, w * 4, rows)) == SkipRows(Deltas(a, b), w, rows)
    decreases rows
  {
    if rows == 0 {
    } else {
      hide Delta;
      DeltasOfTail(a, b, w);
      DeltasOfSkipped(a[w * 4..], b[w * 4..], w, rows - 1);
    }
  }

  lemma {:induction false} SkipIsSubsequence<T(!new)>(g: seq<T>, w: nat, rows: nat)
    requires HasRows(g, w, rows)
    ensures Subsequence(SkipRows(g, w, rows), g)
    decreases rows
  {
    SubsequenceSelf(g);
    if rows == 0 {
    } else {
      var kept := SkipRows(g[w..], w, rows - 1);
      SkipIsSubsequence(g[w..], w, rows - 1);
      SubsequenceSelf(g[..w]);
      SubsequenceAppend([], g[..w], kept, g[w..]);
      assert [] + kept == kept;
      SplitAt(g, w);
    }
  }

  /** Cropping never makes a diff worse: no measure of the crops exceeds that of the whole images. */
  lemma CropNeverWorsensDiff(a: PngImage, b: PngImage, x: int, y: int, width: int, height: int)
    requires Comparable(a, b) && Crop(a, x, y, width, height).Ok?
    ensures Crop(b, x, y, width, height).Ok?
    ensures var ca, cb := Crop(a, x, y, width, height).value, Crop(b, x, y, width, height).value;
            && Comparable(ca, cb)
            && Changed(Deltas(ca.rgba, cb.rgba)) <= Changed(Deltas(a.rgba, b.rgba))
            && Total(Deltas(ca.rgba, cb.rgba)) <= Total(Deltas(a.rgba, b.rgba))
            && Max(Deltas(ca.rgba, cb.rgba)) <= Max(Deltas(a.rgba, b.rgba))
  {
    hide Deltas, Changed, Total, Max, CropRows, SkipRows, HasRows;
    CropIsValid(a, x, y, width, height);
    CropIsValid(b, x, y, width, height);
    var ds, w := Deltas(a.rgba, b.rgba), a.width;
    MulCommutes(w, a.height);
    MulAtMost(y + height, a.height, w);
    MulNonNegative(y, w);
    HasRowsLength(ds, w, y + height);
    SkipKeepsRows(ds, w, y, height);
    MulAtMost(y, y + height, w);
    HasRowsLength(ds, w, y);
    var kept := SkipRows(ds, w, y);
    SkipIsSubsequence(ds, w, y);
    DeltasOfSkipped(a.rgba, b.rgba, w, y);
    DeltasOfCrops(SkipRows(a.rgba, w * 4, y), SkipRows(b.rgba, w * 4, y), w, x, width, height);
    CropIsSubsequence(kept, w, x, width, height);
    SubsequenceMeasures(CropRows(kept, w, x, width, height), kept);
    SubsequenceMeasures(kept, ds);
  }
}
