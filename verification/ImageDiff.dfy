/** `diff_images`: per-pixel deltas and their summary, and the laws that make the diff a metric. */
module ImageDiff {
  import opened Prelude
  import opened PngDecoder

  datatype DiffError = DimensionMismatch | IndexOutOfRange

  datatype Diff = Diff(changed: nat, changedPct: real, avgDelta: int, maxDelta: nat)

  function Apart(x: Byte, y: Byte): nat {
    Abs((x as int) - (y as int))
  }

  /** The summed channel differences of pixel `p`, alpha included. */
  function Delta(a: seq<Byte>, b: seq<Byte>, p: nat): nat
    requires 4 * p + 3 < |a| && 4 * p + 3 < |b|
  {
    Apart(a[4 * p], b[4 * p]) + Apart(a[4 * p + 1], b[4 * p + 1])
    + Apart(a[4 * p + 2], b[4 * p + 2]) + Apart(a[4 * p + 3], b[4 * p + 3])
  }

  function Deltas(a: seq<Byte>, b: seq<Byte>): (ds: seq<nat>)
    requires |a| % 4 == 0 && |a| <= |b|
    ensures |ds| == |a| / 4
  {
    seq(|a| / 4, p requires 0 <= p < |a| / 4 => Delta(a, b, p))
  }

  function Changed(ds: seq<nat>): nat {
    if ds == [] then 0 else Changed(ds[..|ds| - 1]) + if ds[|ds| - 1] > 0 then 1 else 0
  }

  function Total(ds: seq<nat>): nat {
    if ds == [] then 0 else Total(ds[..|ds| - 1]) + ds[|ds| - 1]
  }

  function Max(ds: seq<nat>): nat {
    if ds == [] then 0
    else
      var m := Max(ds[..|ds| - 1]);
      if m < ds[|ds| - 1] then ds[|ds| - 1] else m
  }

  /** Round to the nearest integer, halves to the even one. */
  function RoundHalfEven(x: real): int {
    var below := x.Floor;
    var part := x - below as real;
    if part < 0.5 then below
    else if part > 0.5 then below + 1
    else if below % 2 == 0 then below else below + 1
  }

  function PerPixel(n: nat, pixels: nat): real {
    if pixels == 0 then 0.0 else n as real / pixels as real
  }

  function Summary(ds: seq<nat>, pixels: nat): Diff {
    Diff(Changed(ds), PerPixel(Changed(ds), pixels) * 100.0, RoundHalfEven(PerPixel(Total(ds), pixels)), Max(ds))
  }

  function DiffOf(a: PngImage, b: PngImage): Result<Diff, DiffError> {
    if a.width != b.width || a.height != b.height then Err(DimensionMismatch)
    else if |a.rgba| % 4 != 0 || |b.rgba| < |a.rgba| then Err(IndexOutOfRange)
    else Ok(Summary(Deltas(a.rgba, b.rgba), a.width * a.height))
  }

  lemma NoPixels()
    ensures Changed([]) == Total([]) == Max([]) == 0
  {
  }

  lemma OneMorePixel(ds: seq<nat>, n: nat)
    requires n < |ds|
    ensures Changed(ds[..n + 1]) == Changed(ds[..n]) + if ds[n] > 0 then 1 else 0
    ensures Total(ds[..n + 1]) == Total(ds[..n]) + ds[n]
    ensures Max(ds[..n + 1]) == if Max(ds[..n]) < ds[n] then ds[n] else Max(ds[..n])
  {
    assert ds[..n + 1][..n] == ds[..n];
  }

  /** The pixel loop: the three measures, or None where a pixel's four bytes are not all there. */
  method Measure(a: seq<Byte>, b: seq<Byte>) returns (r: Option<(nat, nat, nat)>)
    ensures r == if |a| % 4 != 0 || |b| < |a| then None
                 else Some((Changed(Deltas(a, b)), Total(Deltas(a, b)), Max(Deltas(a, b))))
  {
    hide Changed, Total, Max;
    var changed: nat, totalDelta: nat, maxDelta: nat := 0, 0, 0;
    ghost var fits := |a| % 4 == 0 && |a| <= |b|;
    ghost var ds := if fits then Deltas(a, b) else [];
    ghost var p := 0;
    var i := 0;
    NoPixels();
    while i < |a|
      invariant i == 4 * p <= |a| && i <= |b|
      invariant fits ==> changed == Changed(ds[..p]) && totalDelta == Total(ds[..p]) && maxDelta == Max(ds[..p])
    {
      if i + 3 >= |a| || i + 3 >= |b| {
        return None;
      }
      var delta :=
        Apart(a[i], b[i]) + Apart(a[i + 1], b[i + 1]) + Apart(a[i + 2], b[i + 2]) + Apart(a[i + 3], b[i + 3]);
      if fits {
        OneMorePixel(ds, p);
        assert delta == Delta(a, b, p) == ds[p];
      }
      if delta != 0 {
        changed := changed + 1;
        totalDelta := totalDelta + delta;
        maxDelta := if maxDelta < delta then delta else maxDelta;
      }
      i, p := i + 4, p + 1;
    }
    assert ds[..p] == ds;
    return Some((changed, totalDelta, maxDelta));
  }

  method DiffImages(a: PngImage, b: PngImage) returns (r: Result<Diff, DiffError>)
    ensures r == DiffOf(a, b)
  {
    if a.width != b.width || a.height != b.height {
      return Err(DimensionMismatch);
    }
    var pixels := a.width * a.height;
    var measured := Measure(a.rgba, b.rgba);
    if measured.None? {
      return Err(IndexOutOfRange);
    }
    var (changed, totalDelta, maxDelta) := measured.value;
    return Ok(Diff(changed, PerPixel(changed, pixels) * 100.0, RoundHalfEven(PerPixel(totalDelta, pixels)), maxDelta));
  }

  // ---- the metric laws ----

  ghost predicate Comparable(a: PngImage, b: PngImage) {
    a.Valid() && b.Valid() && a.width == b.width && a.height == b.height
  }

  lemma {:induction false} AllZero(ds: seq<nat>)
    ensures Changed(ds) == 0 <==> forall p | 0 <= p < |ds| :: ds[p] == 0
    ensures Total(ds) == 0 <==> forall p | 0 <= p < |ds| :: ds[p] == 0
    ensures Max(ds) == 0 <==> forall p | 0 <= p < |ds| :: ds[p] == 0
  {
    if ds == [] {
    } else {
      var init, last := ds[..|ds| - 1], ds[|ds| - 1];
      AllZero(init);
      assert ds == init + [last];
    }
  }

  lemma ZeroDelta(a: seq<Byte>, b: seq<Byte>, i: nat)
    requires i < |a| && |a| % 4 == 0 && |a| <= |b| && Delta(a, b, i / 4) == 0
    ensures a[i] == b[i]
  {
    var p := i / 4;
    assert Apart(a[4 * p], b[4 * p]) == Apart(a[4 * p + 1], b[4 * p + 1]) == 0;
    assert Apart(a[4 * p + 2], b[4 * p + 2]) == Apart(a[4 * p + 3], b[4 * p + 3]) == 0;
    assert i == 4 * p || i == 4 * p + 1 || i == 4 * p + 2 || i == 4 * p + 3;
  }

  lemma NoDeltaNoChange(a: PngImage, b: PngImage)
    requires Comparable(a, b)
    requires forall p | 0 <= p < |Deltas(a.rgba, b.rgba)| :: Deltas(a.rgba, b.rgba)[p] == 0
    ensures a == b
  {
    hide Delta;
    forall i | 0 <= i < |a.rgba|
      ensures a.rgba[i] == b.rgba[i]
    {
      assert Deltas(a.rgba, b.rgba)[i / 4] == 0;
      ZeroDelta(a.rgba, b.rgba, i);
    }
    assert a.rgba == b.rgba;
  }

  lemma ApartTriangle(x: Byte, y: Byte, z: Byte)
    ensures Apart(x, z) <= Apart(x, y) + Apart(y, z)
  {
  }

  lemma DeltaTriangle(a: seq<Byte>, b: seq<Byte>, c: seq<Byte>, p: nat)
    requires 4 * p + 3 < |a| && 4 * p + 3 < |b| && 4 * p + 3 < |c|
    ensures Delta(a, c, p) <= Delta(a, b, p) + Delta(b, c, p)
  {
    hide Apart;
    ApartTriangle(a[4 * p], b[4 * p], c[4 * p]);
    ApartTriangle(a[4 * p + 1], b[4 * p + 1], c[4 * p + 1]);
    ApartTriangle(a[4 * p + 2], b[4 * p + 2], c[4 * p + 2]);
    ApartTriangle(a[4 * p + 3], b[4 * p + 3], c[4 * p + 3]);
  }

  /** No pixel differs, in any of the three measures, exactly when the images are equal. */
  lemma ZeroIffEqual(a: PngImage, b: PngImage)
    requires Comparable(a, b)
    ensures var ds := Deltas(a.rgba, b.rgba);
            && (Changed(ds) == 0 <==> a == b)
            && (Total(ds) == 0 <==> a == b)
            && (Max(ds) == 0 <==> a == b)
  {
    var ds := Deltas(a.rgba, b.rgba);
    AllZero(ds);
    if forall p | 0 <= p < |ds| :: ds[p] == 0 {
      NoDeltaNoChange(a, b);
    }
  }

  lemma Symmetric(a: PngImage, b: PngImage)
    requires Comparable(a, b)
    ensures Deltas(a.rgba, b.rgba) == Deltas(b.rgba, a.rgba)
    ensures DiffOf(a, b) == DiffOf(b, a)
  {
    var there, back := Deltas(a.rgba, b.rgba), Deltas(b.rgba, a.rgba);
    forall p | 0 <= p < |there|
      ensures there[p] == back[p]
    {
    }
  }

  lemma {:induction false} TriangleSums(ac: seq<nat>, ab: seq<nat>, bc: seq<nat>)
    requires |ac| == |ab| == |bc| && forall p | 0 <= p < |ac| :: ac[p] <= ab[p] + bc[p]
    ensures Changed(ac) <= Changed(ab) + Changed(bc)
    ensures Total(ac) <= Total(ab) + Total(bc)
    ensures Max(ac) <= Max(ab) + Max(bc)
  {
    if ac == [] {
    } else {
      var n := |ac| - 1;
      TriangleSums(ac[..n], ab[..n], bc[..n]);
      assert ac[n] <= ab[n] + bc[n];
    }
  }

  lemma Triangle(a: PngImage, b: PngImage, c: PngImage)
    requires Comparable(a, b) && Comparable(b, c)
    ensures var ac, ab, bc := Deltas(a.rgba, c.rgba), Deltas(a.rgba, b.rgba), Deltas(b.rgba, c.rgba);
            && Changed(ac) <= Changed(ab) + Changed(bc)
            && Total(ac) <= Total(ab) + Total(bc)
            && Max(ac) <= Max(ab) + Max(bc)
  {
    hide Delta, Changed, Total, Max;
    var ac, ab, bc := Deltas(a.rgba, c.rgba), Deltas(a.rgba, b.rgba), Deltas(b.rgba, c.rgba);
    forall p | 0 <= p < |ac|
      ensures ac[p] <= ab[p] + bc[p]
    {
      DeltaTriangle(a.rgba, b.rgba, c.rgba, p);
    }
    TriangleSums(ac, ab, bc);
  }

  lemma {:induction false} MeasureBounds(ds: seq<nat>, bound: nat)
    requires forall p | 0 <= p < |ds| :: ds[p] <= bound
    ensures Changed(ds) <= |ds| && Max(ds) <= bound
    ensures Changed(ds) <= Total(ds) <= Changed(ds) * Max(ds)
  {
    if ds == [] {
    } else {
      var init, last := ds[..|ds| - 1], ds[|ds| - 1];
      MeasureBounds(init, bound);
      ProductGrows(Changed(init), Max(init), Max(ds));
    }
  }

  lemma ProductGrows(k: nat, m: nat, n: nat)
    requires m <= n
    ensures k * m <= k * n && (k + 1) * n == k * n + n
  {
  }

  /** The measures bound each other; four channels of at most 255 bound the largest. */
  lemma DiffBounds(a: PngImage, b: PngImage)
    requires Comparable(a, b)
    ensures var ds := Deltas(a.rgba, b.rgba);
            && Changed(ds) <= a.width * a.height
            && Changed(ds) <= Total(ds) <= Changed(ds) * Max(ds)
            && Max(ds) <= 1020
  {
    MeasureBounds(Deltas(a.rgba, b.rgba), 1020);
  }

  // ---- how far apart ----

  lemma {:induction false} TotalChanged(ds: seq<nat>, es: seq<nat>, p: nat)
    requires p < |ds| == |es| && forall q | 0 <= q < |ds| && q != p :: es[q] == ds[q]
    ensures Total(es) == Total(ds) - ds[p] + es[p]
    decreases |ds|
  {
    var n := |ds| - 1;
    if p == n {
      assert es[..n] == ds[..n];
    } else {
      TotalChanged(ds[..n], es[..n], p);
    }
  }

  /** Moving one channel of one image away from the other by `k` adds exactly `k` to that pixel's delta and to
      the total, and changes no other pixel's. Equal images differ by nothing, so this fixes every delta. */
  lemma ChannelMoved(a: seq<Byte>, b: seq<Byte>, i: nat, moved: Byte)
    requires |a| == |b| && |a| % 4 == 0 && i < |a|
    requires b[i] <= a[i] <= moved || moved <= a[i] <= b[i]
    ensures var ds, es, k := Deltas(a, b), Deltas(a[i := moved], b), Abs((moved as int) - (a[i] as int));
            && |es| == |ds| && (forall p | 0 <= p < |ds| && p != i / 4 :: es[p] == ds[p])
            && es[i / 4] == ds[i / 4] + k && Total(es) == Total(ds) + k
  {
    hide Total;
    var q := i / 4;
    assert i == 4 * q || i == 4 * q + 1 || i == 4 * q + 2 || i == 4 * q + 3;
    TotalChanged(Deltas(a, b), Deltas(a[i := moved], b), q);
  }

  lemma NothingMoved(a: seq<Byte>)
    requires |a| % 4 == 0
    ensures forall p | 0 <= p < |Deltas(a, a)| :: Deltas(a, a)[p] == 0
  {
  }

  /** The bound 1020 is attained, alpha included: clear black against opaque white. */
  lemma BlackAgainstWhite()
    ensures var black, white := PngImage(1, 1, [0, 0, 0, 0]), PngImage(1, 1, [255, 255, 255, 255]);
            DiffOf(black, white) == Ok(Diff(1, 100.0, 1020, 1020))
  {
    var ds := Deltas([0, 0, 0, 0], [255, 255, 255, 255]);
    assert ds == [1020] && ds[..0] == [];
    assert Changed(ds) == 1 && Total(ds) == 1020 && Max(ds) == 1020;
    assert PerPixel(1, 1) == 1.0 && PerPixel(1020, 1) == 1020.0;
    assert RoundHalfEven(1020.0) == 1020;
  }

  // ---- thresholds ----

  datatype Thresholds = Thresholds(maxChangedPct: real, maxAvgDelta: real, maxChannelDelta: int)

  const DEFAULTS := Thresholds(0.02, 0.5, 16)

  predicate Exceeds(d: Diff, t: Thresholds) {
    d.changedPct > t.maxChangedPct || d.avgDelta as real > t.maxAvgDelta || d.maxDelta > t.maxChannelDelta
  }

  /** Rounding goes to a nearest integer, and to the even one of two. */
  lemma RoundsToNearest(x: real)
    ensures var n := RoundHalfEven(x);
            && -0.5 <= n as real - x <= 0.5
            && (n as real - x == 0.5 || n as real - x == -0.5 ==> n % 2 == 0)
  {
  }

  /** For a limit of one half, testing the rounded average is testing the exact one. */
  lemma RoundedAverageTest(avg: real)
    ensures RoundHalfEven(avg) as real > 0.5 <==> avg > 0.5
  {
    var below := avg.Floor;
    if below >= 1 {
      assert RoundHalfEven(avg) >= 1;
    } else if below < 0 {
      assert RoundHalfEven(avg) <= 0;
    }
  }

  lemma QuotientAtMost(n: real, d: real, k: real)
    requires d > 0.0
    ensures n <= k * d <==> n / d <= k
  {
    var q := n / d;
    assert n == q * d;
    if q < k {
      assert 0.0 < (k - q) * d;
    } else if q > k {
      assert 0.0 < (q - k) * d;
    }
  }

  lemma ProductBound(changed: real, largest: real)
    requires 0.0 <= changed && largest <= 16.0
    ensures changed * largest <= changed * 16.0
  {
  }

  lemma RatioBound(total: real, changed: real, largest: real, pixels: real)
    requires pixels > 0.0 && 0.0 <= changed && largest <= 16.0
    requires 0.0 <= total <= changed * largest && changed / pixels * 100.0 <= 0.02
    ensures 0.0 <= total / pixels <= 0.0032
  {
    QuotientAtMost(changed, pixels, 0.0002);
    ProductBound(changed, largest);
    QuotientAtMost(total, pixels, 0.0032);
  }

  lemma AverageOfBounded(total: nat, changed: nat, largest: nat, pixels: nat)
    requires total <= changed * largest && largest <= 16 && PerPixel(changed, pixels) * 100.0 <= 0.02
    ensures 0.0 <= PerPixel(total, pixels) <= 0.0032
  {
    if pixels > 0 {
      assert (changed * largest) as real == changed as real * largest as real;
      RatioBound(total as real, changed as real, largest as real, pixels as real);
    }
  }

  lemma AverageBound(ds: seq<nat>, pixels: nat)
    requires Total(ds) <= Changed(ds) * Max(ds) && Max(ds) <= 16
    requires PerPixel(Changed(ds), pixels) * 100.0 <= 0.02
    ensures 0.0 <= PerPixel(Total(ds), pixels) <= 0.0032
  {
    AverageOfBounded(Total(ds), Changed(ds), Max(ds), pixels);
  }

  /** Under the default limits on changed pixels and largest delta the exact average is at most 0.0032,
      so the average test never decides. */
  lemma DefaultAverageNeverDecides(a: PngImage, b: PngImage)
    requires Comparable(a, b)
    requires DiffOf(a, b).value.changedPct <= DEFAULTS.maxChangedPct
    requires DiffOf(a, b).value.maxDelta <= DEFAULTS.maxChannelDelta
    ensures PerPixel(Total(Deltas(a.rgba, b.rgba)), a.width * a.height) <= 0.0032
    ensures DiffOf(a, b).value.avgDelta == 0
    ensures !Exceeds(DiffOf(a, b).value, DEFAULTS)
  {
    hide Deltas, Changed, Total, Max, PerPixel;
    DiffBounds(a, b);
    AverageBound(Deltas(a.rgba, b.rgba), a.width * a.height);
  }

  // ---- what the limits mean ----

  /** The pixel at place `p` differs in some channel. */
  ghost predicate PixelDiffers(a: PngImage, b: PngImage, p: nat)
    requires Comparable(a, b) && 4 * p + 3 < |a.rgba|
  {
    a.rgba[4 * p..4 * p + 4] != b.rgba[4 * p..4 * p + 4]
  }

  ghost function Differing(a: PngImage, b: PngImage): set<nat>
    requires Comparable(a, b)
  {
    set p: nat | p < |a.rgba| / 4 && PixelDiffers(a, b, p)
  }

  /** `n` is a nearest integer to `x`, the even one of two. */
  ghost predicate Nearest(x: real, n: int) {
    -0.5 <= n as real - x <= 0.5 && (n as real - x == 0.5 || n as real - x == -0.5 ==> n % 2 == 0)
  }

  ghost predicate Averages(total: nat, pixels: nat, n: int) {
    pixels > 0 && Nearest(total as real / pixels as real, n)
  }

  /** The limits, in terms of the pixels: at most so many in a hundred differ, none by more than the channel
      limit, and the average, rounded, is at most the average limit. A picture without pixels differs by 0. */
  ghost predicate Tolerable(a: PngImage, b: PngImage, t: Thresholds)
    requires Comparable(a, b)
  {
    var pixels, ds := a.width * a.height, Deltas(a.rgba, b.rgba);
    if pixels == 0 then 0.0 <= t.maxChangedPct && 0.0 <= t.maxAvgDelta && 0 <= t.maxChannelDelta
    else
      && 100.0 * |Differing(a, b)| as real <= t.maxChangedPct * pixels as real
      && (forall p | 0 <= p < |ds| :: ds[p] <= t.maxChannelDelta)
      && (exists n: int :: Averages(Total(ds), pixels, n) && n as real <= t.maxAvgDelta)
  }

  /** Exactly when no limit is exceeded. */
  lemma LimitsMean(a: PngImage, b: PngImage, t: Thresholds)
    requires Comparable(a, b)
    ensures !Exceeds(DiffOf(a, b).value, t) <==> Tolerable(a, b, t)
  {
    hide Deltas, Changed, Total, Max, PerPixel, RoundHalfEven, Differing, Averages;
    var pixels, ds := a.width * a.height, Deltas(a.rgba, b.rgba);
    assert DiffOf(a, b) == Ok(Summary(ds, pixels));
    hide DiffOf, Summary, Exceeds;
    SummaryExceeds(ds, pixels, t);
    if pixels == 0 {
      NothingToMeasure(ds);
    } else {
      ChangedIsDiffering(a, b);
      PercentTest(Changed(ds), pixels, t.maxChangedPct);
      MaxTest(ds, t.maxChannelDelta);
      AverageTest(Total(ds), pixels, t.maxAvgDelta);
    }
  }

  lemma SummaryExceeds(ds: seq<nat>, pixels: nat, t: Thresholds)
    ensures !Exceeds(Summary(ds, pixels), t) <==>
            && PerPixel(Changed(ds), pixels) * 100.0 <= t.maxChangedPct
            && RoundHalfEven(PerPixel(Total(ds), pixels)) as real <= t.maxAvgDelta
            && Max(ds) <= t.maxChannelDelta
  {
    hide Changed, Total, Max, PerPixel, RoundHalfEven;
  }

  lemma NothingToMeasure(ds: seq<nat>)
    ensures PerPixel(Changed(ds), 0) == 0.0 == PerPixel(Total(ds), 0) && RoundHalfEven(0.0) == 0
    ensures ds == [] ==> Max(ds) == 0
  {
  }

  /** Counting the non-zero deltas is counting their places. */
  lemma {:induction false} ChangedIsCount(ds: seq<nat>)
    ensures Changed(ds) == |set p: nat | p < |ds| && ds[p] > 0|
  {
    var places := set p: nat | p < |ds| && ds[p] > 0;
    if ds == [] {
      assert places == {};
    } else {
      var init := ds[..|ds| - 1];
      ChangedIsCount(init);
      var before := set p: nat | p < |init| && init[p] > 0;
      assert places == before + if ds[|ds| - 1] > 0 then {|ds| - 1} else {};
    }
  }

  lemma DeltaIffDiffers(a: PngImage, b: PngImage, p: nat)
    requires Comparable(a, b) && 4 * p + 3 < |a.rgba|
    ensures Deltas(a.rgba, b.rgba)[p] > 0 <==> PixelDiffers(a, b, p)
  {
    var x, y := a.rgba[4 * p..4 * p + 4], b.rgba[4 * p..4 * p + 4];
    assert x == [a.rgba[4 * p], a.rgba[4 * p + 1], a.rgba[4 * p + 2], a.rgba[4 * p + 3]];
    assert y == [b.rgba[4 * p], b.rgba[4 * p + 1], b.rgba[4 * p + 2], b.rgba[4 * p + 3]];
  }

  lemma ChangedIsDiffering(a: PngImage, b: PngImage)
    requires Comparable(a, b)
    ensures Changed(Deltas(a.rgba, b.rgba)) == |Differing(a, b)|
  {
    hide Changed, Deltas;
    var ds := Deltas(a.rgba, b.rgba);
    ChangedIsCount(ds);
    forall p: nat | p < |ds|
      ensures ds[p] > 0 <==> p in Differing(a, b)
    {
      DeltaIffDiffers(a, b, p);
    }
    assert (set p: nat | p < |ds| && ds[p] > 0) == Differing(a, b);
  }

  lemma PercentTest(changed: nat, pixels: nat, limit: real)
    requires pixels > 0
    ensures PerPixel(changed, pixels) * 100.0 <= limit <==> 100.0 * changed as real <= limit * pixels as real
  {
    var q, c, n := PerPixel(changed, pixels), changed as real, pixels as real;
    assert q * n == c;
    assert (q * 100.0) * n == 100.0 * c;
    ScaledAtMost(q * 100.0, limit, n);
  }

  lemma ScaledAtMost(x: real, y: real, n: real)
    requires n > 0.0
    ensures x <= y <==> x * n <= y * n
  {
    if x <= y {
      assert 0.0 <= (y - x) * n;
    } else {
      assert 0.0 < (x - y) * n;
    }
  }

  lemma {:induction false} MaxTest(ds: seq<nat>, limit: int)
    ensures ds != [] ==> (Max(ds) <= limit <==> forall p | 0 <= p < |ds| :: ds[p] <= limit)
    ensures ds == [] ==> Max(ds) == 0
  {
    if |ds| <= 1 {
    } else {
      var init := ds[..|ds| - 1];
      MaxTest(init, limit);
      assert ds == init + [ds[|ds| - 1]];
      if forall p | 0 <= p < |ds| :: ds[p] <= limit {
        assert forall p | 0 <= p < |init| :: init[p] == ds[p];
      }
    }
  }

  lemma NearestIsRounded(x: real, n: int)
    ensures Nearest(x, n) <==> n == RoundHalfEven(x)
  {
    RoundsToNearest(x);
    var r := RoundHalfEven(x);
    assert Nearest(x, n) && n != r ==> n == r + 1 || n == r - 1;
  }

  lemma AverageTest(total: nat, pixels: nat, limit: real)
    requires pixels > 0
    ensures RoundHalfEven(PerPixel(total, pixels)) as real <= limit <==>
            exists n: int :: Averages(total, pixels, n) && n as real <= limit
  {
    var x := total as real / pixels as real;
    forall n: int
      ensures Averages(total, pixels, n) <==> n == RoundHalfEven(x)
    {
      NearestIsRounded(x, n);
    }
    assert Averages(total, pixels, RoundHalfEven(x));
  }

  /** The default limits: at most one pixel in five thousand differs, none by more than 16. */
  lemma DefaultLimits(a: PngImage, b: PngImage)
    requires Comparable(a, b)
    ensures !Exceeds(DiffOf(a, b).value, DEFAULTS) <==>
            && 5000 * |Differing(a, b)| <= a.width * a.height
            && forall p | 0 <= p < |Deltas(a.rgba, b.rgba)| :: Deltas(a.rgba, b.rgba)[p] <= 16
  {
    hide Deltas, Changed, Total, Max, PerPixel, RoundHalfEven, Differing, Nearest;
    var pixels, ds := a.width * a.height, Deltas(a.rgba, b.rgba);
    ChangedIsDiffering(a, b);
    MaxTest(ds, 16);
    DiffBounds(a, b);
    if pixels == 0 {
      NothingToMeasure(ds);
    } else {
      PercentTest(Changed(ds), pixels, 0.02);
      assert 100.0 * Changed(ds) as real <= 0.02 * pixels as real <==> 5000 * Changed(ds) <= pixels;
    }
    if DiffOf(a, b).value.changedPct <= 0.02 && DiffOf(a, b).value.maxDelta <= 16 {
      DefaultAverageNeverDecides(a, b);
    }
  }
}
