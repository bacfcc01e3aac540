/** `validate`: the gate over the screenshot pairs, from file bytes to exit code. */
module DiffGate {
  import opened Prelude
  import opened PngDecoder
  import opened ImageDiff

  type File = seq<Byte>
  type Inflate = seq<Byte> -> Option<seq<Byte>>

  /** A current screenshot and its baseline; None where the file is absent. */
  datatype Pair = Pair(current: Option<File>, baseline: Option<File>)

  predicate Missing(p: Pair) {
    p.current.None? || p.baseline.None?
  }

  /** Both files decode, they can be compared, and no limit is exceeded. */
  predicate WithinLimits(current: File, baseline: File, inflate: Inflate, t: Thresholds) {
    var a, b := Decode(current, inflate), Decode(baseline, inflate);
    a.Ok? && b.Ok? && DiffOf(a.value, b.value).Ok? && !Exceeds(DiffOf(a.value, b.value).value, t)
  }

  /** Decoded pictures can be compared exactly when their announced sizes agree, and nothing else goes wrong. */
  lemma DecodedComparable(current: File, baseline: File, inflate: Inflate)
    requires Decode(current, inflate).Ok? && Decode(baseline, inflate).Ok?
    ensures var a, b := Decode(current, inflate).value, Decode(baseline, inflate).value;
            && (DiffOf(a, b).Ok? <==> Comparable(a, b))
            && (Comparable(a, b) <==> a.width == b.width && a.height == b.height)
            && (DiffOf(a, b).Ok? || DiffOf(a, b) == Err(DimensionMismatch))
  {
    hide Decode, Deltas, Summary;
    DecodedIsValid(current, inflate);
    DecodedIsValid(baseline, inflate);
  }

  /** What it takes to pass, in terms of the pixels: both files decode, to pictures of the same size, few
      enough pixels differ, none by too much, and the rounded average is small enough. */
  lemma WithinMeans(current: File, baseline: File, inflate: Inflate, t: Thresholds)
    ensures WithinLimits(current, baseline, inflate, t) <==>
            && Decode(current, inflate).Ok? && Decode(baseline, inflate).Ok?
            && var a, b := Decode(current, inflate).value, Decode(baseline, inflate).value;
               a.width == b.width && a.height == b.height && Comparable(a, b) && Tolerable(a, b, t)
  {
    hide Decode, DiffOf, Exceeds, Tolerable;
    if Decode(current, inflate).Ok? && Decode(baseline, inflate).Ok? {
      DecodedComparable(current, baseline, inflate);
      var a, b := Decode(current, inflate).value, Decode(baseline, inflate).value;
      if Comparable(a, b) {
        LimitsMean(a, b, t);
      }
    }
  }

  /** One pair of the loop: any decoding or comparison error counts as a failure. */
  method CheckPair(current: File, baseline: File, inflate: Inflate, t: Thresholds) returns (ok: bool)
    ensures ok <==> WithinLimits(current, baseline, inflate, t)
  {
    hide Decode, DiffOf;
    var a := ReadPng(current, inflate);
    if a.Err? {
      return false;
    }
    var b := ReadPng(baseline, inflate);
    if b.Err? {
      return false;
    }
    var d := DiffImages(a.value, b.value);
    if d.Err? {
      return false;
    }
    return !Exceeds(d.value, t);
  }

  /** The gate fails exactly when every file is there and some pair is not within limits. */
  method Validate(pairs: seq<Pair>, inflate: Inflate, t: Thresholds) returns (code: nat)
    ensures code == 0 || code == 1
    ensures code == 1 <==>
            && (forall i | 0 <= i < |pairs| :: !Missing(pairs[i]))
            && (exists i | 0 <= i < |pairs| ::
                  !WithinLimits(pairs[i].current.value, pairs[i].baseline.value, inflate, t))
  {
    hide WithinLimits;
    if exists i | 0 <= i < |pairs| :: Missing(pairs[i]) {
      return 0;
    }
    var fail := 0;
    for k := 0 to |pairs|
      invariant 0 <= fail
      invariant fail > 0 <==>
                exists i | 0 <= i < k :: !WithinLimits(pairs[i].current.value, pairs[i].baseline.value, inflate, t)
    {
      var ok := CheckPair(pairs[k].current.value, pairs[k].baseline.value, inflate, t);
      if !ok {
        fail := fail + 1;
      }
    }
    code := if fail > 0 then 1 else 0;
  }

  /** Re-encoding a screenshot never trips the gate: files that carry the same opaque picture are
      within every non-negative limit, whatever the encoders chose. */
  lemma ReencodingPasses(r1: Recipe, r2: Recipe, width: nat, rgb: seq<seq<Byte>>, inflate: Inflate, t: Thresholds)
    requires r1.WellFormedFor(inflate) && r2.WellFormedFor(inflate)
    requires Carries(r1, width, rgb) && Carries(r2, width, rgb)
    requires t.maxChangedPct >= 0.0 && t.maxAvgDelta >= 0.0 && t.maxChannelDelta >= 0
    ensures WithinLimits(r1.File(), r2.File(), inflate, t)
  {
    hide Decode, Deltas, Changed, Total, Max;
    EncodingIndependence(r1, r2, width, rgb, inflate);
    DecodedIsValid(r1.File(), inflate);
    SelfDiffPasses(Decode(r1.File(), inflate).value, t);
  }

  lemma SelfDiffPasses(image: PngImage, t: Thresholds)
    requires image.Valid() && t.maxChangedPct >= 0.0 && t.maxAvgDelta >= 0.0 && t.maxChannelDelta >= 0
    ensures DiffOf(image, image).Ok? && !Exceeds(DiffOf(image, image).value, t)
  {
    hide Deltas, Changed, Total, Max;
    ZeroIffEqual(image, image);
  }

  /** The gate is symmetric in the two files. */
  lemma GateSymmetric(current: File, baseline: File, inflate: Inflate, t: Thresholds)
    ensures WithinLimits(current, baseline, inflate, t) <==> WithinLimits(baseline, current, inflate, t)
  {
    hide Decode, DiffOf;
    var a, b := Decode(current, inflate), Decode(baseline, inflate);
    if a.Ok? && b.Ok? {
      DecodedComparable(current, baseline, inflate);
      DecodedComparable(baseline, current, inflate);
      if Comparable(a.value, b.value) {
        Symmetric(a.value, b.value);
      }
    }
  }
}
