/** The NDVI batch pass (astropi-ndvi-en-resources/ndvi.py): which directory
    entries are processed, the output name derived from each, the per-pixel
    NDVI with its zero-denominator substitution, the contrast stretch with
    its zero-range guard, and the elapsed-time split. Pixel values are exact
    reals; the 5th and 95th percentiles come from a parameter. */
module NdviBatch {
  import opened Text
  import NdviLegacy

  // ---------------------------------------------------------------------
  // Entry names

  const NdviSuffix := "_ndvi.png"

  /** `image.endswith(".jpg") or image.endswith(".jpeg")`. */
  predicate Eligible(name: string)
  {
    EndsWith(name, ".jpg") || EndsWith(name, ".jpeg")
  }

  lemma OccursDot(s: string)
    ensures forall j: nat :: OccursAt(s, ".", j) <==> j < |s| && s[j] == '.'
  {
    forall j: nat
      ensures OccursAt(s, ".", j) <==> j < |s| && s[j] == '.'
    {
      if j < |s| {
        assert s[j..j + 1] == [s[j]];
      }
    }
  }

  /** `filename, extension = image.split(".", 1)`: the text before the first
      '.' and the text after it; `None` where Python raises `ValueError`
      because the name has no '.' to unpack around. */
  function StemAndExtension(name: string): (r: Option<(string, string)>)
    ensures r.Some? <==> '.' in name
    ensures r.Some? ==> '.' !in r.value.0 && r.value.0 + "." + r.value.1 == name
  {
    var parts := SplitOnce(name, ".");
    OccursDot(name);
    if |parts| == 2 then
      assert name == parts[0] + "." + parts[1];
      assert forall j :: 0 <= j < |parts[0]| ==> parts[0][j] == name[j];
      Some((parts[0], parts[1]))
    else
      None
  }

  /** Every eligible name has a '.', so the unpacking never fails on it. */
  lemma EligibleHasStem(name: string)
    requires Eligible(name)
    ensures StemAndExtension(name).Some?
  {
    if EndsWith(name, ".jpg") {
      assert name[|name| - 4] == name[|name| - 4..][0] == '.';
    } else {
      assert name[|name| - 5] == name[|name| - 5..][0] == '.';
    }
  }

  /** The name `cv2.imwrite` is given: `filename + '_ndvi.png'`. */
  function OutputName(stem: string): (name: string)
    ensures |name| == |stem| + |NdviSuffix|
    ensures EndsWith(name, NdviSuffix) && name[..|stem|] == stem
  {
    stem + NdviSuffix
  }

  /** A name ending in "_ndvi.png" is never taken as input. */
  lemma OutputNeverEligible(name: string)
    requires EndsWith(name, NdviSuffix)
    ensures !Eligible(name)
  {
    var n := |name|;
    assert name[n - 3] == name[n - |NdviSuffix|..][6] == 'p';
    assert name[n - 2] == name[n - |NdviSuffix|..][7] == 'n';
    assert name[n - 4..][1] == name[n - 3];
    assert name[n - 5..][3] == name[n - 2];
  }

  // ---------------------------------------------------------------------
  // Pixels

  /** A decoded colour image as numpy holds it: the values of each pixel in
      the stored channel order blue, green, red, one pixel after another. */
  type Image = s: seq<real> | |s| % 3 == 0

  /** One channel of `cv2.split`: 0 is blue, 1 green, 2 red. */
  function Channel(im: Image, c: nat): (ch: seq<real>)
    requires c < 3
    ensures |ch| == |im| / 3
    ensures forall k :: 0 <= k < |ch| ==> ch[k] == im[3 * k + c]
  {
    seq(|im| / 3, k requires 0 <= k < |im| / 3 => im[3 * k + c])
  }

  /** `bottom[bottom == 0] = 0.01`: the substitute for a zero r+b. */
  const Epsilon: real := 0.01

  /** The denominator each pixel divides by: r+b, or 0.01 where that is 0. */
  function Denominator(b: real, r: real): (d: real)
    ensures d != 0.0
    ensures d == r + b || (r + b == 0.0 && d == Epsilon)
  {
    if r + b == 0.0 then Epsilon else r + b
  }

  /** The NDVI of one pixel, green ignored. */
  function NdviValue(b: real, r: real): real
  {
    (b - r) / Denominator(b, r)
  }

  /** The NDVI image: one value per pixel. */
  function NdviOf(im: Image): (ndvi: seq<real>)
    ensures |ndvi| == |im| / 3
  {
    var b, r := Channel(im, 0), Channel(im, 2);
    seq(|im| / 3, k requires 0 <= k < |im| / 3 => NdviValue(b[k], r[k]))
  }

  /** `calc_ndvi`: split the channels, sum red and blue into `bottom`,
      overwrite the zero entries of `bottom` with 0.01 in place, then divide. */
  method CalcNdvi(image: Image) returns (ndvi: seq<real>)
    ensures ndvi == NdviOf(image)
  {
    var b, r := Channel(image, 0), Channel(image, 2);
    var n := |b|;
    var bottom := new real[n];
    var k := 0;
    while k < n
      invariant 0 <= k <= n
      invariant forall j :: 0 <= j < k ==> bottom[j] == r[j] + b[j]
    {
      bottom[k] := r[k] + b[k];
      k := k + 1;
    }
    k := 0;
    while k < n
      invariant 0 <= k <= n
      invariant forall j :: 0 <= j < k ==> bottom[j] == Denominator(b[j], r[j])
      invariant forall j :: k <= j < n ==> bottom[j] == r[j] + b[j]
    {
      if bottom[k] == 0.0 {
        bottom[k] := Epsilon;
      }
      k := k + 1;
    }
    var out := new real[n];
    k := 0;
    while k < n
      invariant 0 <= k <= n
      invariant forall j :: 0 <= j < n ==> bottom[j] == Denominator(b[j], r[j])
      invariant forall j :: 0 <= j < k ==> out[j] == NdviValue(b[j], r[j])
    {
      out[k] := (b[k] - r[k]) / bottom[k];
      k := k + 1;
    }
    ndvi := out[..];
  }

  /** For non-negative channel values the NDVI lies in [-1, 1]. */
  lemma NdviBounded(b: real, r: real)
    requires b >= 0.0 && r >= 0.0
    ensures -1.0 <= NdviValue(b, r) <= 1.0
  {
    if r + b != 0.0 {
      var d := r + b;
      assert d > 0.0;
      assert NdviValue(b, r) == (b - r) / d;
      assert -d <= b - r <= d;
      assert (b - r) / d <= d / d;
      assert -d / d <= (b - r) / d;
    }
  }

  /** An image whose values are all non-negative has its NDVI in [-1, 1]. */
  lemma NdviOfBounded(im: Image)
    requires forall k :: 0 <= k < |im| ==> im[k] >= 0.0
    ensures forall k :: 0 <= k < |NdviOf(im)| ==> -1.0 <= NdviOf(im)[k] <= 1.0
  {
    var b, r := Channel(im, 0), Channel(im, 2);
    forall k | 0 <= k < |NdviOf(im)|
      ensures -1.0 <= NdviOf(im)[k] <= 1.0
    {
      NdviBounded(b[k], r[k]);
    }
  }

  /** Equal blue and red give 0; in particular a black pixel gives 0 rather
      than a division fault. */
  lemma NdviBalanced(v: real)
    ensures NdviValue(v, v) == 0.0
  {
  }

  /** Only the blue and red channels matter. */
  lemma NdviIgnoresGreen(im: Image, other: Image)
    requires |im| == |other|
    requires forall k :: 0 <= k < |im| && k % 3 != 1 ==> im[k] == other[k]
    ensures NdviOf(im) == NdviOf(other)
  {
    var n := |im| / 3;
    forall k | 0 <= k < n
      ensures NdviOf(im)[k] == NdviOf(other)[k]
    {
      assert (3 * k) % 3 == 0 && (3 * k + 2) % 3 == 2;
      assert Channel(im, 0)[k] == Channel(other, 0)[k];
      assert Channel(im, 2)[k] == Channel(other, 2)[k];
    }
  }

  // ---------------------------------------------------------------------
  // Contrast stretch

  /** The factor the shifted values are multiplied by: the earlier
      `(OutMin - OutMax) / (inMin - inMax)`, or 255 when the range is zero
      and the division raises. */
  function StretchFactor(inMin: real, inMax: real): real
  {
    if inMin - inMax == 0.0 then 255.0
    else (NdviLegacy.OutMin - NdviLegacy.OutMax) / (inMin - inMax)
  }

  /** The value `x` becomes under the stretch from `[inMin, inMax]`. */
  function StretchValue(x: real, inMin: real, inMax: real): real
  {
    (x - inMin) * StretchFactor(inMin, inMax) + inMin
  }

  /** The stretched array, value by value. */
  function Stretched(im: seq<real>, inMin: real, inMax: real): (out: seq<real>)
    ensures |out| == |im|
  {
    seq(|im|, k requires 0 <= k < |im| => StretchValue(im[k], inMin, inMax))
  }

  /** `contrast_stretch`, percentiles given: `out = im - in_min`, then
      `out *= scale` in place, where the scale is
      `(out_min - out_max) / (in_min - in_max)` or, when that division
      raises, 255; then `out += in_min` in place. */
  method ContrastStretch(im: seq<real>, inMin: real, inMax: real) returns (out: seq<real>)
    ensures out == Stretched(im, inMin, inMax)
  {
    var a := new real[|im|];
    var k := 0;
    while k < a.Length
      invariant 0 <= k <= a.Length
      invariant forall j :: 0 <= j < k ==> a[j] == im[j] - inMin
    {
      a[k] := im[k] - inMin;
      k := k + 1;
    }
    var scale: real;
    if inMin - inMax == 0.0 {
      scale := 255.0;
    } else {
      scale := (NdviLegacy.OutMin - NdviLegacy.OutMax) / (inMin - inMax);
    }
    assert scale == StretchFactor(inMin, inMax);
    k := 0;
    while k < a.Length
      invariant 0 <= k <= a.Length
      invariant forall j :: 0 <= j < k ==> a[j] == (im[j] - inMin) * scale
      invariant forall j :: k <= j < a.Length ==> a[j] == im[j] - inMin
    {
      a[k] := a[k] * scale;
      k := k + 1;
    }
    k := 0;
    while k < a.Length
      invariant 0 <= k <= a.Length
      invariant forall j :: 0 <= j < k ==> a[j] == (im[j] - inMin) * scale + inMin
      invariant forall j :: k <= j < a.Length ==> a[j] == (im[j] - inMin) * scale
    {
      a[k] := a[k] + inMin;
      k := k + 1;
    }
    out := a[..];
    assert forall j :: 0 <= j < |im| ==> out[j] == StretchValue(im[j], inMin, inMax);
  }

  /** The low percentile maps to itself, in both branches. */
  lemma StretchAtMin(inMin: real, inMax: real)
    ensures StretchValue(inMin, inMin, inMax) == inMin
  {
    if inMin != inMax {
      StretchExtendsLegacy(inMin, inMin, inMax);
      NdviLegacy.AffineAtMin(inMin, inMax);
    }
  }

  /** With a non-empty range the high percentile maps 255 above the low. */
  lemma StretchAtMax(inMin: real, inMax: real)
    requires inMin != inMax
    ensures StretchValue(inMax, inMin, inMax) == inMin + 255.0
  {
    StretchExtendsLegacy(inMax, inMin, inMax);
    NdviLegacy.AffineAtMax(inMin, inMax);
  }

  /** With a non-empty range the stretch is strictly increasing. */
  lemma StretchIncreasing(x: real, y: real, inMin: real, inMax: real)
    requires inMin < inMax && x < y
    ensures StretchValue(x, inMin, inMax) < StretchValue(y, inMin, inMax)
  {
    StretchExtendsLegacy(x, inMin, inMax);
    StretchExtendsLegacy(y, inMin, inMax);
    NdviLegacy.AffineIncreasing(x, y, inMin, inMax);
  }

  /** With a zero range each value becomes `(x - inMin) * 255 + inMin`, and
      no division happens. */
  lemma StretchZeroRange(x: real, v: real)
    ensures StretchValue(x, v, v) == (x - v) * 255.0 + v
  {
  }

  /** The zero-range stretch is increasing too. */
  lemma StretchZeroRangeIncreasing(x: real, y: real, v: real)
    requires x < y
    ensures StretchValue(x, v, v) < StretchValue(y, v, v)
  {
    StretchZeroRange(x, v);
    StretchZeroRange(y, v);
  }

  /** Where the earlier version is defined, both versions agree. */
  lemma StretchExtendsLegacy(x: real, inMin: real, inMax: real)
    requires inMin != inMax
    ensures StretchValue(x, inMin, inMax) == NdviLegacy.AffineValue(x, inMin, inMax)
  {
  }

  // ---------------------------------------------------------------------
  // The directory pass

  /** One `cv2.imwrite`: the output name and the values written. */
  datatype Product = Product(name: string, pixels: seq<real>)

  /** What one eligible entry turns into: stretch the original, take its
      NDVI, stretch that, and write it under the stem's output name. */
  function NdviProduct(original: Image, percentiles: seq<real> -> (real, real)): (out: seq<real>)
    ensures |out| == |original| / 3
  {
    var (lo, hi) := percentiles(original);
    var contrasted: Image := Stretched(original, lo, hi);
    var ndvi := NdviOf(contrasted);
    var (lo2, hi2) := percentiles(ndvi);
    Stretched(ndvi, lo2, hi2)
  }

  function ProcessEntry(name: string, read: string -> Image, percentiles: seq<real> -> (real, real)): (p: Product)
    requires Eligible(name)
    ensures !Eligible(p.name)
  {
    EligibleHasStem(name);
    var stem := StemAndExtension(name).value.0;
    OutputNeverEligible(OutputName(stem));
    Product(OutputName(stem), NdviProduct(read(name), percentiles))
  }

  /** The eligible entries of a listing, in listing order. */
  function EligibleEntries(listing: seq<string>): (r: seq<string>)
    ensures |r| <= |listing|
    ensures forall k :: 0 <= k < |r| ==> Eligible(r[k]) && r[k] in listing
    ensures forall k :: 0 <= k < |listing| && Eligible(listing[k]) ==> listing[k] in r
  {
    if listing == [] then []
    else
      var init, last := listing[..|listing| - 1], listing[|listing| - 1];
      var rest := EligibleEntries(init);
      assert forall k :: 0 <= k < |init| ==> init[k] == listing[k];
      assert forall x :: x in init ==> x in listing;
      if Eligible(last) then rest + [last] else rest
  }

  /** Only the listing's own entries decide: the eligible entries of a
      concatenation are those of each part, in the parts' order. */
  lemma {:induction false} EligibleEntriesAppend(a: seq<string>, b: seq<string>)
    ensures EligibleEntries(a + b) == EligibleEntries(a) + EligibleEntries(b)
    decreases |b|
  {
    if b == [] {
      assert a + b == a;
    } else {
      var init, last := b[..|b| - 1], b[|b| - 1];
      assert (a + b)[..|a + b| - 1] == a + init;
      assert (a + b)[|a + b| - 1] == last;
      EligibleEntriesAppend(a, init);
      if Eligible(last) {
        assert EligibleEntries(a + b) == (EligibleEntries(a) + EligibleEntries(init)) + [last];
      }
    }
  }

  /** One entry is kept iff it is eligible. */
  lemma EligibleEntriesSingle(x: string)
    ensures EligibleEntries([x]) == if Eligible(x) then [x] else []
  {
    assert [x][..0] == [];
  }

  /** The files one pass writes, in the order it writes them: one per
      eligible entry. */
  function Outputs(listing: seq<string>, read: string -> Image, percentiles: seq<real> -> (real, real)): (out: seq<Product>)
    ensures |out| == |EligibleEntries(listing)|
  {
    var e := EligibleEntries(listing);
    seq(|e|, k requires 0 <= k < |e| => ProcessEntry(e[k], read, percentiles))
  }

  lemma OutputsStep(listing: seq<string>, i: nat, read: string -> Image, percentiles: seq<real> -> (real, real))
    requires i < |listing|
    ensures Outputs(listing[..i + 1], read, percentiles)
            == Outputs(listing[..i], read, percentiles)
               + (if Eligible(listing[i]) then [ProcessEntry(listing[i], read, percentiles)] else [])
  {
    assert listing[..i + 1][..i] == listing[..i];
  }

  /** The directory loop: for each entry of the listing, in listing order,
      an eligible one is read, stretched, turned into NDVI, stretched again
      and written under its stem's output name. Returns the writes in order. */
  method ProcessDirectory(listing: seq<string>, read: string -> Image, percentiles: seq<real> -> (real, real))
    returns (written: seq<Product>)
    ensures written == Outputs(listing, read, percentiles)
  {
    written := [];
    for i := 0 to |listing|
      invariant written == Outputs(listing[..i], read, percentiles)
    {
      var image := listing[i];
      if EndsWith(image, ".jpg") || EndsWith(image, ".jpeg") {
        var original := read(image);
        EligibleHasStem(image);
        var parts := SplitOnce(image, ".");
        var filename := parts[0];
        var (lo, hi) := percentiles(original);
        var contrasted := ContrastStretch(original, lo, hi);
        var ndvi := CalcNdvi(contrasted);
        var (lo2, hi2) := percentiles(ndvi);
        var ndviContrasted := ContrastStretch(ndvi, lo2, hi2);
        written := written + [Product(filename + NdviSuffix, ndviContrasted)];
      }
      OutputsStep(listing, i, read, percentiles);
    }
    assert listing[..|listing|] == listing;
  }

  /** Every file a pass writes is named after an eligible entry's stem, and
      is itself never eligible. */
  lemma OutputsNamed(listing: seq<string>, read: string -> Image, percentiles: seq<real> -> (real, real), k: nat)
    requires k < |Outputs(listing, read, percentiles)|
    ensures var e := EligibleEntries(listing)[k];
            var p := Outputs(listing, read, percentiles)[k];
            && e in listing && Eligible(e)
            && StemAndExtension(e).Some?
            && p.name == StemAndExtension(e).value.0 + NdviSuffix
            && !Eligible(p.name)
  {
    EligibleHasStem(EligibleEntries(listing)[k]);
  }

  /** Adding the pass's own outputs to the listing changes nothing about
      which entries a later pass processes: it processes (and rewrites)
      the same ones. */
  lemma {:induction false} OutputsNotReprocessed(listing: seq<string>, extra: seq<string>)
    requires forall k :: 0 <= k < |extra| ==> EndsWith(extra[k], NdviSuffix)
    ensures EligibleEntries(listing + extra) == EligibleEntries(listing)
  {
    if extra != [] {
      var init := extra[..|extra| - 1];
      assert (listing + extra)[..|listing + extra| - 1] == listing + init;
      OutputNeverEligible(extra[|extra| - 1]);
      OutputsNotReprocessed(listing, init);
    } else {
      assert listing + extra == listing;
    }
  }

  // ---------------------------------------------------------------------
  // Elapsed time

  /** `divmod(elapsed.days * 60*60*24 + elapsed.seconds, 60)`: minutes and
      seconds. Python's `divmod` floors; with the positive divisor 60 that
      is Dafny's `/` and `%`. */
  function ElapsedSplit(days: int, seconds: int): (r: (int, int))
    ensures 0 <= r.1 < 60
    ensures r.0 * 60 + r.1 == days * 86400 + seconds
    ensures days >= 0 && seconds >= 0 ==> r.0 >= 0
  {
    var total := days * (60 * 60 * 24) + seconds;
    (total / 60, total % 60)
  }

  /** The two properties above pin the split down: no other pair has them. */
  lemma ElapsedSplitUnique(days: int, seconds: int, minutes: int, secs: int)
    requires 0 <= secs < 60 && minutes * 60 + secs == days * 86400 + seconds
    ensures (minutes, secs) == ElapsedSplit(days, seconds)
  {
    var r := ElapsedSplit(days, seconds);
    assert -60 < (minutes - r.0) * 60 < 60;
  }
}
