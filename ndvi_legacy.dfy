/** The earlier contrast stretch (root ndvi.py `contrast_stretch`): an
    affine remap of every value, with no guard against a zero range. Pixel
    values are exact reals; the 5th and 95th percentiles come in as
    parameters. */
module NdviLegacy {

  const OutMin: real := 0.0
  const OutMax: real := 255.0

  /** The value `x` becomes: shifted by `inMin`, scaled by
      `(OutMin - OutMax) / (inMin - inMax)`, shifted back by `inMin`. */
  function AffineValue(x: real, inMin: real, inMax: real): real
    requires inMin != inMax
  {
    (x - inMin) * ((OutMin - OutMax) / (inMin - inMax)) + inMin
  }

  /** ndvi.py `contrast_stretch`: `out = im - in_min`, then `out *= scale`,
      then `out += in_min`, each step over the whole array in place. The
      division by `in_min - in_max` has no guard, so the range must not be
      empty. */
  method ContrastStretch(im: seq<real>, inMin: real, inMax: real) returns (out: seq<real>)
    requires inMin != inMax
    ensures |out| == |im|
    ensures forall k :: 0 <= k < |im| ==> out[k] == AffineValue(im[k], inMin, inMax)
  {
    var a := new real[|im|];
    var k := 0;
    while k < a.Length
      invariant 0 <= k <= a.Length
      invariant forall j :: 0 <= j < k ==> a[j] == im[j] - inMin
    {
      a[k] := im[k] - inMin;
      k := k + 1;
    }
    var scale := (OutMin - OutMax) / (inMin - inMax);
    k := 0;
    while k < a.Length
      invariant 0 <= k <= a.Length
      invariant forall j :: 0 <= j < k ==> a[j] == (im[j] - inMin) * scale
      invariant forall j :: k <= j < a.Length ==> a[j] == im[j] - inMin
    {
      a[k] := a[k] * scale;
      k := k + 1;
    }
    k := 0;
    while k < a.Length
      invariant 0 <= k <= a.Length
      invariant forall j :: 0 <= j < k ==> a[j] == (im[j] - inMin) * scale + inMin
      invariant forall j :: k <= j < a.Length ==> a[j] == (im[j] - inMin) * scale
    {
      a[k] := a[k] + inMin;
      k := k + 1;
    }
    out := a[..];
  }

  /** The scale factor is `255 / (inMax - inMin)`. */
  lemma ScaleIsRange(inMin: real, inMax: real)
    requires inMin != inMax
    ensures (OutMin - OutMax) / (inMin - inMax) == 255.0 / (inMax - inMin)
  {
  }

  /** The low percentile stays where it is: the offset added back is
      `inMin`, not `OutMin`. */
  lemma AffineAtMin(inMin: real, inMax: real)
    requires inMin != inMax
    ensures AffineValue(inMin, inMin, inMax) == inMin
  {
  }

  /** The high percentile lands 255 above the low one. */
  lemma AffineAtMax(inMin: real, inMax: real)
    requires inMin != inMax
    ensures AffineValue(inMax, inMin, inMax) == inMin + 255.0
  {
    var d := inMax - inMin;
    ScaleIsRange(inMin, inMax);
    assert d * (255.0 / d) == 255.0;
  }

  /** With a non-empty range the remap is strictly increasing. */
  lemma AffineIncreasing(x: real, y: real, inMin: real, inMax: real)
    requires inMin < inMax && x < y
    ensures AffineValue(x, inMin, inMax) < AffineValue(y, inMin, inMax)
  {
    var scale := (OutMin - OutMax) / (inMin - inMax);
    ScaleIsRange(inMin, inMax);
    assert scale > 0.0;
    assert AffineValue(x, inMin, inMax) == (x - inMin) * scale + inMin;
    assert AffineValue(y, inMin, inMax) == (y - inMin) * scale + inMin;
    assert (y - inMin) * scale - (x - inMin) * scale == (y - x) * scale;
    assert (y - x) * scale > 0.0;
  }
}
