/** How the two scripts' names fit: a picture named by the capture script
    would be taken up by the NDVI pass if it lay in the directory the pass
    lists, and its result would be written as `image_iii_ndvi.png`. */
module Layout {
  import opened Text
  import Mission
  import NdviBatch

  /** `image_iii.jpg` is eligible; it unpacks into the stem `image_iii` and
      the extension `jpg`; the pass writes it as `image_iii_ndvi.png`. */
  lemma CapturedImageProcessed(i: nat, read: string -> NdviBatch.Image, percentiles: seq<real> -> (real, real))
    ensures NdviBatch.Eligible(Mission.FileName(i))
    ensures NdviBatch.StemAndExtension(Mission.FileName(i)) == Some(("image_" + ZeroPad(i, 3), "jpg"))
    ensures NdviBatch.ProcessEntry(Mission.FileName(i), read, percentiles).name == "image_" + ZeroPad(i, 3) + "_ndvi.png"
  {
    var stem := "image_" + ZeroPad(i, 3);
    var name := Mission.FileName(i);
    assert name == stem + "." + "jpg";
    NoNonDigit(ZeroPad(i, 3), '.');
    assert '.' !in stem;
    NdviBatch.EligibleHasStem(name);
    var r := NdviBatch.StemAndExtension(name).value;
    StemUnique(stem, "jpg", r.0, r.1);
  }

  /** A stem without '.' is determined by where the first '.' falls. */
  lemma StemUnique(a: string, x: string, b: string, y: string)
    requires '.' !in a && '.' !in b && a + "." + x == b + "." + y
    ensures a == b && x == y
  {
    var s := a + "." + x;
    FindFirst(a, ".", x);
    FindFirst(b, ".", y);
    assert a == s[..|a|] && b == s[..|b|];
    assert x == s[|a| + 1..] && y == s[|b| + 1..];
  }
}
