/** The angle-to-EXIF conversion of the capture script (main.py `convert`)
    and the four GPS tags that `capture` sets from it. */
module Exif {
  import opened Text

  /** An angle as skyfield's `signed_dms` gives it: a sign, then the
      magnitude as whole degrees, whole minutes and seconds, the seconds
      carried here as a whole number of tenths (`seconds*10` after rounding). */
  datatype Dms = Dms(sign: int, degrees: nat, minutes: nat, tenths: nat)

  /** The magnitude triple of an angle: degrees, minutes, tenths of seconds. */
  function Magnitude(a: Dms): (nat, nat, nat)
  {
    (a.degrees, a.minutes, a.tenths)
  }

  /** A position fix from the ephemeris: latitude and longitude. */
  datatype Position = Position(latitude: Dms, longitude: Dms)

  /** One EXIF rational, `numerator/denominator`. */
  function Rational(numerator: nat, denominator: string): string
  {
    Digits(numerator) + "/" + denominator
  }

  /** The EXIF text of an angle's magnitude: `D/1,M/1,T/10`. */
  function ExifAngle(a: Dms): string
  {
    Join([Rational(a.degrees, "1"), Rational(a.minutes, "1"), Rational(a.tenths, "10")], ",")
  }

  /** Reads one rational back, insisting on the given denominator. */
  function DecodeRational(s: string, denominator: string): Option<nat>
  {
    var parts := Split(s, "/");
    if |parts| == 2 && parts[0] != [] && AllDigits(parts[0]) && parts[1] == denominator
    then Some(ValueOf(parts[0]))
    else None
  }

  /** Reads an EXIF angle `D/1,M/1,T/10` back into its magnitude triple. */
  function DecodeExifAngle(s: string): Option<(nat, nat, nat)>
  {
    var parts := Split(s, ",");
    if |parts| != 3 then None
    else
      match (DecodeRational(parts[0], "1"), DecodeRational(parts[1], "1"), DecodeRational(parts[2], "10"))
      case (Some(d), Some(m), Some(t)) => Some((d, m, t))
      case _ => None
  }

  lemma RationalRoundTrip(n: nat, denominator: string)
    requires '/' !in denominator
    ensures DecodeRational(Rational(n, denominator), denominator) == Some(n)
  {
    var d := Digits(n);
    NoNonDigit(d, '/');
    assert Rational(n, denominator) == Join([d, denominator], "/");
    SplitJoin([d, denominator], "/");
    ValueOfDigits(n);
  }

  /** The EXIF text of an angle spelled out as one concatenation. */
  lemma ExifAngleShape(a: Dms)
    ensures ExifAngle(a) == Rational(a.degrees, "1") + "," + Rational(a.minutes, "1") + "," + Rational(a.tenths, "10")
  {
    var parts := [Rational(a.degrees, "1"), Rational(a.minutes, "1"), Rational(a.tenths, "10")];
    assert parts[1..] == [parts[1], parts[2]];
    assert [parts[1], parts[2]][1..] == [parts[2]];
    assert Join(parts[1..], ",") == parts[1] + "," + parts[2];
  }

  /** An EXIF rational holds only digits, '/' and its denominator's characters. */
  lemma RationalAlphabet(n: nat, denominator: string, c: char)
    requires !IsDigit(c) && c != '/' && c !in denominator
    ensures c !in Rational(n, denominator)
  {
    NoNonDigit(Digits(n), c);
  }

  /** The EXIF text of an angle holds only digits, '/' and ','. */
  lemma ExifAngleAlphabet(a: Dms, c: char)
    requires !IsDigit(c) && c != '/' && c != ','
    ensures c !in ExifAngle(a)
  {
    ExifAngleShape(a);
    RationalAlphabet(a.degrees, "1", c);
    RationalAlphabet(a.minutes, "1", c);
    RationalAlphabet(a.tenths, "10", c);
  }

  /** Decoding the EXIF text of an angle gives back its magnitude. */
  lemma ExifRoundTrip(a: Dms)
    ensures DecodeExifAngle(ExifAngle(a)) == Some(Magnitude(a))
  {
    var parts := [Rational(a.degrees, "1"), Rational(a.minutes, "1"), Rational(a.tenths, "10")];
    NoNonDigit(Digits(a.degrees), ',');
    NoNonDigit(Digits(a.minutes), ',');
    NoNonDigit(Digits(a.tenths), ',');
    SplitJoin(parts, ",");
    RationalRoundTrip(a.degrees, "1");
    RationalRoundTrip(a.minutes, "1");
    RationalRoundTrip(a.tenths, "10");
  }

  /** main.py `convert`: whether the angle is negative, and the EXIF text of
      its magnitude. The sign never reaches the text. */
  function Convert(a: Dms): (r: (bool, string))
    ensures r.0 <==> a.sign < 0
    ensures '-' !in r.1
  {
    ExifAngleAlphabet(a, '-');
    (a.sign < 0, ExifAngle(a))
  }

  /** The text `convert` produces decodes to the angle's magnitude. */
  lemma ConvertRoundTrip(a: Dms)
    ensures DecodeExifAngle(Convert(a).1) == Some(Magnitude(a))
  {
    ExifRoundTrip(a);
  }

  /** The example of the docstring: 98° 34' 58.7 becomes "98/1,34/1,587/10". */
  lemma ConvertExample()
    ensures Convert(Dms(1, 98, 34, 587)) == (false, "98/1,34/1,587/10")
  {
    ExifAngleExample();
  }

  lemma ExifAngleExample()
    ensures ExifAngle(Dms(1, 98, 34, 587)) == "98/1,34/1,587/10"
  {
    RationalsExample();
    ExifAngleShape(Dms(1, 98, 34, 587));
  }

  lemma RationalsExample()
    ensures Rational(98, "1") == "98/1" && Rational(34, "1") == "34/1" && Rational(587, "10") == "587/10"
  {
    DigitsExample();
  }

  lemma DigitsExample()
    ensures Digits(98) == "98" && Digits(34) == "34" && Digits(587) == "587"
  {
    assert DigitChar(9) == '9' && DigitChar(8) == '8' && DigitChar(3) == '3';
    assert DigitChar(4) == '4' && DigitChar(5) == '5' && DigitChar(7) == '7';
    assert Digits(58) == "58";
    assert Digits(587) == Digits(58) + "7";
  }

  const LatitudeKey := "GPS.GPSLatitude"
  const LatitudeRefKey := "GPS.GPSLatitudeRef"
  const LongitudeKey := "GPS.GPSLongitude"
  const LongitudeRefKey := "GPS.GPSLongitudeRef"
  const GpsKeys: set<string> := {LatitudeKey, LatitudeRefKey, LongitudeKey, LongitudeRefKey}

  /** The hemisphere letter of a latitude: "S" for south, else "N". */
  function LatitudeRef(south: bool): (letter: string)
    ensures letter in {"N", "S"} && (letter == "S" <==> south)
  {
    assert "N" != "S" by { assert "N"[0] != "S"[0]; }
    if south then "S" else "N"
  }

  /** The hemisphere letter of a longitude: "W" for west, else "E". */
  function LongitudeRef(west: bool): (letter: string)
    ensures letter in {"E", "W"} && (letter == "W" <==> west)
  {
    assert "E" != "W" by { assert "E"[0] != "W"[0]; }
    if west then "W" else "E"
  }

  /** The four GPS tags `capture` writes for a fix. */
  function GpsTags(p: Position): (tags: map<string, string>)
    ensures tags.Keys == GpsKeys
    ensures tags[LatitudeRefKey] in {"N", "S"} && (tags[LatitudeRefKey] == "S" <==> p.latitude.sign < 0)
    ensures tags[LongitudeRefKey] in {"E", "W"} && (tags[LongitudeRefKey] == "W" <==> p.longitude.sign < 0)
  {
    var (south, exifLatitude) := Convert(p.latitude);
    var (west, exifLongitude) := Convert(p.longitude);
    map[LatitudeKey := exifLatitude, LatitudeRefKey := LatitudeRef(south),
        LongitudeKey := exifLongitude, LongitudeRefKey := LongitudeRef(west)]
  }

  /** The magnitude tags of a fix decode to the fix's magnitudes. */
  lemma GpsTagsRoundTrip(p: Position)
    ensures DecodeExifAngle(GpsTags(p)[LatitudeKey]) == Some(Magnitude(p.latitude))
    ensures DecodeExifAngle(GpsTags(p)[LongitudeKey]) == Some(Magnitude(p.longitude))
  {
    var tags := GpsTags(p);
    assert tags[LatitudeKey] == Convert(p.latitude).1;
    assert tags[LongitudeKey] == Convert(p.longitude).1;
    ConvertRoundTrip(p.latitude);
    ConvertRoundTrip(p.longitude);
  }
}
