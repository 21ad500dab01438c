/** The capture script's top level (main.py): the camera's tag map, `capture`,
    the per-cycle file name and log row, and the cycle loop bounded by a
    cycle cap and a three-hour mission clock. */
module Mission {
  import opened Text
  import opened Exif

  /** `3*60-4`: the cycle cap of the `for` loop. */
  const MaxCycles: nat := 3 * 60 - 4

  /** `timedelta(hours=3)` in seconds: the mission budget. */
  const MissionSeconds: int := 3 * 60 * 60

  // ---------------------------------------------------------------------
  // File names and log rows

  /** `f"image_{i:03d}.jpg"`. */
  function FileName(i: nat): (name: string)
    ensures |name| >= 10 && EndsWith(name, ".jpg") && name[..6] == "image_"
    ensures i < 1000 ==> |name| == 13
  {
    DigitsBelow1000(i);
    "image_" + ZeroPad(i, 3) + ".jpg"
  }

  /** Reads the cycle index back out of an image file name. */
  function FileIndex(name: string): Option<nat>
  {
    if |name| >= 10 && name[..6] == "image_" && EndsWith(name, ".jpg") && AllDigits(name[6..|name| - 4])
    then Some(ValueOf(name[6..|name| - 4]))
    else None
  }

  /** The cycle index reads back out of its file name. */
  lemma FileNameRoundTrip(i: nat)
    ensures FileIndex(FileName(i)) == Some(i)
  {
    var pad := ZeroPad(i, 3);
    var name := FileName(i);
    assert name[6..|name| - 4] == pad;
  }

  /** Different cycles never share an image file name. */
  lemma FileNameInjective(i: nat, j: nat)
    requires FileName(i) == FileName(j)
    ensures i == j
  {
    FileNameRoundTrip(i);
    FileNameRoundTrip(j);
  }

  /** The path `capture` writes: `f'{base_folder}/image_{i:03d}.jpg'`. */
  function ImagePath(base: string, i: nat): (path: string)
    ensures |path| == |base| + 1 + |FileName(i)|
    ensures path[..|base|] == base && EndsWith(path, "/" + FileName(i))
  {
    base + "/" + FileName(i)
  }

  /** The row appended to the data file in cycle `i`:
      `"{stamp}; image_iii.jpg; {lat}; {N|S}; {long}; {E|W} \n"`. */
  function LogRow(stamp: string, i: nat, fix: Position): (row: string)
    ensures |row| >= |stamp| + 2
    ensures EndsWith(row, " \n") && row[..|stamp|] == stamp
  {
    var values := RowValues(stamp, i, fix);
    assert values == [stamp] + values[1..];
    assert Join(values, "; ") == stamp + "; " + Join(values[1..], "; ");
    Join(RowValues(stamp, i, fix), "; ") + " \n"
  }

  /** The six values of a row, in the order the f-string writes them. */
  function RowValues(stamp: string, i: nat, fix: Position): (values: seq<string>)
    ensures |values| == 6
  {
    var lat, lon := Convert(fix.latitude), Convert(fix.longitude);
    [stamp, FileName(i), lat.1, LatitudeRef(lat.0), lon.1, LongitudeRef(lon.0)]
  }

  /** Reads a data-file row back into its `"; "`-separated fields. */
  function ParseRow(row: string): Option<seq<string>>
  {
    if EndsWith(row, " \n") then Some(Split(row[..|row| - 2], "; ")) else None
  }

  lemma FileNameAlphabet(i: nat)
    ensures ';' !in FileName(i)
  {
    var pad := ZeroPad(i, 3);
    NoNonDigit(pad, ';');
    assert FileName(i) == "image_" + pad + ".jpg";
  }

  /** Any fields free of ';' read back from their joined row. */
  lemma ParseJoined(fields: seq<string>)
    requires |fields| >= 1
    requires forall k :: 0 <= k < |fields| ==> ';' !in fields[k]
    ensures ParseRow(Join(fields, "; ") + " \n") == Some(fields)
  {
    var body := Join(fields, "; ");
    var row := body + " \n";
    assert row[..|row| - 2] == body;
    SplitJoin(fields, "; ");
  }

  lemma RowValuesAlphabet(stamp: string, i: nat, fix: Position)
    requires ';' !in stamp
    ensures forall k :: 0 <= k < |RowValues(stamp, i, fix)| ==> ';' !in RowValues(stamp, i, fix)[k]
  {
    var fields := RowValues(stamp, i, fix);
    assert fields[2] == ExifAngle(fix.latitude) && fields[4] == ExifAngle(fix.longitude);
    FileNameAlphabet(i);
    ExifAngleAlphabet(fix.latitude, ';');
    ExifAngleAlphabet(fix.longitude, ';');
    assert fields[3] == "N" || fields[3] == "S";
    assert fields[5] == "E" || fields[5] == "W";
  }

  /** A row whose timestamp has no ';' reads back as exactly its values. */
  lemma RowParses(stamp: string, i: nat, fix: Position)
    requires ';' !in stamp
    ensures ParseRow(LogRow(stamp, i, fix)) == Some(RowValues(stamp, i, fix))
  {
    RowValuesAlphabet(stamp, i, fix);
    ParseJoined(RowValues(stamp, i, fix));
  }

  /** The meaning of each of the six values. */
  lemma RowValuesMeaning(stamp: string, i: nat, fix: Position)
    ensures var f := RowValues(stamp, i, fix);
            && |f| == 6
            && f[0] == stamp
            && f[1] == FileName(i)
            && DecodeExifAngle(f[2]) == Some(Magnitude(fix.latitude))
            && f[3] in {"N", "S"} && (f[3] == "S" <==> fix.latitude.sign < 0)
            && DecodeExifAngle(f[4]) == Some(Magnitude(fix.longitude))
            && f[5] in {"E", "W"} && (f[5] == "W" <==> fix.longitude.sign < 0)
  {
    var f := RowValues(stamp, i, fix);
    var lat, lon := Convert(fix.latitude), Convert(fix.longitude);
    assert f[2] == lat.1 && f[4] == lon.1;
    assert f[3] == LatitudeRef(lat.0) && f[5] == LongitudeRef(lon.0);
    ConvertRoundTrip(fix.latitude);
    ConvertRoundTrip(fix.longitude);
  }

  /** A row reads back as six fields in the order of the header: the
      timestamp, the image file name, the latitude, its hemisphere, the
      longitude and its hemisphere. */
  lemma RowFields(stamp: string, i: nat, fix: Position)
    requires ';' !in stamp
    ensures var f := ParseRow(LogRow(stamp, i, fix));
            && f.Some? && |f.value| == 6
            && f.value[0] == stamp
            && f.value[1] == FileName(i)
            && DecodeExifAngle(f.value[2]) == Some(Magnitude(fix.latitude))
            && f.value[3] in {"N", "S"} && (f.value[3] == "S" <==> fix.latitude.sign < 0)
            && DecodeExifAngle(f.value[4]) == Some(Magnitude(fix.longitude))
            && f.value[5] in {"E", "W"} && (f.value[5] == "W" <==> fix.longitude.sign < 0)
  {
    RowParses(stamp, i, fix);
    RowValuesMeaning(stamp, i, fix);
  }

  // ---------------------------------------------------------------------
  // The camera and `capture`

  /** One picture taken: the path written and the EXIF tags it carries. */
  datatype Shot = Shot(path: string, tags: map<string, string>)

  /** The camera as the script uses it: a mutable EXIF tag map, and the
      pictures taken so far (the image data itself is the hardware's). */
  class Camera {
    var exifTags: map<string, string>
    var captured: seq<Shot>

    constructor (tags: map<string, string>)
      ensures exifTags == tags && captured == []
    {
      exifTags := tags;
      captured := [];
    }

    /** `camera.capture(image)`: one picture, tagged with the current tags. */
    method Capture(image: string)
      modifies this
      ensures exifTags == old(exifTags)
      ensures captured == old(captured) + [Shot(image, exifTags)]
    {
      captured := captured + [Shot(image, exifTags)];
    }
  }

  /** main.py `capture`: set the four GPS tags from the fix, then take the
      picture. Every other tag keeps its value. */
  method Capture(camera: Camera, image: string, point: Position)
    modifies camera
    ensures camera.exifTags == old(camera.exifTags) + GpsTags(point)
    ensures camera.captured == old(camera.captured) + [Shot(image, camera.exifTags)]
  {
    var (south, exifLatitude) := Convert(point.latitude);
    var (west, exifLongitude) := Convert(point.longitude);
    camera.exifTags := camera.exifTags[LatitudeKey := exifLatitude];
    camera.exifTags := camera.exifTags[LatitudeRefKey := LatitudeRef(south)];
    camera.exifTags := camera.exifTags[LongitudeKey := exifLongitude];
    camera.exifTags := camera.exifTags[LongitudeRefKey := LongitudeRef(west)];
    UpdateFour(old(camera.exifTags), LatitudeKey, exifLatitude, LatitudeRefKey, LatitudeRef(south),
               LongitudeKey, exifLongitude, LongitudeRefKey, LongitudeRef(west));
    assert GpsTags(point) == map[LatitudeKey := exifLatitude, LatitudeRefKey := LatitudeRef(south),
                                 LongitudeKey := exifLongitude, LongitudeRefKey := LongitudeRef(west)];
    camera.Capture(image);
  }

  /** Tagging a fix adds exactly the four GPS keys and leaves every other
      tag as it was. */
  lemma TaggingFrame(m: map<string, string>, p: Position)
    ensures (m + GpsTags(p)).Keys == m.Keys + GpsKeys
    ensures forall k :: k in m && k !in GpsKeys ==> (m + GpsTags(p))[k] == m[k]
  {
  }

  /** Overriding with two maps over the same keys keeps only the second. */
  lemma OverrideSameKeys(m: map<string, string>, a: map<string, string>, b: map<string, string>)
    requires a.Keys == b.Keys
    ensures (m + a) + b == m + b
  {
  }

  /** Tagging twice leaves only the second fix's GPS tags. */
  lemma RetagOverrides(m: map<string, string>, a: Position, b: Position)
    ensures (m + GpsTags(a)) + GpsTags(b) == m + GpsTags(b)
  {
    OverrideSameKeys(m, GpsTags(a), GpsTags(b));
  }

  /** Four single-key updates are one override by the four-key map. */
  lemma UpdateFour(m: map<string, string>, k1: string, v1: string, k2: string, v2: string,
                   k3: string, v3: string, k4: string, v4: string)
    ensures m[k1 := v1][k2 := v2][k3 := v3][k4 := v4] == m + map[k1 := v1, k2 := v2, k3 := v3, k4 := v4]
  {
  }

  // ---------------------------------------------------------------------
  // The cycle loop

  /** What the outside world supplies in cycle `i`: the clock (integer
      seconds) read at the top of the cycle, the fix `capture` reads, the
      fresh fix read for the log row, and the row's formatted timestamp. */
  datatype Reading = Reading(now: int, captureFix: Position, logFix: Position, stamp: string)

  /** How many cycles run from cycle `from` on: up to the cap, stopping at
      the first cycle whose clock reading is three hours past the start. */
  function CycleCount(start: int, env: nat -> Reading, from: nat): (n: nat)
    requires from <= MaxCycles
    ensures from <= n <= MaxCycles
    ensures forall j :: from <= j < n ==> env(j).now < start + MissionSeconds
    ensures n < MaxCycles ==> env(n).now >= start + MissionSeconds
    decreases MaxCycles - from
  {
    if from == MaxCycles || env(from).now >= start + MissionSeconds then from
    else CycleCount(start, env, from + 1)
  }

  /** The rows the first `n` cycles append, one per cycle, in order. */
  function LoggedRows(env: nat -> Reading, n: nat): (rows: seq<string>)
    ensures |rows| == n
  {
    seq(n, j requires 0 <= j < n => LogRow(env(j).stamp, j, env(j).logFix))
  }

  /** The pictures the first `n` cycles take: cycle `j` writes its own image
      file carrying the tags set before the loop, overridden by the GPS tags
      of cycle `j`'s fix. */
  function TakenShots(base: string, tags: map<string, string>, env: nat -> Reading, n: nat): (shots: seq<Shot>)
    ensures |shots| == n
  {
    seq(n, j requires 0 <= j < n => Shot(ImagePath(base, j), tags + GpsTags(env(j).captureFix)))
  }

  lemma LoggedRowsStep(env: nat -> Reading, n: nat)
    ensures LoggedRows(env, n + 1) == LoggedRows(env, n) + [LogRow(env(n).stamp, n, env(n).logFix)]
  {
  }

  lemma TakenShotsStep(base: string, tags: map<string, string>, env: nat -> Reading, n: nat)
    ensures TakenShots(base, tags, env, n + 1)
            == TakenShots(base, tags, env, n) + [Shot(ImagePath(base, n), tags + GpsTags(env(n).captureFix))]
  {
  }

  lemma AppendAssociative<T>(a: seq<T>, b: seq<T>, c: seq<T>)
    ensures (a + b) + c == a + (b + c)
  {
  }

  /** One cycle's work once the clock check has passed: capture image `i`
      tagged with the reading's capture fix, then build the data-file row
      from the fresh fix and timestamp. */
  method CaptureAndLog(camera: Camera, base: string, i: nat, reading: Reading) returns (row: string)
    modifies camera
    ensures camera.exifTags == old(camera.exifTags) + GpsTags(reading.captureFix)
    ensures camera.captured == old(camera.captured) + [Shot(ImagePath(base, i), camera.exifTags)]
    ensures row == LogRow(reading.stamp, i, reading.logFix)
  {
    Capture(camera, ImagePath(base, i), reading.captureFix);
    var point := reading.logFix;
    row := LogRow(reading.stamp, i, point);
  }

  /** One pass of the loop body after the clock check, stated against the
      run so far: the picture of cycle `i` extends the pictures of the
      earlier cycles, and the tags now carry cycle `i`'s fix only. */
  method Cycle(camera: Camera, base: string, env: nat -> Reading, i: nat,
               ghost tags0: map<string, string>, ghost shots0: seq<Shot>)
    returns (row: string)
    modifies camera
    requires camera.captured == shots0 + TakenShots(base, tags0, env, i)
    requires i == 0 ==> camera.exifTags == tags0
    requires i > 0 ==> camera.exifTags == tags0 + GpsTags(env(i - 1).captureFix)
    ensures camera.captured == shots0 + TakenShots(base, tags0, env, i + 1)
    ensures camera.exifTags == tags0 + GpsTags(env(i).captureFix)
    ensures row == LogRow(env(i).stamp, i, env(i).logFix)
  {
    if i > 0 {
      RetagOverrides(tags0, env(i - 1).captureFix, env(i).captureFix);
    }
    row := CaptureAndLog(camera, base, i, env(i));
    TakenShotsStep(base, tags0, env, i);
    AppendAssociative(shots0, TakenShots(base, tags0, env, i), [Shot(ImagePath(base, i), camera.exifTags)]);
  }

  /** main.py lines 49-73: the mission loop. Returns how many cycles ran and
      the rows appended to the data file. Each cycle that starts before the
      three-hour mark takes one picture tagged with that cycle's fix and
      appends one row; the first cycle past the mark stops the loop. */
  method RunMission(camera: Camera, base: string, start: int, env: nat -> Reading)
    returns (cycles: nat, rows: seq<string>)
    modifies camera
    ensures cycles == CycleCount(start, env, 0)
    ensures rows == LoggedRows(env, cycles)
    ensures camera.captured == old(camera.captured) + TakenShots(base, old(camera.exifTags), env, cycles)
    ensures camera.exifTags == if cycles == 0 then old(camera.exifTags)
                               else old(camera.exifTags) + GpsTags(env(cycles - 1).captureFix)
  {
    ghost var tags0, shots0 := camera.exifTags, camera.captured;
    rows := [];
    var i: nat := 0;
    while i < MaxCycles
      invariant i <= MaxCycles
      invariant CycleCount(start, env, i) == CycleCount(start, env, 0)
      invariant rows == LoggedRows(env, i)
      invariant camera.captured == shots0 + TakenShots(base, tags0, env, i)
      invariant i == 0 ==> camera.exifTags == tags0
      invariant i > 0 ==> camera.exifTags == tags0 + GpsTags(env(i - 1).captureFix)
    {
      var nowTime := env(i).now;
      if nowTime >= start + MissionSeconds {
        break;
      }
      var row := Cycle(camera, base, env, i, tags0, shots0);
      rows := rows + [row];
      LoggedRowsStep(env, i);
      i := i + 1;
    }
    cycles := i;
  }
}
