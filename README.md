# AstroPi data collection — a Dafny model

The repository is a Raspberry Pi experiment for the ISS. It has two
scripts. `main.py` takes, for up to three hours, one
picture per cycle, tags each picture with the station's position as EXIF GPS
tags, and appends one `;`-separated row per picture to a data file.
`astropi-ndvi-en-resources/ndvi.py` walks its own directory
of `.jpg`/`.jpeg` pictures, contrast-stretches each one, computes its NDVI
(normalised difference vegetation index) from the blue and red channels,
stretches that, and writes it as `<stem>_ndvi.png`. The older root `ndvi.py`
holds the first, unguarded version of the contrast stretch.

The project is organised as follows:

- `text.dfy` (module `Text`) models the Python string operations the scripts
  use, and a decoder for the text they produce:
  - decimal rendering and `{:03d}` zero padding, with their decoder;
  - `str.endswith` and `str.split(sep, 1)`;
  - a join and a full split on a separator. Neither script calls these: the
    data-file row is an f-string whose shape is a join on `"; "`, and the
    split is the decoder used to read that row back.
- `exif.dfy` (module `Exif`) models:
  - `convert`, which turns an angle into EXIF text;
  - a decoder for that text, proved to be its inverse;
  - the four GPS tags that `capture` writes.
- `mission.dfy` (module `Mission`) models:
  - the camera;
  - the per-cycle file name and data-file row;
  - the cycle loop, as imperative code over a `Camera` class.
- `ndvi_legacy.dfy` (module `NdviLegacy`) models the root `ndvi.py` contrast
  stretch.
- `ndvi_batch.dfy` (module `NdviBatch`) models the resources `ndvi.py`:
  - which directory entries are eligible, and the output name of each;
  - `calc_ndvi`;
  - the guarded contrast stretch;
  - the directory loop;
  - the elapsed-time `divmod`.
- `layout.dfy` (module `Layout`) relates the two scripts' names. The capture
  script writes into its own folder and never runs the NDVI pass. But a
  picture it names would be eligible for the pass, if it lay in the pass's
  directory, and would be written as `image_iii_ndvi.png`.

How the outside world is modelled:

- The station's position, the wall clock and the formatted timestamp are
  inputs. `RunMission` receives a function `env` that gives, for each cycle
  index, the clock reading (in whole seconds) and the two fixes the cycle
  reads. The first fix is used for tagging and the second for the row. It
  also gives the row's timestamp text.
- In an `Image`, a picture is a flat sequence of reals with the pixel values
  interleaved in OpenCV's blue, green, red order.
- The 5th/95th percentile computation is a function parameter.
- Reading a picture is also a function parameter.

## Model

| member | source | states |
|---|---|---|
| Text.Digits | main.py:19 | the decimal text of a natural is non-empty, all digits, and has no leading zero |
| Text.ValueOfDigits | main.py:19 | reading the decimal text back gives the number (round trip) |
| Text.ZeroPad | main.py:56 | `{n:03d}` gives max(3, digit count) characters, all digits, whose value is `n` |
| Text.DigitsBelow1000 | main.py:56 | a cycle index below 1000 fits the three-digit pad, so no name is longer than 13 characters |
| Text.LeadingZeros | main.py:56 | zeros in front do not change a digit string's value |
| Text.EndsWith | astropi-ndvi-en-resources/ndvi.py:61 | `s.endswith(suffix)`: s ends with the characters of suffix; used by NdviBatch.OutputNeverEligible and Mission.FileName |
| Text.Find | astropi-ndvi-en-resources/ndvi.py:64 | the index returned is the leftmost occurrence of the separator, or the length when there is none |
| Text.SplitOnce | astropi-ndvi-en-resources/ndvi.py:64 | `split(".", 1)` gives one or two parts that join back to the input; exactly two iff the separator occurs; the cut is at the first occurrence |
| Text.Split | main.py:65-66 | decoder for the row (the code does not split): the parts join back to the input, and no part contains the separator |
| Text.SplitJoin | main.py:65-66 | decoder for the row: splitting a join gives back the parts when no part contains the separator's first character |
| Text.SplitAt | main.py:65-66 | decoder for the row: a split whose first separator is at `k` is the prefix followed by the split of the rest |
| Exif.Rational | main.py:19 | one EXIF rational `n/den`; decoded by Exif.RationalRoundTrip |
| Exif.ExifAngle | main.py:19 | the text `D/1,M/1,T/10`; its decoder inverts it by Exif.ExifRoundTrip, and Exif.ExifAngleAlphabet bounds its characters |
| Exif.Convert | main.py:9-20 | the flag is true iff the angle's sign is negative; the text never carries a '-' |
| Exif.ConvertRoundTrip | main.py:9-20 | the EXIF text decodes to the angle's degrees, minutes and tenths of seconds |
| Exif.ExifRoundTrip | main.py:19 | `D/1,M/1,T/10` decodes to (D, M, T) |
| Exif.RationalRoundTrip | main.py:19 | one `n/den` rational decodes to `n` |
| Exif.ExifAngleAlphabet | main.py:19 | the EXIF text holds only digits, '/' and ',' |
| Exif.ConvertExample | main.py:13 | the docstring's example: 98° 34' 58.7 gives `98/1,34/1,587/10` and the flag false |
| Exif.LatitudeRef | main.py:33 | the latitude letter is N or S, and S exactly when the flag is set |
| Exif.LongitudeRef | main.py:35 | the longitude letter is E or W, and W exactly when the flag is set |
| Exif.GpsTags | main.py:32-35 | the GPS tags have exactly the four GPS keys; the reference letters are right for the sign |
| Exif.GpsTagsRoundTrip | main.py:32-35 | the latitude and longitude tags decode to the fix's magnitudes |
| Mission.FileName | main.py:56 | `image_{i:03d}.jpg` starts `image_`, ends `.jpg`, and is 13 characters for i below 1000 |
| Mission.FileNameRoundTrip | main.py:56 | the cycle index reads back out of its file name |
| Mission.FileNameInjective | main.py:56 | two cycles never write the same image file |
| Mission.ImagePath | main.py:56 | the path `capture` is given starts with the base folder and ends with `/` and the cycle's file name |
| Mission.RowValues | main.py:66 | the six values of a row; their meanings are stated by Mission.RowValuesMeaning |
| Mission.LogRow | main.py:65-66 | the row starts with the timestamp and ends with `" \n"`; Mission.RowFields reads it back |
| Mission.RowValuesAlphabet | main.py:66 | for a timestamp without ';', none of the six row values contains ';' |
| Mission.RowParses | main.py:65-66 | the row splits back on `"; "` into its six values |
| Mission.RowValuesMeaning | main.py:59-66 | the values are, in order: the timestamp, the file name, the latitude (which decodes to the fix's magnitude), N/S by sign, the longitude (which decodes likewise), E/W by sign |
| Mission.RowFields | main.py:59-66 | a data-file row parses into the six fields above |
| Mission.Camera.constructor | main.py:41 | a new camera has the given tags and no pictures |
| Mission.Camera.Capture | main.py:38 | one picture is appended, carrying the current tags; the tags are unchanged |
| Mission.Capture | main.py:23-38 | the tags become the old tags overridden by the fix's four GPS tags, and one picture carrying them is appended |
| Mission.TaggingFrame | main.py:31-35 | tagging adds exactly the four GPS keys, and every other tag keeps its value |
| Mission.RetagOverrides | main.py:31-35 | tagging a second fix leaves no trace of the first |
| Mission.CycleCount | main.py:49-53 | the number of cycles is at most 3*60-4; every cycle that ran started before start + 3 h; below the cap, the first cycle that did not run read a clock at or past start + 3 h |
| Mission.LoggedRows | main.py:65-66 | one row per cycle that ran |
| Mission.TakenShots | main.py:56 | one picture per cycle that ran |
| Mission.CaptureAndLog | main.py:54-66 | one cycle's capture effect on the camera, and the row built from that cycle's fresh fix and timestamp |
| Mission.Cycle | main.py:49-66 | each cycle extends the pictures of the earlier cycles by its own, and leaves the tags carrying only its own fix |
| Mission.RunMission | main.py:49-73 | the loop runs CycleCount cycles; the rows are that many rows, in cycle order; the camera holds that many new pictures, cycle j writing `image_{j:03d}.jpg` tagged with cycle j's fix; the final tags are those of the last cycle's fix (unchanged when no cycle ran) |
| NdviLegacy.AffineValue | ndvi.py:36-38 | the value one input becomes; its properties are NdviLegacy.AffineAtMin, AffineAtMax and AffineIncreasing |
| NdviLegacy.ContrastStretch | ndvi.py:29-40 | every value is shifted by in_min, scaled by (0-255)/(in_min-in_max) and shifted back; the output has the input's length |
| NdviLegacy.ScaleIsRange | ndvi.py:37 | the scale is 255/(in_max-in_min) |
| NdviLegacy.AffineAtMin | ndvi.py:36-38 | the 5th percentile maps to itself, not to 0 |
| NdviLegacy.AffineAtMax | ndvi.py:36-38 | the 95th percentile maps to in_min+255 |
| NdviLegacy.AffineIncreasing | ndvi.py:36-38 | for in_min < in_max the stretch is strictly increasing |
| NdviBatch.Eligible | astropi-ndvi-en-resources/ndvi.py:61 | the name ends with `.jpg` or `.jpeg`; NdviBatch.EligibleHasStem and OutputNeverEligible state what follows |
| NdviBatch.StemAndExtension | astropi-ndvi-en-resources/ndvi.py:64 | the unpacking succeeds iff the name has a '.'; the stem has no '.', and stem + "." + extension is the name |
| NdviBatch.EligibleHasStem | astropi-ndvi-en-resources/ndvi.py:61-64 | an eligible name always unpacks |
| NdviBatch.OutputName | astropi-ndvi-en-resources/ndvi.py:73 | the output name is the stem followed by `_ndvi.png` |
| NdviBatch.OutputNeverEligible | astropi-ndvi-en-resources/ndvi.py:61 | a `_ndvi.png` name is never eligible |
| NdviBatch.Channel | astropi-ndvi-en-resources/ndvi.py:50 | a channel holds one value per pixel, taken from that channel's position |
| NdviBatch.Denominator | astropi-ndvi-en-resources/ndvi.py:51-52 | the denominator is never 0: it is r+b, or 0.01 where r+b is 0 |
| NdviBatch.NdviValue | astropi-ndvi-en-resources/ndvi.py:53 | (b-r)/Denominator(b, r); bounded by NdviBatch.NdviBounded, 0 on balanced pixels by NdviBatch.NdviBalanced |
| NdviBatch.CalcNdvi | astropi-ndvi-en-resources/ndvi.py:49-54 | the in-place `bottom` computation gives, per pixel, (b-r)/Denominator(b, r) |
| NdviBatch.NdviBounded | astropi-ndvi-en-resources/ndvi.py:53 | for non-negative b and r the NDVI lies in [-1, 1] |
| NdviBatch.NdviOfBounded | astropi-ndvi-en-resources/ndvi.py:49-54 | an image with non-negative values has every NDVI value in [-1, 1] |
| NdviBatch.NdviBalanced | astropi-ndvi-en-resources/ndvi.py:52-53 | equal b and r give 0, including a black pixel |
| NdviBatch.NdviIgnoresGreen | astropi-ndvi-en-resources/ndvi.py:50 | images that differ only in green have the same NDVI |
| NdviBatch.StretchFactor | astropi-ndvi-en-resources/ndvi.py:41-44 | the scale: (0-255)/(in_min-in_max), or 255 for a zero range |
| NdviBatch.StretchValue | astropi-ndvi-en-resources/ndvi.py:40-45 | the value one input becomes; its properties are the Stretch lemmas below |
| NdviBatch.Stretched | astropi-ndvi-en-resources/ndvi.py:40-45 | the stretched array has the input's length |
| NdviBatch.ContrastStretch | astropi-ndvi-en-resources/ndvi.py:33-46 | the three in-place array steps produce the value-by-value stretch |
| NdviBatch.StretchAtMin | astropi-ndvi-en-resources/ndvi.py:40-45 | in_min maps to itself, whether or not the range is zero |
| NdviBatch.StretchAtMax | astropi-ndvi-en-resources/ndvi.py:40-45 | with a non-zero range, in_max maps to in_min+255 |
| NdviBatch.StretchIncreasing | astropi-ndvi-en-resources/ndvi.py:40-45 | with in_min < in_max the stretch is strictly increasing |
| NdviBatch.StretchZeroRange | astropi-ndvi-en-resources/ndvi.py:43-44 | with a zero range each value becomes (x-in_min)*255+in_min |
| NdviBatch.StretchZeroRangeIncreasing | astropi-ndvi-en-resources/ndvi.py:43-44 | the zero-range stretch is still strictly increasing |
| NdviBatch.StretchExtendsLegacy | astropi-ndvi-en-resources/ndvi.py:41-42 | with a non-zero range the guarded stretch equals the earlier unguarded one |
| NdviBatch.NdviProduct | astropi-ndvi-en-resources/ndvi.py:67-71 | stretch, then NDVI, then stretch gives one value per pixel |
| NdviBatch.ProcessEntry | astropi-ndvi-en-resources/ndvi.py:62-74 | an eligible entry's output name is never eligible itself |
| NdviBatch.EligibleEntries | astropi-ndvi-en-resources/ndvi.py:59-61 | every entry kept is eligible and listed, every eligible listed entry is kept, and no more are kept than listed |
| NdviBatch.EligibleEntriesAppend | astropi-ndvi-en-resources/ndvi.py:59-61 | the entries kept from a concatenation are those of each part in order, so the listing order and repeats are kept |
| NdviBatch.EligibleEntriesSingle | astropi-ndvi-en-resources/ndvi.py:61 | a single entry is kept iff it is eligible |
| NdviBatch.Outputs | astropi-ndvi-en-resources/ndvi.py:59-74 | one write per eligible entry |
| NdviBatch.ProcessDirectory | astropi-ndvi-en-resources/ndvi.py:59-74 | the loop's writes are, in order, the products of the eligible entries |
| NdviBatch.OutputsNamed | astropi-ndvi-en-resources/ndvi.py:64-74 | write k comes from an eligible listed entry, is named after that entry's stem + `_ndvi.png`, and is not eligible |
| NdviBatch.OutputsNotReprocessed | astropi-ndvi-en-resources/ndvi.py:59-61 | adding `_ndvi.png` files to the listing leaves the set of processed entries unchanged |
| NdviBatch.ElapsedSplit | astropi-ndvi-en-resources/ndvi.py:79 | the seconds are in [0, 60); minutes*60 + seconds is the elapsed total; the minutes are non-negative for a non-negative duration |
| NdviBatch.ElapsedSplitUnique | astropi-ndvi-en-resources/ndvi.py:79 | no other pair has both properties, so they define `divmod` |
| Layout.CapturedImageProcessed | main.py:56 | `image_iii.jpg` would be eligible; it unpacks into the stem `image_iii` and the extension `jpg`; the pass's write for it is named `image_iii_ndvi.png` |

## Left out

- Hardware is not modelled. This covers the PiCamera resolution setting and `camera.close()`, the image data itself (a `Shot` records only the path and the tags) and the ISS ephemeris (`ISS.coordinates()`). Positions are inputs.
- Exif.Convert: models `signed_dms` with the degrees and minutes already whole and the seconds already a whole number of tenths. The `{:.0f}` rounding of floating-point values inside the f-string is not modelled.
- Mission.RunMission: the clock is one integer-second reading per cycle, supplied as an input. `datetime.now()`, `strftime` (the timestamp text is an input too), `perf_counter`, `sleep(60)` and the loop-time `print` are left out.
- The data file's I/O is not modelled (opening, `flush`, `fsync`). The appended rows are returned in order instead.
- Mission.Capture: its contract states the new tag map as an override. The facts that only the four GPS keys change, and that every other tag is kept, are in the separate lemma `Mission.TaggingFrame`.
- OpenCV I/O is not modelled: `cv2.imread` is a function parameter, `cv2.imwrite` is a recorded `Product`, and the `display` helpers and the commented-out calls are omitted. An unreadable file (`imread` returning `None`) is not modelled. Saturating the values to 8 bits when the PNG is written is not modelled.
- NdviBatch.ContrastStretch and NdviLegacy.ContrastStretch: `np.percentile` is an input (the method's bounds, or the `percentiles` parameter). Pixel values are exact reals, not IEEE doubles.
- NdviBatch.ContrastStretch: the `except ZeroDivisionError` branch is modelled as written, as a scale of 255 for a zero range. Real numpy float division by zero gives `inf` and a warning, not an exception, so on such an image the script as run would produce `inf`/`nan` values. Those IEEE values have no counterpart in the real-number model.
- NdviLegacy.ContrastStretch requires `in_min != in_max` because its division has no guard.
- NdviBatch.NdviBounded requires non-negative channel values. A contrast-stretched input can go below 0 (values under the 5th percentile), and there the NDVI can leave [-1, 1].
- NdviBatch.ProcessDirectory: the listing order of `os.listdir` is an input. The pass checks neither whether an output already exists nor whether two inputs share a stem: `x.1.jpg` and `x.2.jpg` both write `x_ndvi.png`. The returned writes are in order, so the last one of a name is the file left on disk. The `showing` print and the `start_time`/`finish_time` clock reads are left out; the elapsed days and seconds are inputs of `ElapsedSplit`.
- Root `ndvi.py` runs `display` and `contrast_stretch` once at import time, on the file `image._000 copy.jpg` (lines 11 and 42-44). That top-level script is not modelled.
- The test-run, threading and analysis folders of the repository are not part of this model.
