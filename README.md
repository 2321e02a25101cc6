# rope-anomaly-detection, modelled in Dafny

This project models the integer core of rope-anomaly-detection. The repository inspects a steel rope filmed by a high-speed camera. It reads the camera's raw video, demosaics the Bayer frames, cuts each grey frame into cells to find the rope, and scores a one-class classifier against hand-made annotations.

The model has two layers.

**Raw video (RawLibrary).**
- `PixelMath`: the clamps on 32-bit integers, and `Combsort` on an array, which sorts in place and returns the middle element.
- `RawHeader`, `BinaryIO`: the 4096-byte RAWv3 header, read field by field from a `BinaryReader`.
- `RawV3`: a class with the container's bytes, the read position, `CurrentFrame` and the frame buffer `Data`. It covers:
  - reading a frame forwards, at an index and backwards, with the source's no-op guards;
  - reversing the bytes of every 32-bit word in place;
  - both fixed-pattern-noise formulas.
- `BayerGeometry`, `BayerEquations`: the colour-filter layouts, the reflecting border index and the per-pixel integer formulas of the demosaicing passes.
- `BayerPlanes`: for every pass, the plane it leaves, as a function of the planes it reads.
- `BayerSweep`, `BayerPasses`: the shared loop nest, proved once, and each pass as an instance of it.
- `BayerRefinement`: the sites and planes the refinement step touches.
- `BayerDemosaic`: what `Convert` leaves for each subclass.
- `Bayer`: the class `BayerAlgorithm`, whose fields are the frame's planes as arrays. Its methods are the passes, each proved to leave its specified plane.
- `RawImage`: a class that chooses the algorithm, delegates the frame cursor to `RawV3`, renders monochrome frames and sizes the blank frame.

**Annotations, metrics and segmentation (AnomalyModel, AnomalyDetection).**
- `Text`, `Numbers`, `FrameSets`, `StringOrder`: line splitting, C# integer parsing, ascending frame arrays and ordinal string order.
- `Annotations`: the comparer, reader and writer of region annotations, with the write-then-read round trip. The `V2` classes have the same bodies and are covered by the same members.
- `FrameAnnotations`: the two frame-range readers, which are identical.
- `MetricsUtil`, `Metrics`: the confusion-matrix counts, the frames with false positives and the per-anomaly hits.
- `HogTransformer`: cell counting, cell classification, the column scan, `SegmentRopeForFrame(s)` and the maximum rope width of `Fit`.

Loops stay loops: methods are proved against specification functions, and the properties are proved about those functions.

## Model

| member | source | states |
|---|---|---|
| PixelMath.ByteClamp | RawLibrary/PixelMath.cs:17-20 | for every 32-bit input the bit test `& 0xffffff00` selects exactly the in-range values, so the result is the input clamped to 0..255 |
| PixelMath.Clamp10Bit | RawLibrary/PixelMath.cs:27-30 | the result lies in 0..1023 and is the input clamped to 10 bits |
| PixelMath.Clamp8Bit | RawLibrary/PixelMath.cs:32-35 | the result lies in 0..255 and is the input clamped to 8 bits |
| PixelMath.BitClamp | RawLibrary/PixelMath.cs:38-44 | 10 bits clamps to 0..1023, any other bit count to 0..255 |
| PixelMath.NextGap | RawLibrary/PixelMath.cs:59-61 | the next gap stays in 1..gap, shrinks strictly while above 1 and stays 1 once there |
| PixelMath.SwapByArithmetic | RawLibrary/PixelMath.cs:68-70 | the add/subtract exchange of two 32-bit entries swaps them and changes nothing else |
| PixelMath.SwapRemovesInversion | RawLibrary/PixelMath.cs:66-71 | swapping an adjacent out-of-order pair removes exactly one inversion, which ends the final gap-1 passes |
| PixelMath.GapPass | RawLibrary/PixelMath.cs:62-73 | one pass permutes the data; without a swap it changes nothing; with gap 1 and no swap the data is sorted; at any gap a swap lowers the number of inversions |
| PixelMath.CompareExchange | RawLibrary/PixelMath.cs:65-72 | an out-of-order pair is swapped and an ordered one left alone; the contents stay a permutation of 32-bit values, and a swap at any distance lowers the number of inversions |
| PixelMath.SwapLowersInversions | RawLibrary/PixelMath.cs:65-71 | swapping an out-of-order pair `data[i] > data[i + gap]` lowers the number of inversions at any gap, so each swapping pass makes progress |
| PixelMath.Combsort | RawLibrary/PixelMath.cs:51-76 | the array ends sorted and a permutation of its input, and the result is its middle element |
| PixelMath.MiddleIndex | RawLibrary/PixelMath.cs:75 | `Ceiling((amount - 1) / 2.0)` is `amount / 2`, an index inside the array |
| RawHeader.ReadIdentity | RawLibrary/RawV3.cs:157-164 | the signature, version, creator, camera series and camera names are read from offsets 0..336; the read fails exactly when the file is shorter than the typed fields need |
| RawHeader.ReadComment | RawLibrary/RawV3.cs:165-169 | firmware, FPGA version, user comment and recording date and time come from offsets 336..1008; character reads never fail |
| RawHeader.ReadLayout | RawLibrary/RawV3.cs:170-177 | the table sizes, colour filter, frame type, OSD and FPN bytes and pixel size come from offsets 1008..1040 |
| RawHeader.ReadGeometry | RawLibrary/RawV3.cs:178-185 | frame count, image size, frame and sensor sizes and sync fields come from offsets 1040..1080 |
| RawHeader.ReadTiming | RawLibrary/RawV3.cs:186-193 | shutter, time source and time stamps come from offsets 1080..1120 |
| RawHeader.ReadRecording | RawLibrary/RawV3.cs:194-201 | sequence length, marks, bit count, bit mode and flip flags come from offsets 1120..1156 |
| RawHeader.ReadMarkers | RawLibrary/RawV3.cs:202-208 | rotation, event markers and OSD mode, position and font size come from offsets 1156..1176 |
| RawHeader.ReadOsdText | RawLibrary/RawV3.cs:209-211 | OSD font, style and colour come from offsets 1176..1320 |
| RawHeader.ReadColour | RawLibrary/RawV3.cs:212-220 | the nine colour bytes come from offsets 1320..1329 |
| RawHeader.ReadHeader | RawLibrary/RawV3.cs:153-222 | reading field after field from the start of the stream yields the record decoded at the documented absolute offsets, consumes 4096 bytes, and fails only when a typed read meets the end of the file |
| RawV3.LRot | RawLibrary/RawV3.cs:235-238 | rotating by 16 exchanges the two 16-bit halves |
| RawV3.ByteSwap32 | RawLibrary/RawV3.cs:240-243 | the four bytes of the word come out in reverse order |
| RawV3.ByteSwap32Involution | RawLibrary/RawV3.cs:240-243 | swapping twice gives back the word |
| RawV3.ByteSwap16 | RawLibrary/RawV3.cs:245-248 | the two bytes of the short are exchanged |
| RawV3.ByteSwap16Involution | RawLibrary/RawV3.cs:245-248 | swapping twice gives back the short |
| RawV3.Clamp8 | RawLibrary/RawV3.cs:250-255 | the one-mask test clamps every value in -0xFF00..0xFFFF to 0..255 |
| RawV3.Clamp8Window | RawLibrary/RawV3.cs:250-255 | outside that window the test misfires (0x10000 gives 0, -0xFF01 gives 255) |
| RawV3.FpnSExact | RawLibrary/RawV3.cs:340-348 | for the documented bit modes 0..2 the S-series formula neither wraps nor misclamps: it is the clamp of `(c << bitMode) + b * d` divided by 1600 |
| RawV3.FpnQValue | RawLibrary/RawV3.cs:380-385 | the Q-series polynomial stays inside the window where `Clamp8` is exact |
| RawV3.FpnQRange | RawLibrary/RawV3.cs:385 | the intermediate 32-bit products of the Q-series formula do not overflow |
| RawV3.FpnQExact | RawLibrary/RawV3.cs:380-385 | the Q-series pixel is the exact clamp of its polynomial |
| RawV3.WordsReversed | RawLibrary/RawV3.cs:273-279 | every byte of a whole-word buffer lands at its mirror position inside its 4-byte word |
| RawV3.WordsReversedInvolution | RawLibrary/RawV3.cs:273-279 | reordering twice gives back the buffer |
| RawV3.ReverseWords | RawLibrary/RawV3.cs:273-279 | the in-place swaps leave the word-reversed buffer |
| RawV3.SImage | RawLibrary/RawV3.cs:317-354 | the S-series correction keeps the frame size, never changes a saturated pixel (0 or 255) and leaves every byte past the first `SensorFrameWidth * SensorFrameHeight` as it was |
| RawV3.QImage | RawLibrary/RawV3.cs:355-391 | the Q-series correction keeps the frame size, never changes a saturated pixel (0 or 255) and leaves every byte past the first `SensorFrameWidth * SensorFrameHeight` as it was |
| RawV3.DenoiseKeepsSaturatedAndTail | RawLibrary/RawV3.cs:315-392 | whichever formula runs, noise removal keeps the frame length, never changes a 0 or 255 pixel and never touches the bytes past the sensor frame window |
| RawV3.RemoveNoiseRowS | RawLibrary/RawV3.cs:335-349 | one row is corrected pixel by pixel with its coefficient pair and no other byte changes |
| RawV3.RemoveNoiseS | RawLibrary/RawV3.cs:325-352 | the row loop leaves the S-series corrected frame |
| RawV3.RemoveNoiseRowQ | RawLibrary/RawV3.cs:372-387 | one row is corrected with its coefficient triple, saturated pixels untouched, no other byte changed |
| RawV3.RemoveNoiseQ | RawLibrary/RawV3.cs:363-390 | the row loop leaves the Q-series corrected frame |
| RawV3.CorrectedSize | RawLibrary/RawV3.cs:225 | the recomputed frame size is the 32-bit unsigned product divided by 8, below 2^31 |
| RawV3.Corrected | RawLibrary/RawV3.cs:225 | the reader keeps the header with the recomputed image size |
| RawV3.ReadNextFrame | RawLibrary/RawV3.cs:265-283 | the image data header, then the pixels in a new buffer, reordered and cleaned; the stream ends after both |
| RawV3.Prepare | RawLibrary/RawV3.cs:270-283 | the buffer becomes the reordered and, when enabled, noise-removed frame, or the error of the failing step |
| RawV3.FpnRemoval | RawLibrary/RawV3.cs:315-392 | the S formula wins over the Q formula, a header naming neither leaves the frame alone, and a negative window offset or a short table is an error |
| RawV3.RawV3.constructor | RawLibrary/RawV3.cs:138-143 | the reader starts at frame 0 with a zeroed buffer of the corrected size |
| RawV3.RawV3.ReadFrame | RawLibrary/RawV3.cs:260-286 | past the last frame nothing changes; otherwise the next frame is read where the stream stands and the frame cursor advances by one |
| RawV3.RawV3.ReadFrameAt | RawLibrary/RawV3.cs:292-302 | an out-of-range number changes nothing; otherwise the cursor is set, the stream seeks to the frame's offset and one frame is read |
| RawV3.RawV3.ReadPreviousFrame | RawLibrary/RawV3.cs:304-310 | at frame 1 or before the result is false and nothing changes; otherwise the frame two back is read and the result is true |
| RawV3.Open | RawLibrary/RawV3.cs:138-233 | the header is read and its frame size corrected, and the FPN table of `FPNHeaderSize` bytes follows only when the FPN byte is set |
| RawV3.LoadTable | RawLibrary/RawV3.cs:228-232 | the table is read only when the FPN byte is not 0, and a size whose `int` cast is negative fails |
| RawV3.HeaderRanges | RawLibrary/RawV3.cs:170-178 | the 64-bit header fields decode to values of their declared range |
| RawV3.SeekOffsetExact | RawLibrary/RawV3.cs:298 | without 64-bit overflow the seek target of frame n is header, stored table and n whole frames |
| RawV3.SequentialAgreesWithSeek | RawLibrary/RawV3.cs:292-299 | sequential and seeking reads reach the same offset exactly when the FPN byte is set or the stored table is empty |
| RawV3.FrameAdvance | RawLibrary/RawV3.cs:265-268 | a frame read inside the file advances the stream by exactly one stride |
| RawImage.MonoInBoundsIff | RawLibrary/RawImage.cs:107-120 | the quantifier-free bounds test holds exactly when every sample the monochrome loop reads lies inside the frame buffer |
| RawImage.MonoBitmap | RawLibrary/RawImage.cs:98-121 | the monochrome picture has one pixel per image pixel, and pixel (x, y) is the grey of sample `y * SensorWidth + x`, the padding skipped after each row |
| RawImage.CopyMono | RawLibrary/RawImage.cs:98-121 | the copy succeeds exactly when every read sample is inside the buffer, and then the bitmap is the monochrome picture |
| RawImage.CopyMonoRows | RawLibrary/RawImage.cs:106-120 | with every sample inside the buffer, the loop nest leaves the monochrome picture in the bitmap |
| RawImage.CopyMonoRow | RawLibrary/RawImage.cs:112-119 | one row of the loop extends the correctly written prefix of the bitmap by one image row |
| RawImage.Render | RawLibrary/RawImage.cs:93-131 | a rendered frame has one pixel per image pixel |
| RawImage.RenderMonoShowsSample | RawLibrary/RawImage.cs:113-116 | on a monochrome sensor the sample is replicated into red, green and blue |
| RawImage.RenderBayerKeepsSamples | RawLibrary/BayerAlgorithm.cs:1373-1415 | with `BayerSimple` a green site shows its sample as green, and an inner red or blue site shows it in its own channel |
| RawImage.MonoIsPackedFrame | RawLibrary/RawImage.cs:98-121 | the monochrome loop produces the same bitmap as packing one plane into all three channels |
| RawImage.ConvertBayer | RawLibrary/RawImage.cs:122-124 | the Bayer path leaves the rendered frame in the bitmap, or reports the rendering's error |
| RawImage.CreateBlankFrame | RawLibrary/RawImage.cs:138-150 | the blank frame has the image's aspect ratio with both sides positive and no larger than the image, a stride that holds a row of 1-bit pixels, and all-zero data |
| RawImage.GcdDivides | RawLibrary/RawImage.cs:140 | the greatest common divisor divides both sides |
| RawImage.GcdGreatest | RawLibrary/RawImage.cs:140 | every common divisor divides it |
| RawImage.ReducedCoprime | RawLibrary/RawImage.cs:140-144 | dividing both sides by their gcd leaves coprime sides |
| RawImage.BlankFrameSmallest | RawLibrary/RawImage.cs:133-150 | no frame with positive sides of the same aspect ratio is smaller than the blank frame |
| RawImage.CoprimeRatioSmallest | RawLibrary/RawImage.cs:143-144 | coprime sides are the smallest of their ratio |
| RawImage.RawImage.constructor | RawLibrary/RawImage.cs:34-55 | without a raw file the image keeps the given sensor type and zero sizes; with one, sizes, sensor type and frame count come from the header (sizes cast to `int`), and the blank frame is created |
| RawImage.RawImage.UpdateSource | RawLibrary/RawImage.cs:93-131 | the bitmap shows the current frame, or the rendering reports why it cannot |
| RawImage.RawImage.ReadFrame | RawLibrary/RawImage.cs:62-69 | without a raw file nothing happens; otherwise the frame is read and shown, and a failed read leaves the bitmap alone |
| RawImage.RawImage.ReadFirstFrame | RawLibrary/RawImage.cs:57-60 | it reads and shows frame 0 |
| RawImage.RawImage.ReadNextFrame | RawLibrary/RawImage.cs:71-78 | it reads the next frame, advancing the cursor by one unless past the end, and shows it |
| RawImage.RawImage.ReadPreviousFrame | RawLibrary/RawImage.cs:80-87 | it reads the previous frame when there is one and shows the current frame either way |
| RawImage.Open | RawLibrary/RawImage.cs:34-55 | a file that is not `.raw3` gives an image without frames of the given sensor type; a `.raw3` file opens exactly when its header decodes and both sides are positive, with the header's sensor type |
| RawImage.OpenAsWritten | RawLibrary/RawImage.cs:53-54 | a file that is not `.raw3` with a non-mono sensor type throws a null reference, because the `BayerSimple` constructor reads the absent raw data |
| BayerGeometry.At | RawLibrary/BayerAlgorithm.cs:599-602 | pixel `(x, y)` of a frame is element `y * Width + x`, and the row and column are recovered from it |
| BayerGeometry.LayoutNames | RawLibrary/BayerAlgorithm.cs:203-276 | each of the four sensor layouts puts the colour its name says at the four sites of the upper-left 2x2 block, and the pattern repeats every two rows and columns |
| BayerGeometry.NeighboursOfColourSite | RawLibrary/BayerAlgorithm.cs:1232-1248 | the four direct neighbours of a red or blue site are green and its diagonal neighbours are not |
| BayerGeometry.Reflect | RawLibrary/BayerAlgorithm.cs:52-72 | an offset that leaves the frame is mirrored back into it, and one that stays inside is taken as it is |
| BayerGeometry.CheckPixelIndexReflects | RawLibrary/BayerAlgorithm.cs:52-72 | `CheckPixelIndex` gives the index of the mirrored neighbour in both directions |
| BayerEquations.Eq3ReproducesRamps | RawLibrary/BayerAlgorithm.cs:605-609 | the horizontal 5-tap filter reproduces a sample that lies on a horizontal linear ramp |
| BayerEquations.Eq4ReproducesRamps | RawLibrary/BayerAlgorithm.cs:630-634 | the vertical 5-tap filter reproduces a sample on a vertical linear ramp |
| BayerEquations.Eq5ReproducesPlanes | RawLibrary/BayerAlgorithm.cs:657-665 | the 9-tap cross filter reproduces a sample on a linear plane |
| BayerEquations.HorizontalActivity | RawLibrary/BayerAlgorithm.cs:692-699 | the horizontal activity of a 5x5 window is at most 1020 per row summed |
| BayerEquations.VerticalActivity | RawLibrary/BayerAlgorithm.cs:722-729 | the vertical activity is at most 1020 per column summed |
| BayerEquations.HorizontalActivityZero | RawLibrary/BayerAlgorithm.cs:692-699 | the horizontal activity is zero exactly when every summed row of the window is flat |
| BayerEquations.VerticalActivityZero | RawLibrary/BayerAlgorithm.cs:722-729 | the vertical activity is zero exactly when every summed column of the window is flat |
| BayerEquations.EdgeRatio | RawLibrary/BayerAlgorithm.cs:748 | the ratio `Max(e7 / e6, e6 / e7)` is a finite number exactly when both activities are positive, and then it is at least 1 |
| BayerEquations.SharpByCrossMultiplication | RawLibrary/BayerAlgorithm.cs:748 | the ratio exceeds the threshold exactly when one activity alone is zero (an infinite ratio) or one activity exceeds the threshold times the other; a 0/0 ratio never exceeds it |
| BayerEquations.VcdDirectionIsOptimal | RawLibrary/BayerAlgorithm.cs:1342-1358 | on a sharp block the green estimate is the horizontal one exactly when the horizontal activity is the smaller; otherwise the chosen direction has the least variance, preferring horizontal, then vertical, on ties |
| BayerEquations.ConstantDifferenceRestored | RawLibrary/BayerAlgorithm.cs:1232-1248 | when the neighbours share one colour difference, `Eq19_22`, `Eq20_21` and `Eq23` restore it exactly on top of the green value |
| BayerEquations.Eq19_22BorderAgreesInside | RawLibrary/BayerAlgorithm.cs:1251-1257 | away from the left and right border the border-aware `Eq19_22` is the interior one |
| BayerEquations.Eq20_21BorderAgreesInside | RawLibrary/BayerAlgorithm.cs:1259-1265 | away from the top and bottom border the border-aware `Eq20_21` is the interior one |
| BayerEquations.Eq23BorderWeighsUpperLeftTwice | RawLibrary/BayerAlgorithm.cs:1267-1278 | the border-aware `Eq23` as written counts the upper-left difference twice and never reads the lower-right one |
| BayerEquations.Eq23BorderMissesLowerRight | RawLibrary/BayerAlgorithm.cs:1267-1278 | on a 4x4 frame whose only colour difference is at the lower-right diagonal, the interior `Eq23` gives 63 and the border-aware one gives 0 |
| BayerEquations.Eq23BorderIntendedAgreesInside | RawLibrary/BayerAlgorithm.cs:1242-1248 | with its fourth sample at offset (1,1), the border-aware `Eq23` is the interior one away from the borders |
| BayerEquations.Eq23BorderIntendedSeesLowerRight | RawLibrary/BayerAlgorithm.cs:1267-1278 | the corrected border-aware `Eq23` gives 63 on the frame where the as-written one gives 0 |
| BayerEquations.ColourDiffTap | RawLibrary/BayerAlgorithm.cs:1163-1178 | a colour-difference tap of the variance estimates lies between -255 and 255 |
| BayerEquations.ColourDiffTapBetween | RawLibrary/BayerAlgorithm.cs:1174-1177 | an odd tap is the halved sum of its two even neighbours, so it lies between them |
| BayerPlanes.Mean | RawLibrary/BayerAlgorithm.cs:136 | `ByteClamp((a + b) >> 1)` of two bytes is their mean rounded down and lies between them |
| BayerPlanes.FirReflectedInside | RawLibrary/BayerAlgorithm.cs:846-894 | inside the window the mirrored filter of `CalcEq3_4_5` equals the plain one |
| BayerPlanes.Fir345IsReflectingFilter | RawLibrary/BayerAlgorithm.cs:830-898 | `CalcEq3_4_5` leaves the mirrored filter at every red and blue site and zero at green ones, and agrees with `CalcEq3`/`CalcEq4`/`CalcEq5` where those write |
| BayerPlanes.EdgeRatioUndefinedOutsideWindow | RawLibrary/BayerAlgorithm.cs:742-749 | `CalcEqE` visits the first and last two rows, where the activities were never computed, so the ratio there is 0/0 and never marks a sharp block |
| BayerPlanes.BlockGreens | RawLibrary/BayerAlgorithm.cs:121-133 | in every 2x2 block the two green sites are where the layout puts them |
| BayerPlanes.VcdGreenIsAnEstimate | RawLibrary/BayerAlgorithm.cs:1342-1358 | the VCD green value at a colour site is one of the three filter estimates: on a sharp block the one across the weaker activity, otherwise one whose variance is the least |
| BayerPlanes.GreenBorderKeepsGreenSites | RawLibrary/BayerAlgorithm.cs:114-193 | the border pass never changes a green site |
| BayerPlanes.GreenPassesKeepGreenSites | RawLibrary/BayerAlgorithm.cs:1385-1411 | every green interpolation leaves the green sites with their original samples |
| BayerPlanes.BorderGreenIsMeanOfGreens | RawLibrary/BayerAlgorithm.cs:134-192 | every colour site the border pass fills gets the mean of two green sites |
| BayerPlanes.GreenBorderSkipsBottomCorners | RawLibrary/BayerAlgorithm.cs:143-192 | for the layouts that start with a colour site, two colour sites in the last rows are never given a green value |
| BayerPlanes.OnlyDspReadsEq3 | RawLibrary/BayerAlgorithm.cs:1505-1525 | of the direct interpolations only DSP reads the `Eq3` plane |
| BayerPlanes.PackUnpack | RawLibrary/BayerAlgorithm.cs:104 | the packed pixel holds red, green and blue in bits 16-23, 8-15 and 0-7, with the top byte zero |
| BayerPasses.FirPass | RawLibrary/BayerAlgorithm.cs:591-668 | the sweeps of `CalcEq3`, `CalcEq4` and `CalcEq5` each leave the filter plane of their direction |
| BayerPasses.Fir345Pass | RawLibrary/BayerAlgorithm.cs:840-897 | the sweep of `CalcEq3_4_5` leaves the mirrored filter plane |
| BayerPasses.ActivityPass | RawLibrary/BayerAlgorithm.cs:670-732 | the sweeps of `CalcEq6` and `CalcEq7` leave the activity planes |
| BayerPasses.EdgePass | RawLibrary/BayerAlgorithm.cs:734-751 | the sweep of `CalcEqE` leaves the ratio plane |
| BayerPasses.CrossCounterMatchesSites | RawLibrary/BayerAlgorithm.cs:653-655 | the loop counter of `CalcEq5`, started at `xMin + offsetY`, makes as many steps as the sites of its row |
| BayerPasses.GreenInteriorPass | RawLibrary/BayerAlgorithm.cs:1385-1525 | the interior loops of the simple, ACPI and DSP green interpolations leave their green plane |
| BayerPasses.GreenBorderPass | RawLibrary/BayerAlgorithm.cs:114-193 | the three loops of `InterpolateGreenBorderPixel` together leave the border green plane |
| BayerPasses.VcdGreenPass | RawLibrary/BayerAlgorithm.cs:1301-1364 | the interior loop of the VCD green interpolation leaves its green plane |
| BayerPasses.ColourDiffPass | RawLibrary/BayerAlgorithm.cs:541-589 | the two loops of `CalcColorDiff` leave the colour-difference plane |
| BayerPasses.RedBlueInteriorPass | RawLibrary/BayerAlgorithm.cs:203-277 | the interior loops of `InterpolateRedBlue` leave the red or blue plane of `Eq19_22`, `Eq20_21` and `Eq23` |
| BayerPasses.RedBlueCapPass | RawLibrary/BayerAlgorithm.cs:295-307 | the loop over the top and bottom rows of `InterpolateRedBlueBorder` leaves the cap plane |
| BayerPasses.RedBlueSidePass | RawLibrary/BayerAlgorithm.cs:310-324 | the loop over the left and right columns leaves the side plane |
| BayerSweep.Swept | RawLibrary/BayerAlgorithm.cs:1396-1409 | a sweep changes exactly the sites it visits, each to its estimate |
| BayerSweep.Run | RawLibrary/BayerAlgorithm.cs:1395-1409 | the shared loop nest (rows, then every second site from the layout's offset) leaves the swept plane, provided no estimate reads a site the sweep writes |
| BayerRefinement.SourceRefinesInnerSitesIff | RawLibrary/BayerAlgorithm.cs:436-521 | the sites `Refinement` visits are the inner colour sites exactly for the layouts that start with a colour site; for the others it visits green site (3, 3) and skips colour site (2, 3) |
| BayerRefinement.SourceRefineChannelIff | RawLibrary/BayerAlgorithm.cs:439-520 | `Refinement` reads the visited site's own colour plane exactly for BG_GR and GR_BG; for RG_GB and GB_RG it always reads the other plane |
| BayerRefinement.RefinedPlaneSites | RawLibrary/BayerAlgorithm.cs:425-522 | the corrected refinement changes only inner colour sites and reads the site's own colour plane |
| BayerRefinement.RefinedReadsNeighbours | RawLibrary/BayerAlgorithm.cs:445-453 | the refined value depends on the green plane only through the four direct neighbours |
| BayerRefinement.RefinementPass | RawLibrary/BayerAlgorithm.cs:425-522 | the corrected loop nest visits every inner colour site, reads no site it writes, and leaves the refined plane |
| BayerDemosaic.WithRedBlue | RawLibrary/BayerAlgorithm.cs:195-280 | the red and blue interpolation leaves the green plane alone |
| BayerDemosaic.RedBlueKeepsOwnSites | RawLibrary/BayerAlgorithm.cs:203-277 | an inner red (blue) site keeps its red (blue) value |
| BayerDemosaic.RefinedKeepsGreenSites | RawLibrary/BayerAlgorithm.cs:425-522 | the corrected refinement (see Findings) never changes a green site |
| BayerDemosaic.DemosaicKeepsSamples | RawLibrary/BayerAlgorithm.cs:1288-1775 | every algorithm keeps each green site's sample in the green plane and each inner red or blue site's sample in its own plane; the two refining algorithms are taken with the corrected refinement (see Findings) |
| Bayer.Bitmap | RawLibrary/BayerAlgorithm.cs:86-112 | the bitmap has one pixel per image pixel, packed from the three planes at the same pixel, the sensor's padding columns skipped |
| Bayer.PackRows | RawLibrary/BayerAlgorithm.cs:99-110 | the loop nest of `CopyRGBtoBitmap` writes exactly that bitmap |
| Bayer.BayerAlgorithm.constructor | RawLibrary/BayerAlgorithm.cs:40-45 | the algorithm keeps the raw frame, the sensor geometry and the threshold 2.0 |
| Bayer.BayerAlgorithm.CopyRawToRGB | RawLibrary/BayerAlgorithm.cs:78-84 | all three planes start as copies of the raw frame |
| Bayer.BayerAlgorithm.CopyRGBtoBitmap | RawLibrary/BayerAlgorithm.cs:86-112 | the bitmap is the packed image of the three planes |
| Bayer.BayerAlgorithm.CalcEq3 | RawLibrary/BayerAlgorithm.cs:591-612 | `m_Eq3` is the horizontal filter plane |
| Bayer.BayerAlgorithm.CalcEq4 | RawLibrary/BayerAlgorithm.cs:614-637 | `m_Eq4` is the vertical filter plane |
| Bayer.BayerAlgorithm.CalcEq5 | RawLibrary/BayerAlgorithm.cs:639-668 | `m_Eq5` is the cross filter plane |
| Bayer.BayerAlgorithm.CalcEq6 | RawLibrary/BayerAlgorithm.cs:670-702 | `m_Eq6` is the horizontal activity plane |
| Bayer.BayerAlgorithm.CalcEq7 | RawLibrary/BayerAlgorithm.cs:704-732 | `m_Eq7` is the vertical activity plane |
| Bayer.BayerAlgorithm.CalcEqE | RawLibrary/BayerAlgorithm.cs:734-751 | `m_EqE` is the ratio plane of the two activity planes |
| Bayer.BayerAlgorithm.CalcEq3_4_5 | RawLibrary/BayerAlgorithm.cs:830-898 | the three filter planes are the mirrored filters over all colour sites |
| Bayer.BayerAlgorithm.CalcEq3_4_5_6_7_E | RawLibrary/BayerAlgorithm.cs:753-827 | the six planes are the separate passes' planes restricted to the inner window, zero elsewhere |
| Bayer.BayerAlgorithm.CalcColorDiff | RawLibrary/BayerAlgorithm.cs:541-589 | the four difference planes are the colour-difference planes of the three filters |
| Bayer.BayerAlgorithm.InterpolateGreenBorderPixel | RawLibrary/BayerAlgorithm.cs:114-193 | the green plane becomes the border green plane of the old one |
| Bayer.BayerAlgorithm.InterpolateGreen | RawLibrary/BayerAlgorithm.cs:1385-1525 | the simple, ACPI and DSP green interpolations leave their green plane |
| Bayer.BayerAlgorithm.InterpolateVcdGreen | RawLibrary/BayerAlgorithm.cs:1301-1366 | the VCD green interpolation leaves the VCD green plane |
| Bayer.BayerAlgorithm.Refinement | RawLibrary/BayerAlgorithm.cs:425-522 | the green plane becomes the refined plane, corrected to visit the colour sites with their own plane |
| Bayer.BayerAlgorithm.InterpolateRedBlue | RawLibrary/BayerAlgorithm.cs:195-280 | the red and blue planes become their interpolated planes |
| Bayer.BayerAlgorithm.RedBlueBorder | RawLibrary/BayerAlgorithm.cs:282-423 | one plane becomes its border plane |
| Bayer.BayerAlgorithm.DirectPlanes | RawLibrary/BayerAlgorithm.cs:1377-1383 | the simple, ACPI and DSP pipelines leave the direct demosaiced frame |
| Bayer.BayerAlgorithm.VcdPlanes | RawLibrary/BayerAlgorithm.cs:1292-1299 | the VCD pipeline leaves the VCD frame from the combined estimates |
| Bayer.BayerAlgorithm.SeparateEstimates | RawLibrary/BayerAlgorithm.cs:1537-1543 | the six separate passes leave the separate estimates |
| Bayer.BayerAlgorithm.VcdSeparatePlanes | RawLibrary/BayerAlgorithm.cs:1535-1547 | the VCDsimple and VCDcolorDiff pipelines leave the VCD frame from the separate estimates |
| Bayer.BayerAlgorithm.VcdRefinedPlanes | RawLibrary/BayerAlgorithm.cs:1688-1702 | the refinement pipelines leave the VCD frame refined by the corrected refinement (see Findings) |
| Bayer.BayerAlgorithm.Demosaicing | RawLibrary/BayerAlgorithm.cs:1288-1775 | the planes are the demosaiced frame of the chosen algorithm, the refining ones with the corrected refinement |
| Bayer.BayerAlgorithm.Convert | RawLibrary/BayerAlgorithm.cs:1288-1775 | the bitmap is the packed image of the chosen algorithm's demosaiced frame, the refining ones with the corrected refinement |
| Annotations.CompareIsKeyOrder | AnomalyModel/Annotations.cs:59-95 | the comparer returns -1, 0 or 1; it is negative exactly when `(Frame, XStart, XEnd)` comes first lexicographically, and zero exactly on equal keys (`AnnotationV2Comparer` in AnomalyModel/AnnotationsV2.cs has the same body) |
| Annotations.CompareAntisymmetric | AnomalyModel/Annotations.cs:59-95 | swapping the arguments negates the result |
| Annotations.CompareTransitive | AnomalyModel/Annotations.cs:59-95 | the comparer's order is transitive, both strict and non-strict |
| Annotations.Insert | AnomalyModel/Annotations.cs:207 | inserting into an ordered list keeps it ordered and adds exactly the new annotation |
| Annotations.SortAnnotations | AnomalyModel/Annotations.cs:207 | `OrderBy` with the comparer gives an ordered permutation of the annotations |
| Annotations.Write | AnomalyModel/Annotations.cs:200-213 | the text is HEADER, the `annotated_frames=` line with the frames ascending, an empty line, DATA, then one line per annotation in comparer order, each line ended by a newline (`AnnotationsV2Writer` in AnomalyModel/AnnotationsV2.cs has the same body) |
| Annotations.FourLines | AnomalyModel/Annotations.cs:203-206 | the four header lines appended in turn give the header text |
| Annotations.ParseDataLine | AnomalyModel/Annotations.cs:156-177 | a data line that parses has a `ulong` frame and `int` bounds, each read with the white space and sign `NumberStyles.Integer` allows, and it goes to the anomaly list exactly when its trimmed label is Anomaly or 0 |
| Annotations.ParseFrames | AnomalyModel/Annotations.cs:152 | the annotated frames parse exactly when every token is a `ulong` in `NumberStyles.Integer` (white space around it, a sign allowed), each becoming its value |
| Annotations.PaddedDataLine | AnomalyModel/Annotations.cs:159-162 | a stored annotation's DATA line with spaces around its frame, label and bounds still reads as that annotation |
| Annotations.LabelPadded | AnomalyModel/Annotations.cs:160 | `Enum.Parse` trims the spaces around a label name |
| Annotations.Finish | AnomalyModel/Annotations.cs:185-194 | the result exists exactly when an `annotated_frames=` line was read and its frames parse; then the three frame arrays ascend, anomaly and unclear frames are those of the regions, the normal frames are the annotated ones that are neither, and the regions keep file order |
| Annotations.Read | AnomalyModel/Annotations.cs:134-195 | the line loop gives the result of the reader's specification (`AnnotationsV2Reader.Read` in AnomalyModel/AnnotationsV2.cs has the same body) |
| Annotations.StrayFirstLine | AnomalyModel/Annotations.cs:179-182 | a first line that is not HEADER, DATA or empty is rejected as unexpected |
| Annotations.DataLineParses | AnomalyModel/Annotations.cs:156-177 | every written data line parses back to its annotation and is neither HEADER nor DATA |
| Annotations.FieldsOf | AnomalyModel/Annotations.cs:209 | a written data line splits at the commas into its five fields |
| Annotations.FrameTextsLines | AnomalyModel/Annotations.cs:204 | the written frame numbers parse back to the frames |
| Annotations.FramesLine | AnomalyModel/Annotations.cs:150-153 | the written `annotated_frames=` line is recognised in the header, and removing its key and splitting at commas gives back the frame texts |
| Annotations.ScanHeader | AnomalyModel/Annotations.cs:140-153 | reading the written header leaves the reader in the data state with the annotated frames |
| Annotations.ScanDataLines | AnomalyModel/Annotations.cs:154-178 | reading data lines appends the anomalies and the unclear regions to their lists in order |
| Annotations.ScanFile | AnomalyModel/Annotations.cs:140-183 | reading a written file leaves the annotated frames and the anomaly and unclear regions in comparer order |
| Annotations.FinishWritten | AnomalyModel/Annotations.cs:185-194 | finishing such a scan gives the sorted frame sets |
| Annotations.ReadWrite | AnomalyModel/Annotations.cs:134-213 | reading what `Write` wrote gives the normal frames (annotated minus anomaly and unclear frames), the anomaly and unclear frames ascending, and the anomaly and unclear regions in comparer order |
| FrameAnnotations.Range | AnomalyModel/AnnotationV1Reader.cs:63-66 | a range holds exactly the frames between its bounds, both included |
| FrameAnnotations.Added | AnomalyModel/AnnotationV1Reader.cs:55-72 | adding never removes a frame, and one bound fails only when `ulong.Parse` refuses it |
| FrameAnnotations.AddRangeToSet | AnomalyModel/AnnotationV1Reader.cs:55-72 | the method adds one frame, or the inclusive range of two bounds, or fails on a bound that does not parse or on any other number of pieces (`AnnotationReader.AddRangeToSet` in AnomalyDetection/AnnotationReader.cs is identical) |
| FrameAnnotations.SpacedPair | AnomalyModel/AnnotationV1Reader.cs:61-66 | a range line with spaces around its bounds, such as `10 - 20`, splits at the dash and adds the range |
| FrameAnnotations.WrappedCounterNeverExits | AnomalyModel/AnnotationV1Reader.cs:63 | with the upper bound 2^64-1 the `ulong` counter wraps and the loop never ends, however many iterations it is given |
| FrameAnnotations.WrappedLoopBelowMax | AnomalyModel/AnnotationV1Reader.cs:63-66 | below that bound the wrapping loop adds exactly the range |
| FrameAnnotations.Finish | AnomalyModel/AnnotationV1Reader.cs:50-52 | both arrays ascend, the anomaly frames are the anomalous ones, and the normal frames are the annotated frames that are not anomalous |
| FrameAnnotations.ReadAnnotations | AnomalyModel/AnnotationV1Reader.cs:30-53 | the line loop gives the result of the reader's specification (`AnnotationReader.ReadAnnotations` in AnomalyDetection/AnnotationReader.cs has the same body) |
| FrameAnnotations.StepEntry | AnomalyModel/AnnotationV1Reader.cs:36-47 | an `ANNOTATED_RANGE=` line adds its range to the annotated frames, a range line adds it to the anomalous frames, and a comment or empty line changes nothing |
| FrameAnnotations.CollectEntries | AnomalyModel/AnnotationV1Reader.cs:34-49 | reading a list of written lines collects all their annotated and all their anomalous frames |
| FrameAnnotations.ReadEntries | AnomalyModel/AnnotationV1Reader.cs:30-53 | reading a written file gives the annotated minus the anomalous frames as normal frames and the anomalous frames, both ascending |
| FrameAnnotations.AnomalousIsNeverNormal | AnomalyModel/AnnotationV1Reader.cs:50 | no frame is both normal and anomalous |
| Text.Split | AnomalyModel/Annotations.cs:156 | `Split` on one character gives one piece more than there are separators, none containing it |
| Text.JoinSplit | AnomalyModel/Annotations.cs:152 | joining the pieces with the separator gives back the string |
| Text.SplitJoin | AnomalyModel/Annotations.cs:209 | splitting a join of separator-free pieces gives back the pieces |
| Text.RemoveAllAbsent | AnomalyModel/Annotations.cs:152 | `Replace(p, "")` leaves a string without the pattern's first character unchanged |
| Text.RemovePrefix | AnomalyModel/Annotations.cs:152 | removing the key from the key followed by such a string leaves the string |
| Text.ReadWriteLines | AnomalyModel/Annotations.cs:140 | reading the lines of text written line by line gives back the lines |
| Numbers.NatTextValue | AnomalyModel/Annotations.cs:204 | the decimal text of a number has that value |
| Numbers.ParseULongText | AnomalyModel/Annotations.cs:159 | `ulong.Parse` of the text of a `ulong` gives it back |
| Numbers.ParseIntText | AnomalyModel/Annotations.cs:161-162 | `int.Parse` of the text of an `int` gives it back |
| Numbers.ParseULongPadded | AnomalyModel/Annotations.cs:159 | `ulong.Parse` accepts a number with white space around it and a `+` sign, and a `-` sign only before zero |
| Numbers.ParseULongSpaced | AnomalyModel/Annotations.cs:152 | `ulong.Parse` accepts a number with white space around it |
| Numbers.ParseIntPadded | AnomalyModel/Annotations.cs:161-162 | `int.Parse` accepts the text of an `int` with white space around it |
| Numbers.TrimPadded | AnomalyModel/Annotations.cs:160 | `String.Trim` removes exactly the white space around a text that neither starts nor ends with white space |
| FrameSets.SortedSeq | AnomalyModel/Annotations.cs:185-192 | `Distinct().OrderBy(l => l).ToArray()` gives an ascending array holding exactly the set |
| FrameSets.AscendingUnique | AnomalyModel/AnnotationV1Reader.cs:50-52 | two ascending arrays with the same elements are equal |
| StringOrder.BeforeTotal | AnomalyDetection/MetricsUtil.cs:198 | any two ids are ordered one way or the other |
| StringOrder.BeforeTransitive | AnomalyDetection/MetricsUtil.cs:198 | the order on ids is transitive |
| StringOrder.BeforeAntisymmetric | AnomalyDetection/MetricsUtil.cs:198 | ids ordered both ways are equal |
| StringOrder.Sorted | AnomalyDetection/MetricsUtil.cs:198 | the sorted ids ascend and hold exactly the set |
| StringOrder.Insert | AnomalyDetection/MetricsUtil.cs:198 | inserting a new id into an ascending list keeps it ascending with that id added |
| StringOrder.AscendingUnique | AnomalyDetection/MetricsUtil.cs:198 | two ascending lists with the same ids are equal |
| MetricsUtil.NormalCount | AnomalyDetection/MetricsUtil.cs:105-117 | a count over the first `k` normal-frame predictions never exceeds `k` |
| MetricsUtil.AnomalyCount | AnomalyDetection/MetricsUtil.cs:134-172 | a count over the first `k` zipped pairs never exceeds `k` |
| MetricsUtil.Hits | AnomalyDetection/MetricsUtil.cs:158-164 | the true positives credited to one anomaly never exceed all true positives |
| MetricsUtil.TpsAfter | AnomalyDetection/MetricsUtil.cs:128-131 | the per-anomaly counters have exactly the anomaly ids as keys |
| MetricsUtil.CountNormal | AnomalyDetection/MetricsUtil.cs:104-117 | the loop counts the true negatives and false positives of the normal frames and collects the frames `i / nSamplesPerFrame` of the false positives |
| MetricsUtil.CountHit | AnomalyDetection/MetricsUtil.cs:158-164 | a true positive raises the counter of every anomaly whose indices contain it |
| MetricsUtil.CountAnomalies | AnomalyDetection/MetricsUtil.cs:126-172 | the zip loop counts all four outcomes, the false-positive frames and the per-anomaly true positives |
| MetricsUtil.SortMissed | AnomalyDetection/MetricsUtil.cs:199 | the missed ids, those with no true positive, in ascending order |
| MetricsUtil.CalculateMetrics | AnomalyDetection/MetricsUtil.cs:88-216 | the method computes the metrics of the specification, or the division-by-zero error |
| MetricsUtil.NormalCountsAreMultiplicities | AnomalyDetection/MetricsUtil.cs:105-117 | the normal-frame true negatives are the number of 1 predictions and the false positives all the others |
| MetricsUtil.AnomalyTotal | AnomalyDetection/MetricsUtil.cs:138-169 | every zipped pair is exactly one of true positive, true negative, false positive, false negative or uncounted |
| MetricsUtil.UncountedIffInvalid | AnomalyDetection/MetricsUtil.cs:138-169 | a pair is counted nowhere exactly when a label is neither 0 nor 1 |
| MetricsUtil.HitsPositiveIff | AnomalyDetection/MetricsUtil.cs:158-164 | an anomaly has a positive counter exactly when one of its indices is a true positive |
| MetricsUtil.HitMissPartition | AnomalyDetection/MetricsUtil.cs:197-198 | every anomaly id is either hit or missed |
| MetricsUtil.AnomalyLevels | AnomalyDetection/MetricsUtil.cs:195-206 | the anomaly-level TP and FN add up to the number of anomalies, and the missed-anomalies string joins with ", " the ascending ids of the missed anomalies, as many as the FN |
| MetricsUtil.NoAnomalyInputs | AnomalyDetection/MetricsUtil.cs:208-214 | without anomaly inputs TP and FN are 0, TN is the number of 1 predictions, TN + FP is the number of samples, and the anomaly levels are -1 with no missed-anomalies string |
| MetricsUtil.NormalFpFramesBelow | AnomalyDetection/MetricsUtil.cs:115 | every recorded false-positive frame starts before the end of the samples |
| MetricsUtil.FramesWithFpsBounded | AnomalyDetection/MetricsUtil.cs:180-192 | when the sample counts are multiples of `nSamplesPerFrame`, the frames with false positives are no more than the frames |
| MetricsUtil.ErrorIffNoSamplesPerFrame | AnomalyDetection/MetricsUtil.cs:186-191 | the metrics fail exactly when `nSamplesPerFrame` is 0 |
| Metrics.PrintMetrics | AnomalyDetection/Metrics.cs:22-91 | the printed report holds the four sample counts and, with anomaly inputs, the anomaly-level TP, FN, the sample-level FP and the missed anomalies |
| Metrics.CountNormal | AnomalyDetection/Metrics.cs:32-42 | the true negatives and false positives are the numbers of normal-frame samples predicted normal and anomalous |
| Metrics.CountAnomalyPairs | AnomalyDetection/Metrics.cs:47-83 | with no unclear samples, the four counts are the numbers of anomaly pairs with each outcome, and each anomaly's tally is the number of its true-positive indices |
| Metrics.Exempt | AnomalyDetection/MetricsUtil.cs:142-153 | the unclear false positives are no more than the pairs |
| Metrics.ForgetUnclear | AnomalyDetection/Metrics.cs:58-65 | without unclear indices every unclear false positive counts as a false positive instead of a true negative |
| Metrics.ForgetUnclearKeeps | AnomalyDetection/Metrics.cs:66-80 | without unclear indices the true-positive and false-negative counts do not change |
| Metrics.HitsAgree | AnomalyDetection/Metrics.cs:66-75 | without unclear indices every anomaly's tally of true positives is the same |
| Metrics.HitsIgnoreUnclear | AnomalyDetection/Metrics.cs:66-76 | the per-anomaly true positives do not depend on the unclear indices |
| Metrics.ReportAgainstCalculate | AnomalyDetection/Metrics.cs:22-110 | the printed report agrees with `CalculateMetrics` on TP, FN, the anomaly levels and the missed anomalies; its FP exceeds, and its TN falls short of, that of `CalculateMetrics` by the unclear false positives |
| HogTransformer.Location | AnomalyDetection/HogTransformer.cs:41-48 | a rope location keeps its start row, end row and percentages, and its width counts the cell rows from start to end, both included |
| HogTransformer.RowCount | AnomalyDetection/HogTransformer.cs:219-225 | the dark pixels counted in one row of a cell are no more than the cell's width |
| HogTransformer.CellCountBounded | AnomalyDetection/HogTransformer.cs:216-226 | the dark pixels of a cell are no more than its pixels |
| HogTransformer.CellInside | AnomalyDetection/HogTransformer.cs:202-203 | every whole cell that integer division counts lies inside the image |
| HogTransformer.Fraction | AnomalyDetection/HogTransformer.cs:228 | the background fraction of a cell lies in [0, 1] |
| HogTransformer.ClassifyMonotone | AnomalyDetection/HogTransformer.cs:230-241 | a cell with a larger background fraction is never classified as darker (rope before edge before background) |
| HogTransformer.ScanErrorSticks | AnomalyDetection/HogTransformer.cs:272-275 | once the column scan has thrown, the later cells do not matter |
| HogTransformer.ScanKeepsBounds | AnomalyDetection/HogTransformer.cs:251-278 | after `k` cells the scan remembers the last cell; a start row, once set, lies in 1..k and above the column's last row (equal to `k` only right after an edge cell); an end row, once set, lies between the start row and `k - 2` |
| HogTransformer.LocationInside | AnomalyDetection/HogTransformer.cs:280-291 | a located rope, with its upper and lower edge included, starts and ends inside the column, is at least three cells wide, has width `end - start + 1`, and keeps the column's percentages |
| HogTransformer.PlainScan | AnomalyDetection/HogTransformer.cs:260-271 | a column of background, rope, background cells is scanned to start at the first rope cell and end at the last |
| HogTransformer.EdgedScan | AnomalyDetection/HogTransformer.cs:256-267 | a column of background, edge, rope, edge, background cells is scanned to start after the upper edge and end before the lower edge |
| HogTransformer.LocateCleanRope | AnomalyDetection/HogTransformer.cs:246-291 | such a column gives the rope location one cell above and below the rope cells, `b + 2` cells wide |
| HogTransformer.ColumnErrorSticks | AnomalyDetection/HogTransformer.cs:245-296 | once one column has thrown, the frame's segmentation is that error |
| HogTransformer.SegmentedColumns | AnomalyDetection/HogTransformer.cs:245-296 | every located column lies inside the image, is at least three cells wide and carries its column's background fractions |
| HogTransformer.SegmentShape | AnomalyDetection/HogTransformer.cs:199-299 | a segmented frame has one location per whole cell column, each inside the image and at least three cells wide, with one percentage per whole cell row |
| HogTransformer.FrameErrorSticks | AnomalyDetection/HogTransformer.cs:186-194 | once one frame has thrown, the later frames do not matter |
| HogTransformer.MaxRopeWidth | AnomalyDetection/HogTransformer.cs:111-113 | there is no maximum exactly when there are no locations, and otherwise the result is the width of some location and no location is wider |
| HogTransformer.HogTransformer.constructor | AnomalyDetection/HogTransformer.cs:79-89 | the transformer keeps its six settings and starts with rope width 0 |
| HogTransformer.HogTransformer.CountBackground | AnomalyDetection/HogTransformer.cs:216-226 | the nested loops count the cell's pixels with intensity at most `MaxBackgroundIntensity` |
| HogTransformer.HogTransformer.ClassifyCell | AnomalyDetection/HogTransformer.cs:216-241 | one cell gets its background fraction and its type |
| HogTransformer.HogTransformer.ClassifyCells | AnomalyDetection/HogTransformer.cs:204-243 | the two grids hold the type and the fraction of every whole cell |
| HogTransformer.HogTransformer.ScanCells | AnomalyDetection/HogTransformer.cs:246-278 | the loop over one cell column gives the scan of that column or its error |
| HogTransformer.HogTransformer.SegmentRopeForFrame | AnomalyDetection/HogTransformer.cs:199-299 | the method gives the segmentation of the frame, or the error it throws |
| HogTransformer.HogTransformer.SegmentRopeForFrames | AnomalyDetection/HogTransformer.cs:182-197 | the locations of every frame in order, or the first frame's error |
| HogTransformer.HogTransformer.Fit | AnomalyDetection/HogTransformer.cs:98-123 | `Fit` segments the frames unless locations are given and returns the locations; it succeeds exactly when some frame has a location, and then the rope width is the largest of them; otherwise it throws the segmentation's error or the empty-sequence error and leaves the width alone |

## Left out

- Floating point:
  - the VCD variances `H2`, `V2` and `B2` (`CalcEq11`, `CalcEq12`, `CalcEq17`) are the parameter `Scores`;
  - the gradient weighting of `Refinement` is the parameter `Refiner`;
  - the edge ratio `EqE`, the thresholds and the background fractions are exact reals, with the NaN and infinity cases of the edge ratio written out;
  - `CalcCPSNR` is not part of this model.
- HOG features:
  - `HogTransformer.Transform`, `FitTransform`, `AddFeatureVectorsOfFrame`, `ToProbs` and `CalculateEntropy` (AnomalyDetection/HogTransformer.cs:133-180 and 307-386) compute floating-point histograms through Emgu CV;
  - images reach the segmentation already decoded into grey intensities;
  - the minimum width that `Fit` computes only for printing is left out.
- I/O is modelled by a byte sequence behind a `BinaryReader` with a position:
  - files, streams and their disposal are left out;
  - console output is left out, and `Metrics.PrintMetrics` returns what it prints;
  - `cPrecisionTimer` is not part of this model.
- Concurrency: every `Parallel.For` is a sequential loop. The passes write disjoint pixels and read none they write, so the order does not change the result.
- UI and native code:
  - WPF's `WriteableBitmap` is a packed `array<bv32>`;
  - the OpenCV conversion of `MatUtil.RawToMat` and `printData` are not part of this model.
- Storage: arrays that the source allocates per frame (`Clone`, `new`) are allocated once and overwritten. Jagged arrays are sequences of rows.
- Bayer.BayerAlgorithm: the passes require an even width and height, at least 4, and the wider filters need a larger frame. With odd sides several layouts index outside the frame in the source.
- PixelMath.Combsort: requires a non-empty array. On an empty one the source's final index throws, and that exception is not modelled.
- Debug.Assert calls are omitted: they compile away in a release build.
- Annotations.SortAnnotations: states that the written lines are sorted by the comparer and hold the same annotations. It does not state that `OrderBy` is stable among annotations that compare equal.
- Strings:
  - `OrderBy` on strings is culture-sensitive in .NET, and the model uses ordinal character order;
  - there is no Unicode normalisation.
- Exceptions: the model names each exception the source throws by an error value but keeps no message. In particular the frame number in `SegmentRopeForFrame`'s messages is dropped.
- RawV3.FpnRemoval: a frame or an FPN table too short for the sensor window is one error, `IndexOutOfRange`. In the source, a short table makes `BitConverter.ToInt16` throw `ArgumentOutOfRangeException` (or `ArgumentException` when one byte is left), and a short frame throws `IndexOutOfRangeException`. Which one comes first depends on the pixel where the loop first runs out, and the model does not distinguish them.
- BayerDemosaic.Demosaic: the VcdRefinement and VcdSimpleAndRefinement algorithms use the corrected refinement of the Findings table, not the pass as written. So for GB_RG and GR_BG the source also rewrites green sites, and for RG_GB and GB_RG it reads the other colour plane; the model's planes for these two algorithms are the intended ones.
- BayerDemosaic.DemosaicKeepsSamples: holds of the corrected refinement. For the two refining algorithms the source as written changes green samples on GB_RG and GR_BG frames (`BayerRefinement.SourceRefinesInnerSitesIff`).
- BayerDemosaic.RefinedKeepsGreenSites: is proved of the corrected refinement only, for the same reason.
- Bayer.BayerAlgorithm.VcdRefinedPlanes: leaves the frame of the corrected refinement, for the same reason.
- Bayer.BayerAlgorithm.Demosaicing: for the two refining algorithms the planes are those of the corrected refinement.
- Bayer.BayerAlgorithm.Convert: for the two refining algorithms the bitmap packs the corrected refinement's frame.
- Number parsing: the model follows the .NET Framework rules of `NumberStyles.Integer` and `Enum.Parse`. It takes the current culture's signs to be `+` and `-`. It takes `Char.IsWhiteSpace` to be the white space of Unicode 6.3 and later, so U+180E is not white space.
- Counters: C# `int` counters (confusion-matrix counts, cell counts) are unbounded integers. An overflow would need more than 2^31 samples.
- Dead code: the border-aware `Eq23(x, y, pos)` and `CalcEq3_4_5` are never called by any `Convert` in the source. They are modelled and proved like the live passes.
- The per-frame incremental updates of the colour-difference buffers only feed the variances, which are a parameter here.

## Findings

| source | as written | input that shows it | evidently intended | confidence | as-written member | corrected member |
|---|---|---|---|---|---|---|
| RawLibrary/BayerAlgorithm.cs:480-521 | for layouts whose first site is green (GB_RG, GR_BG) the `offsetY = 1` branch of `Refinement` visits green sites and skips colour sites | a GB_RG or GR_BG frame at least 6 by 6: green site (3, 3) is refined, colour site (2, 3) is not | refine every inner colour site, as for the other two layouts | not executed | BayerRefinement.SourceRefinesInnerSitesIff | BayerRefinement.RefinementPass |
| RawLibrary/BayerAlgorithm.cs:436-479 | for RG_GB and GB_RG the refinement reads the colour plane of the other colour than the visited site's | an RG_GB frame: a red site is refined against the blue plane | read the visited site's own colour plane | not executed | BayerRefinement.SourceRefineChannelIff | Bayer.BayerAlgorithm.Refinement |
| RawLibrary/RawImage.cs:53-54 | a file that is not `.raw3` leaves `Raw` null, yet a non-mono sensor type still creates `BayerSimple`, whose constructor reads `Raw` (RawLibrary/BayerAlgorithm.cs:43) | extension `.avi` with sensor type BG_GR | create a Bayer algorithm only when raw data is present | not executed | RawImage.OpenAsWritten | RawImage.Open |
| AnomalyModel/AnnotationV1Reader.cs:63 | the `ulong` loop `for (i = a; i <= b; i++)` wraps at b = 2^64-1 and never ends (the same loop is at AnomalyDetection/AnnotationReader.cs:57) | the line `0-18446744073709551615` | add the inclusive range and stop | not executed | FrameAnnotations.WrappedCounterNeverExits | FrameAnnotations.AddRangeToSet |
| RawLibrary/BayerAlgorithm.cs:1269-1272 | the border-aware `Eq23(x, y, pos)` computes its fourth neighbour with offset (-1, -1) again instead of (1, 1) | a 4 by 4 BG_GR frame with raw sample 255 at index 10 and 0 elsewhere, at pixel (1, 1): the interior `Eq23` gives 63 and the border one gives 0 | average the four diagonal neighbours | not executed | BayerEquations.Eq23BorderMissesLowerRight | BayerEquations.Eq23BorderIntendedAgreesInside |
