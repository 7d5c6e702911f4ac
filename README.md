# Microphone spectrum analyzer: a Dafny model of its sequential core

The program lists the devices `alcGetString(NULL, ALC_DEVICE_SPECIFIER)` returns, opens the default microphone and then loops forever. Each pass captures `available_samples` 16-bit samples into a 1024-slot buffer, without checking the count against the buffer size, and copies the whole buffer into the input of a 1024-point FFT. It then scans the lower half of the spectrum for a peak: the last bin that exceeds the truncated running maximum. That is not always the strongest bin: a later bin equal to a non-integral maximum, or a weaker one above its floor, takes over. It draws the lowest quarter of the spectrum as a trace, and draws a vertical marker line at the peak when the gate passes. A second trace builder, `plot_samples`, draws the raw waveform.

The model covers four pieces of sequential logic. The audio, FFT and drawing libraries are replaced by their inputs and outputs.

- `DeviceNames` defines the device list format the audio driver returns. A list is NUL-terminated names followed by one more NUL. The module also has the `ListAt` and `Outruns` predicates that the parser proofs use.
- `DeviceList` models `get_audio_devices`:
  - `Scan` and `Parse` are the loop as written, with its two cursors.
  - `GetAudioDevices` is the loop itself, proved equal to `Parse`.
  - The lemmas describe which names come out and where the lagging `next` cursor stops the loop early or makes it read past the final NUL.
  - `ListDevices` and `ParseIntended` are the corrected loop, without the `next` cursor. It lists every well-formed device list in full.
- `FrameFill` models the capture into `ALshort buffer[1024]` and the copy into the FFT input array, as array methods.
- `Spectrum` covers the spectrum block of the capture loop:
  - The peak scan (`ScanPeak` against the function `PeakUpTo`), with the invariants of `max` and `max_freq`, and an exact-maximum scan (`ExactPeakUpTo`) as the intended reference.
  - The spectrum trace (`SpectrumContour`, `IsSpectrumTrace`).
  - The marker gate as written (`WrittenMarker`) and as intended (`PeakMarker`). `PlotSpectrum` runs the whole block.
- `SampleTrace` models `plot_samples`. Its point rows are integer arithmetic, proved the same as the double formula.
- `Basics` holds the shared types and the C++ truncating conversions:
  - `Short` is a 16-bit sample. `Point` is a pixel position whose default value is (0, 0). `Complex` is one FFT slot.
  - `TruncReal` is the `(int)` cast of a double. `TruncDiv` is the integer quotient truncated toward zero, which equals the double formula at main.cpp:109.

Doubles are modelled as exact `real`s, and `int` as unbounded integers.

## Model

| member | source | states |
|---|---|---|
| Basics.TruncReal | main.cpp:214 | `(int)x` truncates toward zero: for x >= 0 the result r satisfies r <= x < r + 1; for x < 0, r - 1 < x <= r |
| Basics.TruncDiv | main.cpp:109 | the integer stand-in for the truncated double quotient at line 109, by a positive divisor: the quotient times the divisor is the dividend rounded toward zero to a multiple, for either sign |
| Basics.TruncRealMonotone | main.cpp:214 | truncation preserves order |
| Basics.TruncDivAgreesWithReal | main.cpp:109 | dividing exactly and then truncating gives the truncating integer quotient |
| DeviceList.NulFrom | main.cpp:30 | `strlen`: the result is the first NUL at or after i, and every character before it is non-NUL; if there is no result, no NUL follows i in the buffer |
| DeviceList.Scan | main.cpp:28-32 | no contract of its own: the loop from cursors `device` and `next`, specified by the lemmas below |
| DeviceList.Parse | main.cpp:22-36 | a null pointer gives no devices; a read past the end is reported only at an index at or beyond the end of the driver string |
| DeviceList.ScanFailsOutside | main.cpp:28-32 | the loop only goes wrong by reading at or beyond the end of the driver string, never inside it |
| DeviceList.GetAudioDevices | main.cpp:22-36 | the two-cursor loop returns exactly `Parse` of the driver string: a null pointer gives no devices, and a read outside the buffer is reported |
| DeviceList.ScanYieldsBufferNames | main.cpp:28-32 | every accepted name is non-empty and NUL-free; the names, each with its NUL, are the buffer's characters from `device` on, in buffer order |
| DeviceList.ParsedNamesOpenBuffer | main.cpp:22-36 | the listing is empty for a null pointer; otherwise its names are valid and, joined with their NULs, form a prefix of the driver string |
| DeviceList.ScanTakesName | main.cpp:28-32 | one pass: with both cursors on non-NUL characters, the name up to the next NUL is taken, `device` moves by len+1 and `next` by len+2 |
| DeviceList.ScanListIsPrefix | main.cpp:28-32 | on a well-formed list with `next` k+1 past `device`, the result is a prefix of the names or a read past the end |
| DeviceList.ScanListStep | main.cpp:28-32 | a name longer than k+1 is taken, and `next` falls one more character behind |
| DeviceList.ScanListHalts | main.cpp:28 | the loop stops with no names at the final NUL, when the name at `device` has exactly k+1 characters, or when the only name left has exactly k characters |
| DeviceList.ScanListStops | main.cpp:24-32 | if the first m names outrun the lagging cursor and name m has length k+m+1, or is the last name and has length k+m, or there is none, exactly the first m names are listed |
| DeviceList.ScanListRunsOff | main.cpp:28-32 | with one short name left, `next` lies past the final NUL and is read out of bounds |
| DeviceList.ScanListOverruns | main.cpp:24-32 | if every name but a short last one outruns the cursor, the loop reads past the final NUL, at an index stated exactly |
| DeviceList.ParseListsLongNames | main.cpp:22-36 | a list whose k-th name has more than k+1 characters is listed in full |
| DeviceList.ParseStopsAtName | main.cpp:24-32 | if every name before position m is longer than its 0-based position plus one, and name m has exactly m+1 characters, the listing is exactly the first m names (an earlier short name may stop the loop sooner, make it read past the end, or be passed over; the lemma covers none of these) |
| DeviceList.ParseDropsLastAtTerminator | main.cpp:24-32 | if every name but the last is longer than its position plus one, and the last of `count` names has count-1 characters, `next` lands on the final NUL and the listing is every name but the last |
| DeviceList.ParseDropsLastDevice | main.cpp:24-32 | devices "abc", "d": only "abc" is listed |
| DeviceList.OneCharFirstDeviceHidesAll | main.cpp:24-28 | a one-character first device gives an empty listing |
| DeviceList.ParseEncodedIsPrefix | main.cpp:22-36 | on a well-formed list the listing is a prefix of the names, or a read past the end |
| DeviceList.ParseOverrunsShortLastName | main.cpp:24-32 | a last name of at most count-2 characters, after long ones, makes the loop read past the end of the list |
| DeviceList.ParseDropsSecondDevice | main.cpp:24-32 | devices "Mic", "Bt": only "Mic" is listed |
| DeviceList.ParseReadsPastTerminator | main.cpp:24-32 | devices "ab", "cde", "f" (10 characters): the loop reads index 10, past the final NUL |
| DeviceList.ScanIntended | main.cpp:28-32 | the corrected loop (Findings 1 and 2) fails only by reading at or beyond the end of the buffer |
| DeviceList.ParseIntended | main.cpp:22-36 | the corrected parser (Findings 1 and 2): a null pointer gives no devices, and a read past the end is reported only beyond the driver string |
| DeviceList.ListDevices | main.cpp:22-36 | the loop without the `next` cursor returns exactly `ParseIntended` |
| DeviceList.ScanIntendedList | main.cpp:28-32 | without the `next` cursor, a well-formed list from `device` on is listed in full |
| DeviceList.ParseIntendedRoundTrip | main.cpp:22-36 | every well-formed device list parses back to its names |
| DeviceNames.EncodedListAt | main.cpp:22-23 | the driver's format (names with NULs, then a final NUL) holds its names from index 0 |
| DeviceNames.EncodeLength | main.cpp:22-23 | a list's length is the total of its name lengths plus one per name, plus the final NUL |
| FrameFill.CapturedFrame | main.cpp:168-169 | after capture, the first `available_samples` slots hold the samples and the other slots hold the indeterminate contents of the fresh buffer, given as `prior` |
| FrameFill.FftInput | main.cpp:172-175 | the FFT input has one slot per sample; slot i has real part exactly `(double)buffer[i]` and imaginary part zero |
| FrameFill.FftInputKeepsSamples | main.cpp:172-175 | the sequence of real parts of the FFT input is exactly the sequence of samples, each converted to a double |
| FrameFill.FftInputInjective | main.cpp:172-175 | the copy loses nothing: two frames with the same FFT input are equal |
| FrameFill.CaptureSamples | main.cpp:168-169 | the buffer afterwards is `CapturedFrame` of its earlier contents and the samples |
| FrameFill.LoadFftInput | main.cpp:171-175 | the loop leaves `in[i] = (buffer[i], 0)` for all 1024 slots |
| FrameFill.FillFrame | main.cpp:168-175 | the FFT input is the captured frame: new samples at the front, the buffer's unwritten slots after them |
| Spectrum.MaxFloor | main.cpp:188-197 | the reference maximum: non-negative, at least the floor of every scanned bin, and equal to one of those floors when positive |
| Spectrum.PeakUpTo | main.cpp:188-198 | the scan state: `max` is never negative, and an assigned `max_freq` lies among the scanned bins |
| Spectrum.ScanPeak | main.cpp:186-199 | the loop ends with (`max`, `max_freq`) = `PeakUpTo(mag, 512)`, and the outer `v` holds bin 511 |
| Spectrum.PeakBoundsBins | main.cpp:192-198 | every scanned bin is below `max + 1`, so its floor is at most `max` |
| Spectrum.PeakUnassignedSilent | main.cpp:188-197 | while `max_freq` is unassigned, `max` is 0 and no scanned bin is positive |
| Spectrum.PeakAssignedBin | main.cpp:194-197 | an assigned `max_freq` is a positive bin whose floor is `max`, and no later bin exceeds `max` |
| Spectrum.PeakIntegralFirst | main.cpp:194-197 | if the peak bin's value is integral, every earlier bin is strictly smaller |
| Spectrum.PeakIsMaxFloor | main.cpp:188-198 | `max` equals the independent reference `MaxFloor`: the largest of 0 and the floors of the scanned bins |
| Spectrum.PeakUnassignedIffSilent | main.cpp:189-197 | `max_freq` stays unassigned if and only if no scanned bin is positive |
| Spectrum.PeakMaxGrows | main.cpp:194-197 | `max` never decreases as the scan proceeds |
| Spectrum.EqualIntegralBinsKeepEarlier | main.cpp:194-197 | when two bins hold the same integral value, the later one is never the peak (the strict `max < v` keeps the first) |
| Spectrum.LowerBinDisplacesPeak | main.cpp:194-197 | 5.5 in bin 0 and then 5.2 in bin 1: the scan ends at bin 1 with `max` 5 |
| Spectrum.PeakSettles | main.cpp:192-198 | once no further bin exceeds `max`, the scan state no longer changes |
| Spectrum.PeakMaxBelow | main.cpp:194-197 | if every scanned bin is below c+1, `max` stays at or below c |
| Spectrum.PeakFreqAdvances | main.cpp:194-197 | once assigned, `max_freq` stays assigned and only moves to later bins |
| Spectrum.NonIntegralMaxTakesPeak | main.cpp:194-197 | a positive, non-integral bin at least as large as every earlier bin becomes the peak with `max` its floor, and the final `max_freq` is that bin or a later one |
| Spectrum.EqualNonIntegralBinsTakeLater | main.cpp:194-197 | when a later bin equals an earlier one, holds the largest value so far, and that value is positive and not integral, the later bin becomes the peak with `max` its floor, and the final `max_freq` is never the earlier bin |
| Spectrum.ExactPeakUpTo | main.cpp:188-197 | the corrected scan (with a `double` maximum): its maximum is non-negative, 0 when unassigned, and otherwise the exact magnitude of a positive scanned bin |
| Spectrum.ExactPeakIsFirstArgmax | main.cpp:188-197 | the corrected scan's maximum bounds every bin; `max_freq` is unassigned if and only if no bin is positive, and otherwise is the first bin of largest magnitude |
| Spectrum.TiedBinsSplit | main.cpp:188-197 | bins 0 and 1 both at 5.5: the scan as written ends with `max` 5 at bin 1, the exact scan at bin 0 |
| Spectrum.SpectrumY | main.cpp:214 | the trace row is 590 - floor(590·m/2097152) for m >= 0, so it is at most 590, and at least 0 when m <= 2097152 |
| Spectrum.SpectrumYDescends | main.cpp:214 | a larger magnitude gets a smaller or equal row |
| Spectrum.SpectrumContour | main.cpp:201-216 | the contour has 1025 default points, then point (4i, row of bin i) for each i in 1..255 |
| Spectrum.SpectrumTraceInImage | main.cpp:207-216 | if every magnitude is in [0, 2097152], every trace point is inside the 1024-by-600 image |
| Spectrum.SalientLastBinAssignsPeak | main.cpp:222-223 | whenever the gate passes, `max_freq` has been assigned and `max` >= 17 |
| Spectrum.WrittenMarker | main.cpp:222-223 | the marker is drawn if and only if bin 511 exceeds 17, and then at column 4·`max_freq` |
| Spectrum.PlotSpectrum | main.cpp:186-223 | the whole block yields the spectrum trace and the marker as written |
| Spectrum.PeakMarker | main.cpp:222-223 | the corrected gate (Finding 3): a marker is drawn only when `max_freq` is assigned and its bin exceeds 17, at column 4·`max_freq` |
| Spectrum.GateIgnoresPeak | main.cpp:222-223 | a strong peak of 100 at bin 23 with every other bin silent is never marked |
| Spectrum.PeakMarkerIffSalient | main.cpp:190-223 | with the gate on the peak bin, the marker is drawn if and only if some scanned bin exceeds 17, and then at 4·`max_freq` |
| Spectrum.PeakMarkerMarksBin23 | main.cpp:222-223 | for the bin-23 example, the gate on the peak bin draws the marker at column 92 |
| SampleTrace.SampleY | main.cpp:109 | the row of a sample b is 300 + (600·b / 32768 truncated toward zero), and lies in [-300, 899] |
| SampleTrace.SampleYAscends | main.cpp:109 | the sample row is monotone, and silence is row 300 |
| SampleTrace.SampleYFullScale | main.cpp:109 | samples -32768 and 32767 map to rows -300 and 899 |
| SampleTrace.PlotSamples | main.cpp:90-111 | the contour has nsamples+1 default points, then point (i, row of buffer[i]) for each i in 1..nsamples-1 |
| SampleTrace.SampleTraceShape | main.cpp:104-111 | a non-empty buffer gives 2·nsamples points, with columns in [0, nsamples) and rows in [-300, 899] |
| SampleTrace.SampleTraceSkipsFirst | main.cpp:107-111 | the trace does not depend on `buffer[0]` |

## Left out

- OpenAL is left out, because it is foreign device I/O:
  - the extension query, the opening, starting, stopping and closing of the device, the sample-count query and the `alGetError` early exits;
  - the driver string, the captured samples and the sample count are inputs of the model instead.
  - `ALC_DEVICE_SPECIFIER` asks OpenAL for its output (playback) devices, although the comments at main.cpp:20 and main.cpp:127 speak of input devices and microphones; capture devices would come from `ALC_CAPTURE_DEVICE_SPECIFIER`. The model parses whatever string the driver returns, so which list it is does not change the model.
- FFTW planning and execution are left out: the transform is a foreign floating-point DFT. The spectrum enters as its magnitudes.
- The square roots that form the magnitudes are left out. Magnitudes are given `real`s; nothing in the scan needs them to be non-negative.
- Doubles are exact `real`s: rounding, NaN and infinities are not modelled. The `int max = v` assignment is truncation without a 32-bit range limit.
- OpenCV rendering is left out: the image, `polylines`, `line`, `imshow` and `waitKey`. The model stops at the point sequences and the marker column handed to it.
- The infinite capture loop and its unreachable cleanup are left out. Each pass is modelled as one call of `FillFrame` and `PlotSpectrum`.
- The commented-out `plot_spectrum` and `main2` are left out, as is the commented-out call of `plot_samples`.
- The `scaling` branch of `plot_samples` is left out, because `scaling` is the constant false. So is the unused `scaling` flag of the spectrum block.
- FrameFill.CaptureSamples: requires `available_samples <= 1024`. The code does not check this, so a larger count would overflow the stack buffer. The buffer is uninitialised on every pass, so the slots above the count are indeterminate (reading them is undefined behaviour); the model gives them arbitrary values, the array's earlier contents, and does not capture the undefined behaviour itself.
- SampleTrace.PlotSamples: takes `nsamples` as a natural number no larger than the buffer. The OpenCV image constructor rejects negative sizes, and a negative count is not modelled.
- DeviceList.GetAudioDevices: reads anywhere outside the driver string return `ReadPastEnd`, not whatever memory lies there.

## Findings

| source | as written | input that shows it | evidently intended | confidence | as-written member | corrected member |
|---|---|---|---|---|---|---|
| main.cpp:24-32 | the loop also requires `*next != '\0'`, and `next` falls one character behind per name, so the k-th name (from 0) ends the listing when it has exactly k+1 characters; and when the last of `count` names has count-1 characters, `next` lands on the final NUL and that name is dropped | devices "Mic", "Bt": only "Mic" is listed; devices "abc", "d": only "abc"; a one-character first device hides all | list every name up to the empty one | high (not executed) | DeviceList.ParseDropsSecondDevice | DeviceList.ParseIntendedRoundTrip |
| main.cpp:24-32 | the `next` cursor can step past the final NUL, and the loop then reads outside the driver's string | devices "ab", "cde", "f": the loop reads index 10 of a 10-character list | never read past the double NUL | high (not executed) | DeviceList.ParseReadsPastTerminator | DeviceList.ListDevices |
| main.cpp:190-223 | the gate `v > 17` tests the outer `v`, which holds bin 511 because the trace loop declares its own `v` | bin 23 at 100 and every other bin 0: no marker is drawn | test the peak's magnitude (`v` is commented "max freq value") | medium (not executed) | Spectrum.GateIgnoresPeak | Spectrum.PeakMarkerIffSalient |
| main.cpp:188-197 | `int max` keeps only the truncated magnitude while the bins keep their fractions, so a later bin that exceeds the truncated value of the strongest bin so far displaces it. An equal bin does so when the value is not integral, and so does a smaller bin above its floor (5.5 then 5.2) | bins 0 and 1 both at 5.5: `max_freq` ends at bin 1; 5.5 then 5.2 also ends at bin 1 | `max_freq` is the first strongest bin | medium (not executed) | Spectrum.EqualNonIntegralBinsTakeLater | Spectrum.ExactPeakIsFirstArgmax |
