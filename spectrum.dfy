/**
 * The spectrum block of the capture loop: the peak scan over the lower half
 * of the FFT output, the spectrum trace handed to the renderer, and the gate
 * that decides whether the peak marker is drawn.
 *
 * The FFT output enters as its magnitudes, `mag[i]` standing for
 * `sqrt(out[i][0]^2 + out[i][1]^2)`, one per bin of the 1024-point frame.
 */
module Spectrum {
  import opened Basics

  /** Bins scanned for the peak: `nsamples / 2`. */
  const HalfFrame: nat := FrameLength / 2

  /** `max` is overwritten with `65536 * 32` before the trace is built. */
  const TraceScale: int := 65536 * 32

  /** `cut_off_factor`: only the lowest quarter of the spectrum is drawn, 4 pixels per bin. */
  const CutOffFactor: nat := 4

  /** Loop bound of the trace, `nsamples / cut_off_factor`. */
  const TraceBins: nat := FrameLength / CutOffFactor

  /** Pixel row of a zero magnitude. */
  const TraceBase: int := 590

  /** The marker is drawn only when the tested magnitude exceeds this. */
  const MarkerThreshold: real := 17.0

  /** The state of the scan: the truncated `int max` and `max_freq`, `None` while unassigned. */
  datatype Peak = Peak(max: int, freq: Option<nat>)

  /** The scan's state after bins `0 .. n-1`; `max < v` compares the int against the double. */
  function PeakUpTo(mag: seq<real>, n: nat): (p: Peak)
    requires n <= |mag|
    ensures p.max >= 0
    ensures p.freq.Some? ==> p.freq.value < n
    decreases n
  {
    if n == 0 then Peak(0, None)
    else
      var p := PeakUpTo(mag, n - 1);
      if (p.max as real) < mag[n - 1] then Peak(TruncReal(mag[n - 1]), Some(n - 1)) else p
  }

  /** Independent reference: the largest of 0 and the floors of the first n magnitudes. */
  function MaxFloor(mag: seq<real>, n: nat): (m: int)
    requires n <= |mag|
    ensures 0 <= m
    ensures forall j | 0 <= j < n :: mag[j].Floor <= m
    ensures 0 < m ==> exists j | 0 <= j < n :: mag[j].Floor == m
    decreases n
  {
    if n == 0 then 0
    else
      var m := MaxFloor(mag, n - 1);
      if mag[n - 1].Floor > m then mag[n - 1].Floor else m
  }

  /** The peak scan loop that fills `max`, `max_freq` and the outer `v`. */
  method ScanPeak(mag: seq<real>) returns (max: int, maxFreq: Option<nat>, v: real)
    requires |mag| == FrameLength
    ensures Peak(max, maxFreq) == PeakUpTo(mag, HalfFrame)
    ensures v == mag[HalfFrame - 1]
  {
    max := 0;
    maxFreq := None;
    v := 0.0;
    var i := 0;
    while i < HalfFrame
      invariant 0 <= i <= HalfFrame
      invariant Peak(max, maxFreq) == PeakUpTo(mag, i)
      invariant 0 < i ==> v == mag[i - 1]
    {
      v := mag[i];
      if (max as real) < v {
        max := TruncReal(v);
        maxFreq := Some(i);
      }
      i := i + 1;
    }
  }

  /** Every scanned bin lies below `max + 1`: the floor of each is at most `max`. */
  lemma {:induction false} PeakBoundsBins(mag: seq<real>, n: nat)
    requires n <= |mag|
    ensures forall j | 0 <= j < n :: mag[j] < (PeakUpTo(mag, n).max + 1) as real
    decreases n
  {
    if n > 0 {
      PeakBoundsBins(mag, n - 1);
    }
  }

  /** While `max_freq` is unassigned, `max` is still 0 and no scanned bin was positive. */
  lemma {:induction false} PeakUnassignedSilent(mag: seq<real>, n: nat)
    requires n <= |mag|
    requires PeakUpTo(mag, n).freq.None?
    ensures PeakUpTo(mag, n).max == 0
    ensures forall j | 0 <= j < n :: mag[j] <= 0.0
    decreases n
  {
    if n > 0 {
      PeakUnassignedSilent(mag, n - 1);
    }
  }

  /** An assigned `max_freq` points at a bin whose floor is `max`; no later bin exceeds `max`. */
  lemma {:induction false} PeakAssignedBin(mag: seq<real>, n: nat)
    requires n <= |mag|
    requires PeakUpTo(mag, n).freq.Some?
    ensures var p := PeakUpTo(mag, n);
      0.0 < mag[p.freq.value] &&
      p.max as real <= mag[p.freq.value] < (p.max + 1) as real &&
      forall j | p.freq.value < j < n :: mag[j] <= p.max as real
    decreases n
  {
    var p := PeakUpTo(mag, n - 1);
    if !((p.max as real) < mag[n - 1]) {
      PeakAssignedBin(mag, n - 1);
    }
  }

  /** An integral peak is strictly above every earlier bin. */
  lemma {:induction false} PeakIntegralFirst(mag: seq<real>, n: nat)
    requires n <= |mag|
    requires PeakUpTo(mag, n).freq.Some?
    requires mag[PeakUpTo(mag, n).freq.value] == PeakUpTo(mag, n).max as real
    ensures var f := PeakUpTo(mag, n).freq.value;
      forall j | 0 <= j < f :: mag[j] < mag[f]
    decreases n
  {
    var p := PeakUpTo(mag, n - 1);
    if (p.max as real) < mag[n - 1] {
      PeakBoundsBins(mag, n - 1);
      var top := PeakUpTo(mag, n).max;
      assert mag[n - 1] == top as real;
      assert p.max < top;
      assert (p.max + 1) as real <= mag[n - 1];
    } else {
      assert PeakUpTo(mag, n) == p;
      PeakIntegralFirst(mag, n - 1);
    }
  }

  /** At the end of the scan `max` is exactly the largest floor of a bin (and 0 if none is positive). */
  lemma {:induction false} PeakIsMaxFloor(mag: seq<real>, n: nat)
    requires n <= |mag|
    ensures PeakUpTo(mag, n).max == MaxFloor(mag, n)
    decreases n
  {
    if n > 0 {
      PeakIsMaxFloor(mag, n - 1);
    }
  }

  /** `max_freq` stays unassigned exactly when no scanned magnitude is positive. */
  lemma PeakUnassignedIffSilent(mag: seq<real>, n: nat)
    requires n <= |mag|
    ensures PeakUpTo(mag, n).freq.None? <==> forall j | 0 <= j < n :: mag[j] <= 0.0
  {
    if PeakUpTo(mag, n).freq.None? {
      PeakUnassignedSilent(mag, n);
    } else {
      PeakAssignedBin(mag, n);
    }
  }

  /** `max` only grows as the scan proceeds. */
  lemma {:induction false} PeakMaxGrows(mag: seq<real>, m: nat, n: nat)
    requires m <= n <= |mag|
    ensures PeakUpTo(mag, m).max <= PeakUpTo(mag, n).max
    decreases n - m
  {
    if m < n {
      PeakMaxGrows(mag, m, n - 1);
    }
  }

  /** Of two bins with the same integral value, the later one never becomes the peak. */
  lemma EqualIntegralBinsKeepEarlier(mag: seq<real>, n: nat, i: nat, j: nat)
    requires i < j < n <= |mag|
    requires mag[i] == mag[j] == mag[j].Floor as real
    ensures PeakUpTo(mag, n).freq != Some(j)
  {
    if PeakUpTo(mag, n).freq == Some(j) {
      PeakAssignedBin(mag, n);
      PeakIntegralFirst(mag, n);
    }
  }

  /**
   * A non-integral maximum is displaced by a later, smaller bin above its floor:
   * with 5.5 in bin 0 and 5.2 in bin 1, the scan ends at bin 1 with `max` 5.
   */
  lemma LowerBinDisplacesPeak()
    ensures var mag := seq(FrameLength, i => if i == 0 then 5.5 else if i == 1 then 5.2 else 0.0);
      PeakUpTo(mag, HalfFrame) == Peak(5, Some(1))
  {
    var mag := seq(FrameLength, i => if i == 0 then 5.5 else if i == 1 then 5.2 else 0.0);
    assert mag[0] == 5.5 && mag[1] == 5.2;
    PeakUnassignedIffSilent(mag, HalfFrame);
    PeakBoundsBins(mag, HalfFrame);
    var p := PeakUpTo(mag, HalfFrame);
    PeakAssignedBin(mag, HalfFrame);
    var f := p.freq.value;
    assert p.max >= 5;
    assert mag[f] >= 5.0;
    assert f <= 1;
  }

  /** Once no later bin exceeds `max`, the scan's state is settled. */
  lemma {:induction false} PeakSettles(mag: seq<real>, m: nat, n: nat)
    requires m <= n <= |mag|
    requires forall j | m <= j < n :: mag[j] <= PeakUpTo(mag, m).max as real
    ensures PeakUpTo(mag, n) == PeakUpTo(mag, m)
    decreases n - m
  {
    if m < n {
      PeakSettles(mag, m, n - 1);
    }
  }

  /** `max` stays at or below an integer bound c when every bin lies below c + 1. */
  lemma {:induction false} PeakMaxBelow(mag: seq<real>, n: nat, c: int)
    requires n <= |mag| && 0 <= c
    requires forall k | 0 <= k < n :: mag[k] < (c + 1) as real
    ensures PeakUpTo(mag, n).max <= c
    decreases n
  {
    if n > 0 {
      PeakMaxBelow(mag, n - 1, c);
    }
  }

  /** Once assigned, `max_freq` only moves on to later bins. */
  lemma {:induction false} PeakFreqAdvances(mag: seq<real>, m: nat, n: nat)
    requires m <= n <= |mag|
    requires PeakUpTo(mag, m).freq.Some?
    ensures PeakUpTo(mag, n).freq.Some?
    ensures PeakUpTo(mag, m).freq.value <= PeakUpTo(mag, n).freq.value
    decreases n - m
  {
    if m < n {
      PeakFreqAdvances(mag, m, n - 1);
    }
  }

  /**
   * A positive, non-integral bin at least as large as every earlier bin becomes
   * the peak: when the scan reaches it, `max` holds at most its truncated value,
   * which the bin exceeds. The final `max_freq` is this bin or a later one.
   */
  lemma NonIntegralMaxTakesPeak(mag: seq<real>, n: nat, j: nat)
    requires j < n <= |mag|
    requires 0.0 < mag[j] && mag[j] != mag[j].Floor as real
    requires forall k | 0 <= k < j :: mag[k] <= mag[j]
    ensures PeakUpTo(mag, j + 1) == Peak(mag[j].Floor, Some(j))
    ensures PeakUpTo(mag, n).freq.Some? && PeakUpTo(mag, n).freq.value >= j
  {
    PeakMaxBelow(mag, j, mag[j].Floor);
    PeakBoundsBins(mag, j);
    PeakFreqAdvances(mag, j + 1, n);
  }

  /**
   * Of two bins with the same non-integral largest value, the later one wins,
   * and the first bin never ends up as the peak.
   */
  lemma EqualNonIntegralBinsTakeLater(mag: seq<real>, n: nat, i: nat, j: nat)
    requires i < j < n <= |mag|
    requires mag[i] == mag[j] && 0.0 < mag[j] && mag[j] != mag[j].Floor as real
    requires forall k | 0 <= k < j :: mag[k] <= mag[j]
    ensures PeakUpTo(mag, j + 1) == Peak(mag[j].Floor, Some(j))
    ensures PeakUpTo(mag, n).freq.Some? && PeakUpTo(mag, n).freq.value != i
  {
    NonIntegralMaxTakesPeak(mag, n, j);
  }

  /** The scan's state with a `double` running maximum instead of the truncating `int max`. */
  datatype ExactPeak = ExactPeak(max: real, freq: Option<nat>)

  /** The peak scan as intended: the running maximum keeps the bin's exact magnitude. */
  function ExactPeakUpTo(mag: seq<real>, n: nat): (p: ExactPeak)
    requires n <= |mag|
    ensures 0.0 <= p.max
    ensures p.freq.None? ==> p.max == 0.0
    ensures p.freq.Some? ==> p.freq.value < n && p.max == mag[p.freq.value] && 0.0 < p.max
    decreases n
  {
    if n == 0 then ExactPeak(0.0, None)
    else
      var p := ExactPeakUpTo(mag, n - 1);
      if p.max < mag[n - 1] then ExactPeak(mag[n - 1], Some(n - 1)) else p
  }

  /**
   * With an exact running maximum, `max_freq` is unassigned exactly when no bin is
   * positive, and otherwise is the first bin of largest magnitude.
   */
  lemma {:induction false} ExactPeakIsFirstArgmax(mag: seq<real>, n: nat)
    requires n <= |mag|
    ensures forall j | 0 <= j < n :: mag[j] <= ExactPeakUpTo(mag, n).max
    ensures ExactPeakUpTo(mag, n).freq.None? <==> forall j | 0 <= j < n :: mag[j] <= 0.0
    ensures ExactPeakUpTo(mag, n).freq.Some? ==>
      var f := ExactPeakUpTo(mag, n).freq.value;
      (forall j | 0 <= j < n :: mag[j] <= mag[f]) && (forall j | 0 <= j < f :: mag[j] < mag[f])
    decreases n
  {
    if n > 0 {
      ExactPeakIsFirstArgmax(mag, n - 1);
    }
  }

  /** Bins 0 and 1 both at 5.5: the scan as written ends at bin 1, the exact scan at bin 0. */
  lemma TiedBinsSplit()
    ensures var mag := seq(FrameLength, i => if i < 2 then 5.5 else 0.0);
      PeakUpTo(mag, HalfFrame) == Peak(5, Some(1)) && ExactPeakUpTo(mag, HalfFrame).freq == Some(0)
  {
    var mag := seq(FrameLength, i => if i < 2 then 5.5 else 0.0);
    assert mag[0] == 5.5 && mag[1] == 5.5;
    EqualNonIntegralBinsTakeLater(mag, HalfFrame, 0, 1);
    PeakAssignedBin(mag, HalfFrame);
    PeakSettles(mag, 2, HalfFrame);
    ExactPeakIsFirstArgmax(mag, HalfFrame);
    var f := ExactPeakUpTo(mag, HalfFrame).freq.value;
    assert mag[f] >= 5.5;
  }

  /** The pixel row of a bin: `(int)(mag * -590.0 / max) + 590` with `max` = 2097152. */
  function SpectrumY(m: real): (y: int)
    ensures 0.0 <= m ==> y == TraceBase - (m * TraceBase as real / TraceScale as real).Floor
    ensures 0.0 <= m ==> y <= TraceBase
    ensures 0.0 <= m <= TraceScale as real ==> 0 <= y
  {
    TruncReal(m * -(TraceBase as real) / TraceScale as real) + TraceBase
  }

  /** A larger magnitude is drawn higher up (a smaller row). */
  lemma SpectrumYDescends(a: real, b: real)
    requires 0.0 <= a <= b
    ensures SpectrumY(b) <= SpectrumY(a)
  {
    TruncRealMonotone(b * -(TraceBase as real) / TraceScale as real,
      a * -(TraceBase as real) / TraceScale as real);
  }

  /**
   * The trace `contour`: the 1025 default points left by `resize(nsamples + 1)`,
   * then one appended point `(4 i, SpectrumY(mag[i]))` for each i in 1 .. 255.
   */
  predicate IsSpectrumTrace(mag: seq<real>, contour: seq<Point>)
    requires |mag| == FrameLength
  {
    |contour| == FrameLength + TraceBins &&
    (forall k | 0 <= k <= FrameLength :: contour[k] == Point(0, 0)) &&
    (forall i | 1 <= i < TraceBins ::
      contour[FrameLength + i] == Point(CutOffFactor * i, SpectrumY(mag[i])))
  }

  /** The trace loop: pre-size the contour, then append one point per drawn bin. */
  method SpectrumContour(mag: seq<real>) returns (contour: seq<Point>)
    requires |mag| == FrameLength
    ensures IsSpectrumTrace(mag, contour)
  {
    contour := seq(FrameLength + 1, _ => Point(0, 0));
    var i := 1;
    while i < TraceBins
      invariant 1 <= i <= TraceBins
      invariant |contour| == FrameLength + i
      invariant forall k | 0 <= k <= FrameLength :: contour[k] == Point(0, 0)
      invariant forall j | 1 <= j < i ::
        contour[FrameLength + j] == Point(CutOffFactor * j, SpectrumY(mag[j]))
    {
      var y := SpectrumY(mag[i]);
      contour := contour + [Point(CutOffFactor * i, y)];
      i := i + 1;
    }
  }

  /**
   * Every point of the trace lies within the 1024 x 600 image (the default points
   * at its corner) as long as no magnitude exceeds the fixed scale.
   */
  lemma SpectrumTraceInImage(mag: seq<real>, contour: seq<Point>)
    requires |mag| == FrameLength
    requires IsSpectrumTrace(mag, contour)
    requires forall i | 0 <= i < |mag| :: 0.0 <= mag[i] <= TraceScale as real
    ensures forall k | 0 <= k < |contour| ::
      0 <= contour[k].x < FrameLength && 0 <= contour[k].y <= TraceBase
  {
    forall k | 0 <= k < |contour|
      ensures 0 <= contour[k].x < FrameLength && 0 <= contour[k].y <= TraceBase
    {
      if k > FrameLength {
        var i := k - FrameLength;
        assert contour[FrameLength + i] == Point(CutOffFactor * i, SpectrumY(mag[i]));
      }
    }
  }

  /** If the last scanned bin passes the gate, `max_freq` has been assigned. */
  lemma SalientLastBinAssignsPeak(mag: seq<real>)
    requires |mag| == FrameLength
    requires mag[HalfFrame - 1] > MarkerThreshold
    ensures PeakUpTo(mag, HalfFrame).freq.Some?
    ensures PeakUpTo(mag, HalfFrame).max >= 17
  {
    PeakUnassignedIffSilent(mag, HalfFrame);
    PeakBoundsBins(mag, HalfFrame);
  }

  /**
   * The marker column as the code computes it: the gate `v > 17` tests the outer
   * `v`, which still holds bin 511 (the trace loop declares its own `v`).
   */
  function WrittenMarker(mag: seq<real>): (x: Option<int>)
    requires |mag| == FrameLength
    ensures x.Some? <==> mag[HalfFrame - 1] > MarkerThreshold
    ensures x.Some? ==>
      PeakUpTo(mag, HalfFrame).freq.Some? && x.value == CutOffFactor * PeakUpTo(mag, HalfFrame).freq.value
  {
    if mag[HalfFrame - 1] > MarkerThreshold then
      SalientLastBinAssignsPeak(mag);
      Some(CutOffFactor * PeakUpTo(mag, HalfFrame).freq.value)
    else None
  }

  /** The whole spectrum block: scan, reset `max`, build the trace, gate the marker. */
  method PlotSpectrum(mag: seq<real>) returns (contour: seq<Point>, marker: Option<int>)
    requires |mag| == FrameLength
    ensures IsSpectrumTrace(mag, contour)
    ensures marker == WrittenMarker(mag)
  {
    var max, maxFreq, v := ScanPeak(mag);
    max := TraceScale;
    contour := SpectrumContour(mag);
    marker := None;
    if v > MarkerThreshold {
      SalientLastBinAssignsPeak(mag);
      marker := Some(CutOffFactor * maxFreq.value);
    }
  }

  /** A strong peak below bin 511 is never marked: bin 23 at 100 with silence elsewhere. */
  lemma GateIgnoresPeak()
    ensures var mag := seq(FrameLength, i => if i == 23 then 100.0 else 0.0);
      WrittenMarker(mag) == None && PeakUpTo(mag, HalfFrame) == Peak(100, Some(23))
  {
    var mag := seq(FrameLength, i => if i == 23 then 100.0 else 0.0);
    assert mag[23] == 100.0 && mag[HalfFrame - 1] == 0.0;
    PeakUnassignedIffSilent(mag, HalfFrame);
    PeakBoundsBins(mag, HalfFrame);
    var p := PeakUpTo(mag, HalfFrame);
    PeakAssignedBin(mag, HalfFrame);
    var f := p.freq.value;
    assert p.max >= 100;
    assert mag[f] >= 100.0;
  }

  /**
   * The marker as the comment on the outer `v` ("max freq value") intends it:
   * the gate tests the magnitude of the peak bin.
   */
  function PeakMarker(mag: seq<real>): (x: Option<int>)
    requires |mag| == FrameLength
    ensures x.Some? ==> PeakUpTo(mag, HalfFrame).freq.Some?
    ensures x.Some? ==> var f := PeakUpTo(mag, HalfFrame).freq.value;
      x.value == CutOffFactor * f && mag[f] > MarkerThreshold
  {
    var p := PeakUpTo(mag, HalfFrame);
    match p.freq
    case Some(f) => if mag[f] > MarkerThreshold then Some(CutOffFactor * f) else None
    case None => None
  }

  /** The intended marker is drawn exactly when some scanned bin exceeds 17, at the peak's column. */
  lemma PeakMarkerIffSalient(mag: seq<real>)
    requires |mag| == FrameLength
    ensures PeakMarker(mag).Some? <==> exists j | 0 <= j < HalfFrame :: mag[j] > MarkerThreshold
    ensures PeakMarker(mag).Some? ==> PeakMarker(mag).value == CutOffFactor * PeakUpTo(mag, HalfFrame).freq.value
  {
    PeakUnassignedIffSilent(mag, HalfFrame);
    PeakBoundsBins(mag, HalfFrame);
    var p := PeakUpTo(mag, HalfFrame);
    if p.freq.Some? {
      PeakAssignedBin(mag, HalfFrame);
      if mag[p.freq.value] == p.max as real {
        PeakIntegralFirst(mag, HalfFrame);
      }
    }
  }

  /** On the bin-23 example the intended marker is drawn at column 92. */
  lemma PeakMarkerMarksBin23()
    ensures PeakMarker(seq(FrameLength, i => if i == 23 then 100.0 else 0.0)) == Some(92)
  {
    GateIgnoresPeak();
  }
}
