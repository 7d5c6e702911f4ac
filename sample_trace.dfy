/**
 * `plot_samples`: the waveform trace of a sample buffer. With `scaling` off the
 * divisor is the fixed `65536 / 2`, so every point is exact integer arithmetic.
 */
module SampleTrace {
  import opened Basics

  /** `max` with `scaling` off: `65536 / 2`. */
  const SampleScale: int := 65536 / 2

  /** Pixel row of a zero sample. */
  const SampleBase: int := 300

  /** Plot height factor in `buffer[i] * 600.0f / max`. */
  const SampleSpan: int := 600

  /**
   * The row `(int)((double)b * 600.0f / max) + 300` of a sample: the same as the
   * integer quotient `600 * b / 32768` truncated toward zero, plus 300, so it stays
   * within [-300, 899] for every 16-bit sample.
   */
  function SampleY(b: Short): (y: int)
    ensures y == SampleBase + TruncDiv(SampleSpan * b as int, SampleScale)
    ensures -300 <= y <= 899
  {
    var a := SampleSpan * b as int;
    TruncDivAgreesWithReal(a, SampleScale);
    assert b as real * SampleSpan as real / SampleScale as real == a as real / SampleScale as real;
    TruncReal(b as real * SampleSpan as real / SampleScale as real) + SampleBase
  }

  /**
   * The row is monotone in the signed sample: a larger sample gets a row at
   * least as large (further down the image), and silence sits on row 300.
   */
  lemma SampleYAscends(a: Short, b: Short)
    requires a <= b
    ensures SampleY(a) <= SampleY(b)
    ensures SampleY(0) == SampleBase
  {
    TruncRealMonotone(a as real * SampleSpan as real / SampleScale as real,
      b as real * SampleSpan as real / SampleScale as real);
  }

  /** Full-scale samples reach row -300 and row 899, outside the 600-row image. */
  lemma SampleYFullScale()
    ensures SampleY(-32768) == -300 && SampleY(32767) == 899
  {
  }

  /**
   * The `contour` handed to `polylines`: `resize(nsamples + 1)` default points,
   * then `(i, SampleY(buffer[i]))` for i in 1 .. nsamples-1.
   */
  predicate IsSampleTrace(buffer: seq<Short>, nsamples: nat, contour: seq<Point>)
    requires nsamples <= |buffer|
  {
    |contour| == nsamples + 1 + (if nsamples > 0 then nsamples - 1 else 0) &&
    (forall k | 0 <= k <= nsamples :: contour[k] == Point(0, 0)) &&
    (forall i | 1 <= i < nsamples :: contour[nsamples + i] == Point(i, SampleY(buffer[i])))
  }

  /** The point loop of `plot_samples`. */
  method PlotSamples(buffer: seq<Short>, nsamples: nat) returns (contour: seq<Point>)
    requires nsamples <= |buffer|
    ensures IsSampleTrace(buffer, nsamples, contour)
  {
    contour := seq(nsamples + 1, _ => Point(0, 0));
    var i := 1;
    while i < nsamples
      invariant 1 <= i <= nsamples || (nsamples == 0 && i == 1)
      invariant |contour| == nsamples + i
      invariant forall k | 0 <= k <= nsamples :: contour[k] == Point(0, 0)
      invariant forall j | 1 <= j < i :: contour[nsamples + j] == Point(j, SampleY(buffer[j]))
    {
      var v := SampleY(buffer[i]);
      contour := contour + [Point(i, v)];
      i := i + 1;
    }
  }

  /**
   * A trace of a non-empty buffer has 2 * nsamples points, with columns in
   * [0, nsamples) and rows in [-300, 899].
   */
  lemma SampleTraceShape(buffer: seq<Short>, nsamples: nat, contour: seq<Point>)
    requires nsamples <= |buffer|
    requires IsSampleTrace(buffer, nsamples, contour)
    ensures 0 < nsamples ==> |contour| == 2 * nsamples
    ensures forall k | 0 <= k < |contour| ::
      0 <= contour[k].x < nsamples + (if nsamples == 0 then 1 else 0) && -300 <= contour[k].y <= 899
  {
    forall k | 0 <= k < |contour|
      ensures 0 <= contour[k].x < nsamples + (if nsamples == 0 then 1 else 0) && -300 <= contour[k].y <= 899
    {
      if k > nsamples {
        var i := k - nsamples;
        assert contour[nsamples + i] == Point(i, SampleY(buffer[i]));
      }
    }
  }

  /** The trace never looks at `buffer[0]`: buffers that differ only there give the same trace. */
  lemma SampleTraceSkipsFirst(b1: seq<Short>, b2: seq<Short>, nsamples: nat, contour: seq<Point>)
    requires nsamples <= |b1| && nsamples <= |b2|
    requires forall i | 1 <= i < nsamples :: b1[i] == b2[i]
    requires IsSampleTrace(b1, nsamples, contour)
    ensures IsSampleTrace(b2, nsamples, contour)
  {
  }
}
