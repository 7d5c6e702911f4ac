/**
 * One capture frame of the analyzer loop: the driver writes `available_samples`
 * samples into the 1024-slot `ALshort buffer`, and the whole buffer is then
 * copied into the FFT input as complex numbers with a zero imaginary part.
 *
 * The buffer is declared afresh, uninitialised, on every pass, so the slots the
 * driver does not write hold indeterminate values (reading them is undefined
 * behaviour in C++). The model lets them be whatever the array held before:
 * any values at all, not the previous frame.
 */
module FrameFill {
  import opened Basics

  /** The frame the buffer holds after the samples arrive over its indeterminate contents `prior`. */
  function CapturedFrame(prior: seq<Short>, samples: seq<Short>): (frame: seq<Short>)
    requires |prior| == FrameLength && |samples| <= FrameLength
    ensures |frame| == FrameLength
    ensures forall i | 0 <= i < |samples| :: frame[i] == samples[i]
    ensures forall i | |samples| <= i < FrameLength :: frame[i] == prior[i]
  {
    samples + prior[|samples|..]
  }

  /** The FFT input for a frame: `in[i][0] = (double)buffer[i]`, `in[i][1] = 0.0`. */
  function FftInput(frame: seq<Short>): (input: seq<Complex>)
    ensures |input| == |frame|
    ensures forall i | 0 <= i < |frame| :: input[i].re == frame[i] as real && input[i].im == 0.0
  {
    seq(|frame|, i requires 0 <= i < |frame| => Complex(frame[i] as real, 0.0))
  }

  /** The real parts of an FFT input. */
  function RealParts(input: seq<Complex>): (parts: seq<real>)
    ensures |parts| == |input|
    ensures forall i | 0 <= i < |input| :: parts[i] == input[i].re
  {
    seq(|input|, i requires 0 <= i < |input| => input[i].re)
  }

  /** The copy loses nothing: the real parts of the FFT input are exactly the samples. */
  lemma FftInputKeepsSamples(frame: seq<Short>)
    ensures RealParts(FftInput(frame)) == seq(|frame|, i requires 0 <= i < |frame| => frame[i] as real)
  {
  }

  /** Different frames give different FFT inputs. */
  lemma FftInputInjective(a: seq<Short>, b: seq<Short>)
    requires FftInput(a) == FftInput(b)
    ensures a == b
  {
    assert |a| == |b|;
    forall i | 0 <= i < |a|
      ensures a[i] == b[i]
    {
      assert FftInput(a)[i].re == FftInput(b)[i].re;
    }
  }


  /**
   * The effect of `alcCaptureSamples(device, buffer, available_samples)`: the first
   * `available_samples` slots receive the samples, the rest keep their indeterminate contents.
   * The code never checks the count against the buffer size, so the model demands it.
   */
  method CaptureSamples(buffer: array<Short>, samples: seq<Short>)
    requires buffer.Length == FrameLength && |samples| <= FrameLength
    modifies buffer
    ensures buffer[..] == CapturedFrame(old(buffer[..]), samples)
  {
    forall i | 0 <= i < |samples| {
      buffer[i] := samples[i];
    }
  }

  /** The conversion loop `for (int i = 0; i < 1024; i++)` filling the FFT input array. */
  method LoadFftInput(buffer: array<Short>, input: array<Complex>)
    requires buffer.Length == FrameLength && input.Length == FrameLength
    modifies input
    ensures input[..] == FftInput(buffer[..])
  {
    var i := 0;
    while i < FrameLength
      invariant 0 <= i <= FrameLength
      invariant forall k | 0 <= k < i :: input[k] == Complex(buffer[k] as real, 0.0)
    {
      input[i] := Complex(buffer[i] as real, 0.0);
      i := i + 1;
    }
  }

  /** One frame: capture, then convert; the FFT sees the new samples, then the unwritten slots. */
  method FillFrame(buffer: array<Short>, input: array<Complex>, samples: seq<Short>)
    requires buffer.Length == FrameLength && input.Length == FrameLength
    requires |samples| <= FrameLength
    modifies buffer, input
    ensures buffer[..] == CapturedFrame(old(buffer[..]), samples)
    ensures input[..] == FftInput(CapturedFrame(old(buffer[..]), samples))
  {
    CaptureSamples(buffer, samples);
    LoadFftInput(buffer, input);
  }
}
