/**
 Properties of the two unit conversions finalisation performs: codec delay
 from nanoseconds to frames, and seek preroll from nanoseconds to
 microseconds. Each is related to an independent integer-only reference.
 */
module Conversions {
  import opened CppNumeric
  import opened WebMAudio

  /** For a non-negative rate and delay, the frame count is the exact
      product `rate * delay / 10^9` rounded to the nearest integer, halves
      rounded up: it equals the integer expression
      `(2 * rate * delay + 10^9) / (2 * 10^9)` and lies within half a frame
      of the exact value, the upper bound included. */
  lemma CodecDelayRoundsHalfUp(rate: int, codecDelay: int)
    requires rate >= 0 && codecDelay >= 0
    ensures var n := CodecDelayFrames(rate, codecDelay);
      && n == (2 * rate * codecDelay + NanosecondsPerSecond) / (2 * NanosecondsPerSecond)
      && -NanosecondsPerSecond < 2 * (n * NanosecondsPerSecond - rate * codecDelay) <= NanosecondsPerSecond
  {
  }

  /** Missing CodecDelay element: no delay. */
  lemma NoCodecDelayMeansNoFrames(rate: int)
    ensures CodecDelayFrames(rate, -1) == 0
  {
  }

  /** The seek preroll in microseconds is the C++ quotient by 1000; the
      sentinel test before the division changes nothing, because the C++
      quotient of `-1` by 1000 is already 0. */
  lemma SeekPrerollSentinelIsRedundant(seekPreroll: int)
    ensures SeekPrerollMicroseconds(seekPreroll) == TruncatingDiv(seekPreroll, NanosecondsPerMicrosecond)
    ensures SeekPrerollMicroseconds(-1) == 0
  {
  }

  /** A non-negative seek preroll is truncated to whole microseconds: the
      result is the largest `m` with `1000 * m` not exceeding the input. */
  lemma SeekPrerollTruncates(seekPreroll: int)
    requires seekPreroll >= 0
    ensures var m := SeekPrerollMicroseconds(seekPreroll);
      && m == seekPreroll / NanosecondsPerMicrosecond
      && m * NanosecondsPerMicrosecond <= seekPreroll < (m + 1) * NanosecondsPerMicrosecond
  {
  }
}
