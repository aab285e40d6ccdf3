/**
 The audio half of a WebM (Matroska) track header: an accumulator that
 records the channel count and the two sampling frequencies announced by
 the element parser, and a finalisation step that turns them into an audio
 decoder configuration.

 Representation choices:
 - The C++ object keeps each field at the sentinel `-1` until it is set. Here
   each field is an `Option`. For the sampling frequencies this is exact: a
   stored value is always strictly positive (non-positive values are refused
   before being stored). A channel count comes from an unsigned element and
   is taken as a `nat`; the narrowing of the C++ `int64_t` value into the
   `int` field, which could make a huge count read back as `-1`, is not
   modelled.
 - The accumulator is an immutable record; each callback is a pure step that
   returns its verdict together with the next record.
 - Floating values are exact `real`s; the C++ `double` to `int` conversion is
   `CppNumeric.TruncateToInt`.
 - The channel-layout table and the configuration's own validity test belong
   to other components; they are parameters of `InitializeConfig`.
 */
module WebMAudio {
  import opened CppNumeric

  /** A field that may be unset; stands for the C++ sentinel `-1`. */
  datatype Option<T> = None | Some(value: T) {
    /** The stored value, or `fallback` when unset. */
    function ValueOr(fallback: T): T {
      if Some? then value else fallback
    }
  }

  newtype uint8 = x: int | 0 <= x < 256

  /** Nanoseconds in one second, the unit of the Matroska timing elements. */
  const NanosecondsPerSecond: int := 1000000000

  /** Nanoseconds in one microsecond, the unit of the seek preroll duration. */
  const NanosecondsPerMicrosecond: int := 1000

  /** Opus always decodes at 48 kHz (section 5.1 of RFC 7845, "Input Sample
      Rate", which the header's declared rate does not override). */
  const OpusSampleRate: int := 48000

  /** Element identifiers as delivered by the parser. Only the first three
      are recognised by this client; every other identifier is `Other`. */
  datatype ElementId =
    | Channels
    | SamplingFrequency
    | OutputSamplingFrequency
    | Other(code: int)

  datatype AudioCodec = Vorbis | Opus

  /** `PlanarF32` is one float plane per channel; `InterleavedF32` is the
      packed float format. */
  datatype SampleFormat = PlanarF32 | InterleavedF32

  /** What the external channel-layout table answers: either a layout,
      identified only by an opaque code, or "unsupported". */
  datatype ChannelLayout = LayoutUnsupported | Layout(code: nat)

  /** The accumulated audio properties of one track. */
  datatype State = State(
    channels: Option<int>,
    samplesPerSecond: Option<real>,
    outputSamplesPerSecond: Option<real>)

  /** The audio decoder configuration that finalisation builds. */
  datatype AudioDecoderConfig = AudioDecoderConfig(
    codec: AudioCodec,
    sampleFormat: SampleFormat,
    channelLayout: ChannelLayout,
    samplesPerSecond: int,
    extraData: seq<uint8>,
    isEncrypted: bool,
    seekPrerollMicroseconds: int,
    codecDelayFrames: int)

  /** Outcome of finalisation: the boolean verdict, the configuration if one
      was built (it is built before its validity is judged, so it can be
      present with `ok == false`), and the accumulator afterwards. */
  datatype Finalized = Finalized(ok: bool, config: Option<AudioDecoderConfig>, state: State)

  /** The invariant every reachable accumulator keeps: stored sampling
      frequencies are strictly positive. */
  predicate Valid(s: State) {
    && (s.samplesPerSecond.Some? ==> s.samplesPerSecond.value > 0.0)
    && (s.outputSamplesPerSecond.Some? ==> s.outputSamplesPerSecond.value > 0.0)
  }

  /** Clears all three fields. */
  function Reset(): (s: State)
    ensures s.channels.None? && s.samplesPerSecond.None? && s.outputSamplesPerSecond.None?
    ensures Valid(s)
  {
    State(None, None, None)
  }

  /** Callback for an unsigned-integer element. Only `Channels` is
      recognised; it may be set once, and a second value is refused even if
      it equals the first. */
  function OnUInt(s: State, id: ElementId, val: nat): (r: (bool, State))
    ensures r.0 <==> id != Channels || s.channels.None?
    ensures r.1.channels == (if id == Channels && s.channels.None? then Some(val) else s.channels)
    ensures r.1.samplesPerSecond == s.samplesPerSecond
    ensures r.1.outputSamplesPerSecond == s.outputSamplesPerSecond
    ensures !r.0 ==> r.1 == s
  {
    if id == Channels then
      if s.channels.Some? then (false, s)
      else (true, s.(channels := Some(val)))
    else
      (true, s)
  }

  /** Callback for a floating-point element. The two sampling frequencies
      are recognised; each may be set once, and only to a strictly positive
      value. Unrecognised identifiers are accepted whatever the value. */
  function OnFloat(s: State, id: ElementId, val: real): (r: (bool, State))
    ensures id != SamplingFrequency && id != OutputSamplingFrequency ==> r == (true, s)
    ensures id == SamplingFrequency ==>
      && (r.0 <==> val > 0.0 && s.samplesPerSecond.None?)
      && r.1 == (if r.0 then s.(samplesPerSecond := Some(val)) else s)
    ensures id == OutputSamplingFrequency ==>
      && (r.0 <==> val > 0.0 && s.outputSamplesPerSecond.None?)
      && r.1 == (if r.0 then s.(outputSamplesPerSecond := Some(val)) else s)
    ensures r.1.channels == s.channels
    ensures Valid(s) ==> Valid(r.1)
  {
    match id
    case SamplingFrequency =>
      if val <= 0.0 then (false, s)
      else if s.samplesPerSecond.Some? then (false, s)
      else (true, s.(samplesPerSecond := Some(val)))
    case OutputSamplingFrequency =>
      if val <= 0.0 then (false, s)
      else if s.outputSamplesPerSecond.Some? then (false, s)
      else (true, s.(outputSamplesPerSecond := Some(val)))
    case _ =>
      (true, s)
  }

  /** The Matroska codec identifier, if it names a supported audio codec. */
  function CodecFromId(codecId: string): (c: Option<AudioCodec>)
    ensures c == Some(Vorbis) <==> codecId == "A_VORBIS"
    ensures c == Some(Opus) <==> codecId == "A_OPUS"
  {
    if codecId == "A_VORBIS" then Some(Vorbis)
    else if codecId == "A_OPUS" then Some(Opus)
    else None
  }

  /** The codec delay converted from nanoseconds to frames at `rate`: the
      product is rounded by adding one half and truncating; the sentinel
      `-1` ("no CodecDelay element") gives 0. */
  function CodecDelayFrames(rate: int, codecDelay: int): (n: int)
    ensures codecDelay == -1 ==> n == 0
    // For non-negative inputs: the exact value rate * delay / 10^9 rounded
    // to the nearest integer, halves up, as an integer-only expression.
    ensures rate >= 0 && codecDelay >= 0 ==>
      n == (2 * rate * codecDelay + NanosecondsPerSecond) / (2 * NanosecondsPerSecond)
  {
    if codecDelay == -1 then 0
    else TruncateToInt(0.5 + rate as real * (codecDelay as real / NanosecondsPerSecond as real))
  }

  /** The seek preroll converted from nanoseconds to whole microseconds; the
      sentinel `-1` ("no SeekPreRoll element") is replaced by 0 first. */
  function SeekPrerollMicroseconds(seekPreroll: int): (m: int)
    ensures seekPreroll == -1 ==> m == 0
    ensures seekPreroll >= 0 ==>
      m * NanosecondsPerMicrosecond <= seekPreroll < (m + 1) * NanosecondsPerMicrosecond
    ensures seekPreroll < -1 ==>
      (m - 1) * NanosecondsPerMicrosecond < seekPreroll <= m * NanosecondsPerMicrosecond
  {
    TruncatingDiv(if seekPreroll != -1 then seekPreroll else 0, NanosecondsPerMicrosecond)
  }

  /** The rate the decoder runs at before any codec override: the output
      sampling frequency when one is set and positive, else the primary one,
      each converted to `int`. */
  function DeclaredRate(primary: real, output: Option<real>): (rate: int)
    requires primary > 0.0
    ensures var declared := if output.Some? && output.value > 0.0 then output.value else primary;
      rate as real <= declared < rate as real + 1.0
  {
    if output.Some? && output.value > 0.0 then TruncateToInt(output.value)
    else TruncateToInt(primary)
  }

  /** Finalisation. Checks, in order: a supported codec identifier, a
      positive primary sampling frequency, and a supported channel layout
      (the channel count defaults to 1 and that default is written back into
      the accumulator). It then builds the configuration and returns the
      verdict of `isValidConfig` on it. */
  function InitializeConfig(
    s: State,
    codecId: string,
    codecPrivate: seq<uint8>,
    seekPreroll: int,
    codecDelay: int,
    isEncrypted: bool,
    guessChannelLayout: int -> ChannelLayout,
    isValidConfig: AudioDecoderConfig -> bool): (r: Finalized)
    // Unsupported codec: refused before anything else is looked at.
    ensures codecId != "A_VORBIS" && codecId != "A_OPUS" ==> r == Finalized(false, None, s)
    // Supported codec but no positive primary sampling frequency.
    ensures (codecId == "A_VORBIS" || codecId == "A_OPUS")
            && (s.samplesPerSecond.None? || s.samplesPerSecond.value <= 0.0)
            ==> r == Finalized(false, None, s)
    // Past both checks the missing channel count is defaulted to 1, in the
    // returned accumulator too, whatever happens next.
    ensures (codecId == "A_VORBIS" || codecId == "A_OPUS")
            && s.samplesPerSecond.Some? && s.samplesPerSecond.value > 0.0
            ==> r.state == s.(channels := Some(s.channels.ValueOr(1)))
    ensures (codecId == "A_VORBIS" || codecId == "A_OPUS")
            && s.samplesPerSecond.Some? && s.samplesPerSecond.value > 0.0
            && guessChannelLayout(s.channels.ValueOr(1)) == LayoutUnsupported
            ==> !r.ok && r.config.None?
    // Every other call builds a configuration, and the verdict is exactly
    // the external validity test on it.
    ensures r.config.Some? <==>
            && (codecId == "A_VORBIS" || codecId == "A_OPUS")
            && s.samplesPerSecond.Some? && s.samplesPerSecond.value > 0.0
            && guessChannelLayout(s.channels.ValueOr(1)) != LayoutUnsupported
    ensures r.config.Some? ==> r.ok == isValidConfig(r.config.value)
    ensures r.ok ==> r.config.Some?
    ensures r.config.Some? ==>
      var c := r.config.value;
      && (c.codec == Vorbis <==> codecId == "A_VORBIS")
      && (c.codec == Opus <==> codecId == "A_OPUS")
      && c.channelLayout == guessChannelLayout(s.channels.ValueOr(1))
      && c.extraData == codecPrivate
      && c.isEncrypted == isEncrypted
      && c.seekPrerollMicroseconds == SeekPrerollMicroseconds(seekPreroll)
      && c.codecDelayFrames == CodecDelayFrames(c.samplesPerSecond, codecDelay)
    // Opus: 48 kHz interleaved floats, whatever rates were declared.
    ensures r.config.Some? && codecId == "A_OPUS" ==>
      r.config.value.samplesPerSecond == OpusSampleRate
      && r.config.value.sampleFormat == InterleavedF32
    // Vorbis: planar floats at the output rate if declared, else the
    // primary rate, truncated to an integer number of hertz.
    ensures r.config.Some? && codecId == "A_VORBIS" ==>
      var c := r.config.value;
      var declared := if s.outputSamplesPerSecond.Some? && s.outputSamplesPerSecond.value > 0.0
                      then s.outputSamplesPerSecond.value else s.samplesPerSecond.value;
      && c.sampleFormat == PlanarF32
      && c.samplesPerSecond as real <= declared < c.samplesPerSecond as real + 1.0
  {
    var codec := CodecFromId(codecId);
    if codec.None? then Finalized(false, None, s)
    else if s.samplesPerSecond.None? || s.samplesPerSecond.value <= 0.0 then Finalized(false, None, s)
    else
      var s' := s.(channels := Some(s.channels.ValueOr(1)));
      var layout := guessChannelLayout(s'.channels.value);
      if layout == LayoutUnsupported then Finalized(false, None, s')
      else
        var rate := if codec.value == Opus then OpusSampleRate
                    else DeclaredRate(s.samplesPerSecond.value, s.outputSamplesPerSecond);
        var format := if codec.value == Opus then InterleavedF32 else PlanarF32;
        var config := AudioDecoderConfig(
          codec.value, format, layout, rate, codecPrivate, isEncrypted,
          SeekPrerollMicroseconds(seekPreroll), CodecDelayFrames(rate, codecDelay));
        Finalized(isValidConfig(config), Some(config), s')
  }
}
