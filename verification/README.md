# WebM audio client in Dafny

A model of `WebMAudioClient` from shaka-packager. The class collects the audio
properties of one WebM (Matroska) track from the element parser's callbacks,
then turns them into an `AudioDecoderConfig`. The work has two phases.

- **Accumulate.** `Reset`, `OnUInt` and `OnFloat` record at most one channel
  count, one primary sampling frequency and one output sampling frequency.
  A second value for the same field is refused. So is a non-positive
  sampling frequency.
- **Finalise.** `InitializeConfig` checks the codec identifier (`A_VORBIS` or
  `A_OPUS`). It then requires a primary sampling frequency, defaults the
  channel count to 1 and looks up the channel layout. Next it picks the rate:
  the output rate if declared, else the primary rate, truncated to `int`.
  For Opus it is always 48 kHz, per section 5.1 of RFC 7845 (the Ogg Opus
  "Input Sample Rate" rule). It converts the codec delay from nanoseconds to
  frames, rounding half up. It converts the seek preroll from nanoseconds to
  microseconds, truncating. It builds the configuration and returns the
  configuration's own validity verdict.

Files:

- `cpp_numeric.dfy` (module `CppNumeric`): C++ truncating conversions.
  `TruncateToInt` is the `double` to `int` conversion on exact reals.
  `TruncatingDiv` is C++ integer `/`.
- `webm_audio_client.dfy` (module `WebMAudio`): the data model and the four
  operations as pure functions. The accumulator is a record of three `Option`
  fields. Each callback returns `(verdict, next state)`. `InitializeConfig`
  returns `Finalized(ok, config, state)`.
- `conversions.dfy` (module `Conversions`): the delay and preroll conversions,
  each compared with an integer-only reference.
- `finalize_properties.dfy` (module `FinalizeProperties`): relational
  properties of finalisation.
- `element_stream.dfy` (module `ElementStream`): the accumulator driven by a
  whole sequence of callbacks, stopping at the first refusal as the parser
  does. It gives an exact characterisation of acceptance and of the values
  stored.
- `scenarios.dfy` (module `Scenarios`): concrete tracks and conversions.

Assumptions and representation:

- The C++ sentinel `-1` ("unset") becomes `None`. For the sampling
  frequencies this is exact, because `OnFloat` refuses `val <= 0` before
  storing, so a stored rate is always strictly positive. `WebMAudio.Valid`
  states this invariant, and every step keeps it. A channel count comes from
  an unsigned element, so `OnUInt` takes a `nat`. The C++ code narrows that
  `int64_t` value into an `int` field, which can store `-1` and make the
  field read as unset; the model does not cover this (see the narrowing line
  under "Left out").
- The channel-layout table (`GuessChannelLayout`) and the configuration's
  validity test (`AudioDecoderConfig::IsValidConfig`) are not part of this
  model. They are function-valued parameters of `InitializeConfig`.
  `AudioDecoderConfig::Initialize` is not part of this model either; the
  model treats it as the record constructor of `AudioDecoderConfig`.
- Element identifiers are an abstract datatype: three recognised ids plus
  `Other`.
- Floating arithmetic is exact `real` arithmetic.

What finalisation reports:

- Finalisation reports a single boolean. An unsupported codec, a missing
  primary rate, and (when a channel count was already set) an unsupported
  layout all give the same outcome: `false`, no configuration, the state
  unchanged. Only a refusal by the validity test is always recognisable,
  because it comes with the configuration that was built.
- Finalisation is not read-only. Once the codec and rate checks pass, it
  writes the default channel count 1 into the accumulator when none was set
  (webm_audio_client.cc:51-52), even if it then refuses the layout.
- The configuration is written before its validity is judged. So when the
  validity test says no, the model still returns the configuration it built,
  together with `ok == false`.

## Model

| member | source | states |
|---|---|---|
| WebMAudio.Reset | packager/media/formats/webm/webm_audio_client.cc:21-25 | After a reset, channel count and both sampling frequencies are unset, and the positivity invariant holds. |
| WebMAudio.OnUInt | packager/media/formats/webm/webm_audio_client.cc:102-113 | The call is refused exactly when the id is Channels and a channel count is already set. The first value is kept even if the new one is equal. Otherwise Channels stores the value. Any other id is accepted and changes nothing. |
| WebMAudio.OnFloat | packager/media/formats/webm/webm_audio_client.cc:115-140 | For either sampling-frequency id, the call is accepted exactly when the value is positive and the field is unset, and only then is the value stored. A refusal leaves the state unchanged. An unrecognised id is accepted with no change, even for a non-positive value. Stored rates stay positive. |
| WebMAudio.InitializeConfig | packager/media/formats/webm/webm_audio_client.cc:27-100 | An unknown codec id is refused with the state unchanged, before the rate check. A missing or non-positive primary rate is refused with the state unchanged, even if an output rate is set. Past those checks a missing channel count becomes 1 in the returned state. An unsupported layout is refused. Otherwise a configuration is built and the verdict equals its validity test. Opus is 48000 Hz interleaved F32. Vorbis is planar F32 at the truncated output-or-primary rate. The other fields come from the inputs, the preroll and the delay conversions. |
| WebMAudio.CodecFromId | packager/media/formats/webm/webm_audio_client.cc:37-45 | Vorbis exactly for the identifier `A_VORBIS`, Opus exactly for `A_OPUS`, and no codec for any other string. |
| WebMAudio.CodecDelayFrames | packager/media/formats/webm/webm_audio_client.cc:79-86 | An absent delay (-1) gives 0 frames. For a non-negative rate and delay, the result is rate*delay/10^9 rounded to the nearest integer with halves up, written as the integer expression (2*rate*delay + 10^9) / (2*10^9). |
| WebMAudio.SeekPrerollMicroseconds | packager/media/formats/webm/webm_audio_client.cc:96-97 | An absent preroll (-1) gives 0 µs. For a non-negative preroll p the result m satisfies 1000*m <= p < 1000*(m+1). For other negative inputs the quotient rounds toward zero. |
| WebMAudio.DeclaredRate | packager/media/formats/webm/webm_audio_client.cc:61-63 | With a positive primary rate (guaranteed by the check at lines 47-48), the result is the output rate if one is set and positive, else the primary rate, truncated to whole hertz. |
| ElementStream.Feed | packager/media/formats/webm/webm_audio_client.cc:102-140 | Feeding callbacks in order never changes a field that was already set, and stored rates stay positive. |
| CppNumeric.TruncateToInt | packager/media/formats/webm/webm_audio_client.cc:61-63 | The `double` to `int` conversion truncates toward zero. For x >= 0 the result n satisfies n <= x < n+1. For x < 0 it satisfies n-1 < x <= n. |
| CppNumeric.TruncatingDiv | packager/media/formats/webm/webm_audio_client.cc:96-97 | C++ integer division by a positive divisor. The remainder lies in [0, b) for a non-negative dividend and in (-b, 0] for a negative one. |
| Conversions.CodecDelayRoundsHalfUp | packager/media/formats/webm/webm_audio_client.cc:79-86 | For a non-negative rate and delay, the frame count equals (2*rate*delay + 10^9) / (2*10^9). It is within half a frame of rate*delay/10^9, ties rounding up. |
| Conversions.NoCodecDelayMeansNoFrames | packager/media/formats/webm/webm_audio_client.cc:80-81 | An absent codec delay gives 0 frames, whatever the rate. |
| Conversions.SeekPrerollSentinelIsRedundant | packager/media/formats/webm/webm_audio_client.cc:96-97 | The preroll is the C++ quotient of the input by 1000. The test for the sentinel -1 before dividing changes nothing, since -1/1000 is 0. |
| Conversions.SeekPrerollTruncates | packager/media/formats/webm/webm_audio_client.cc:96-97 | For a non-negative preroll, the result m satisfies 1000*m <= preroll < 1000*(m+1). |
| FinalizeProperties.OpusIgnoresDeclaredRates | packager/media/formats/webm/webm_audio_client.cc:61-70 | For Opus, any two accumulators that agree on channels and have a positive primary rate give the same verdict and configuration, at 48000 Hz. |
| FinalizeProperties.MissingChannelsActsAsMono | packager/media/formats/webm/webm_audio_client.cc:50-54 | An unset channel count is finalised exactly like a count of 1, with the same verdict and configuration. |
| FinalizeProperties.FinalizeIsRepeatable | packager/media/formats/webm/webm_audio_client.cc:50-52 | Finalising again from the state finalisation left gives the identical outcome. |
| FinalizeProperties.FinalizeOnlyDefaultsChannels | packager/media/formats/webm/webm_audio_client.cc:47-54 | Finalisation never changes the sampling frequencies. It keeps a channel count that was already set. It leaves the state unchanged when it stops before the channel default. |
| ElementStream.Step | packager/media/formats/webm/webm_audio_client.cc:102-140 | A callback is accepted exactly when its element is unrecognised, or targets an unset field with, for a rate, a positive value. When accepted it stores the element's value. When refused it changes nothing. Fields it does not target never change. |
| ElementStream.FeedAcceptsExactly | packager/media/formats/webm/webm_audio_client.cc:102-140 | A sequence of callbacks is accepted exactly when each element is acceptable in the starting state and no two elements target the same field. |
| ElementStream.FeedStoresEachValue | packager/media/formats/webm/webm_audio_client.cc:102-140 | After an accepted sequence, each field holds the value of the element that targeted it. A field no element targets keeps its starting value. Positive rates stay positive. |
| ElementStream.FeedFromResetAccepts | packager/media/formats/webm/webm_audio_client.cc:21-25 | From a reset accumulator, a sequence is accepted exactly when no field is declared twice and every declared sampling frequency is positive. |
| ElementStream.AcceptedStepsCommute | packager/media/formats/webm/webm_audio_client.cc:102-140 | Two accepted callbacks in the other order are accepted too and reach the same state, so only duplicates depend on order. |
| ElementStream.NoSamplingFrequencyIsRefused | packager/media/formats/webm/webm_audio_client.cc:47-48 | A track with no primary sampling-frequency element is refused at finalisation, even if it declared an output rate. |
| ElementStream.NoChannelsElementIsMono | packager/media/formats/webm/webm_audio_client.cc:50-54 | A track with no Channels element gets the one-channel layout. |
| Scenarios.VorbisStereoTrack | packager/media/formats/webm/webm_audio_client.cc:27-100 | Stereo Vorbis at 44100 Hz with no delay or preroll gives planar F32, 44100 Hz, 0 frames and 0 µs. The verdict is the validity test's. |
| Scenarios.OpusMonoTrack | packager/media/formats/webm/webm_audio_client.cc:50-98 | Opus with no channels, rates 44100 and 48000, and a 10 ms delay gives mono interleaved F32 at 48000 Hz with 480 delay frames. The state then holds 1 channel. |
| Scenarios.UnsupportedChannelCountIsRefused | packager/media/formats/webm/webm_audio_client.cc:54-59 | Channel count 37, when the table does not support it, is refused with no configuration. |
| Scenarios.DuplicateChannelsIsRefused | packager/media/formats/webm/webm_audio_client.cc:102-113 | Repeating an equal Channels value is refused, and the first value stays. |
| Scenarios.NonPositiveRateIsRefused | packager/media/formats/webm/webm_audio_client.cc:115-130 | Zero or negative rates are refused and not stored. The same value under another id is accepted. |
| Scenarios.OtherCodecIsRefused | packager/media/formats/webm/webm_audio_client.cc:37-45 | `A_AAC` is refused with no configuration and no state change. |
| Scenarios.CodecDelayRoundsToNearestFrame | packager/media/formats/webm/webm_audio_client.cc:79-86 | 20833333 ns at 48000 Hz is 1000 frames. |
| Scenarios.SeekPrerollExamples | packager/media/formats/webm/webm_audio_client.cc:96-97 | 1500 ns is 1 µs, 999 ns is 0 µs, and an absent preroll is 0 µs. |

## Left out

- Floating point: rates and the delay formula use exact `real` arithmetic, not IEEE-754 `double`. Near-tie rounding and NaN inputs are not modelled.
- Integer widths: narrowing the `int64_t` channel value into the `int` field is not modelled. In C++ a huge count can be stored as `-1` and then read as unset; the model stores it as given.
- Integer overflow: the `int` rate and frame count are unbounded in the model. Out-of-range conversions are undefined in C++.
- The channel-layout table and `AudioDecoderConfig::IsValidConfig` are not part of this model. Their bodies belong to other components, so they are parameters.
- The codec-private buffer is passed through as a byte sequence. The NULL-pointer-plus-size form for an empty buffer is the empty sequence.
- Logging (`LOG(ERROR)`) and the `DCHECK` on the output pointer have no effect on results.
- The element parser that calls `OnUInt` and `OnFloat` is not part of this model. `ElementStream.Feed` models only its one relevant behaviour: it stops at the first refused callback.
- The constructor (which only calls `Reset`) and the empty destructor are not modelled separately.
