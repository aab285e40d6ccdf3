/**
 Relational properties of finalisation: what its outcome does and does not
 depend on.
 */
module FinalizeProperties {
  import opened WebMAudio

  /** For Opus the declared sampling frequencies are irrelevant: two
      accumulators that agree on the channel count and both hold a positive
      primary rate give the same verdict and the same configuration, at
      48 kHz. */
  lemma OpusIgnoresDeclaredRates(
    s1: State, s2: State, codecPrivate: seq<uint8>, seekPreroll: int, codecDelay: int,
    isEncrypted: bool, guessChannelLayout: int -> ChannelLayout,
    isValidConfig: AudioDecoderConfig -> bool)
    requires s1.channels == s2.channels
    requires s1.samplesPerSecond.Some? && s1.samplesPerSecond.value > 0.0
    requires s2.samplesPerSecond.Some? && s2.samplesPerSecond.value > 0.0
    ensures var r1 := InitializeConfig(s1, "A_OPUS", codecPrivate, seekPreroll, codecDelay,
                                       isEncrypted, guessChannelLayout, isValidConfig);
            var r2 := InitializeConfig(s2, "A_OPUS", codecPrivate, seekPreroll, codecDelay,
                                       isEncrypted, guessChannelLayout, isValidConfig);
            && r1.ok == r2.ok
            && r1.config == r2.config
            && (r1.config.Some? ==> r1.config.value.samplesPerSecond == 48000)
  {
  }

  /** A track without a Channels element is finalised exactly like a mono
      track: same verdict, same configuration. */
  lemma MissingChannelsActsAsMono(
    s: State, codecId: string, codecPrivate: seq<uint8>, seekPreroll: int, codecDelay: int,
    isEncrypted: bool, guessChannelLayout: int -> ChannelLayout,
    isValidConfig: AudioDecoderConfig -> bool)
    requires s.channels.None?
    ensures var r0 := InitializeConfig(s, codecId, codecPrivate, seekPreroll, codecDelay,
                                       isEncrypted, guessChannelLayout, isValidConfig);
            var r1 := InitializeConfig(s.(channels := Some(1)), codecId, codecPrivate, seekPreroll,
                                       codecDelay, isEncrypted, guessChannelLayout, isValidConfig);
            && r0.ok == r1.ok
            && r0.config == r1.config
            && (r0.config.Some? ==> r0.state == r1.state && r0.state.channels == Some(1))
  {
  }

  /** Finalisation is repeatable: running it again on the accumulator it
      leaves behind reproduces the same outcome, because the only state it
      writes is the channel default, which it reads back unchanged. */
  lemma FinalizeIsRepeatable(
    s: State, codecId: string, codecPrivate: seq<uint8>, seekPreroll: int, codecDelay: int,
    isEncrypted: bool, guessChannelLayout: int -> ChannelLayout,
    isValidConfig: AudioDecoderConfig -> bool)
    ensures var r := InitializeConfig(s, codecId, codecPrivate, seekPreroll, codecDelay,
                                      isEncrypted, guessChannelLayout, isValidConfig);
            InitializeConfig(r.state, codecId, codecPrivate, seekPreroll, codecDelay,
                             isEncrypted, guessChannelLayout, isValidConfig) == r
  {
  }

  /** Finalisation writes nothing but the channel default: the sampling
      frequencies are never changed, and a channel count that was set is
      kept. */
  lemma FinalizeOnlyDefaultsChannels(
    s: State, codecId: string, codecPrivate: seq<uint8>, seekPreroll: int, codecDelay: int,
    isEncrypted: bool, guessChannelLayout: int -> ChannelLayout,
    isValidConfig: AudioDecoderConfig -> bool)
    ensures var r := InitializeConfig(s, codecId, codecPrivate, seekPreroll, codecDelay,
                                      isEncrypted, guessChannelLayout, isValidConfig);
            && r.state.samplesPerSecond == s.samplesPerSecond
            && r.state.outputSamplesPerSecond == s.outputSamplesPerSecond
            && (s.channels.Some? ==> r.state == s)
            && (r.state.channels.None? ==> r.state == s)
  {
  }
}
