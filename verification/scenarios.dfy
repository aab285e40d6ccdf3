/**
 Concrete tracks and conversions, each stated for every channel-layout
 table and validity test that answer as the scenario needs.
 */
module Scenarios {
  import opened WebMAudio
  import opened ElementStream

  /** Stereo Vorbis at 44.1 kHz with no delay and no preroll. */
  lemma VorbisStereoTrack(guessChannelLayout: int -> ChannelLayout,
                          isValidConfig: AudioDecoderConfig -> bool)
    requires guessChannelLayout(2) != LayoutUnsupported
    ensures var fed := Feed(Reset(), [UInt(Channels, 2), Float(SamplingFrequency, 44100.0)]);
            var r := InitializeConfig(fed.1, "A_VORBIS", [], -1, -1, false,
                                      guessChannelLayout, isValidConfig);
            var expected := AudioDecoderConfig(Vorbis, PlanarF32, guessChannelLayout(2), 44100,
                                               [], false, 0, 0);
            && fed.0
            && r.config == Some(expected)
            && r.ok == isValidConfig(expected)
  {
  }

  /** Opus with no Channels element, declared at 44.1 kHz with a 48 kHz
      output rate and a 10 ms codec delay: mono, 48 kHz, 480 frames. */
  lemma OpusMonoTrack(guessChannelLayout: int -> ChannelLayout,
                      isValidConfig: AudioDecoderConfig -> bool)
    requires guessChannelLayout(1) != LayoutUnsupported
    ensures var fed := Feed(Reset(), [Float(SamplingFrequency, 44100.0),
                                      Float(OutputSamplingFrequency, 48000.0)]);
            var r := InitializeConfig(fed.1, "A_OPUS", [], -1, 10000000, false,
                                      guessChannelLayout, isValidConfig);
            var expected := AudioDecoderConfig(Opus, InterleavedF32, guessChannelLayout(1), 48000,
                                               [], false, 0, 480);
            && fed.0
            && r.config == Some(expected)
            && r.ok == isValidConfig(expected)
            && r.state.channels == Some(1)
  {
  }

  /** A channel count the layout table does not support is refused. */
  lemma UnsupportedChannelCountIsRefused(guessChannelLayout: int -> ChannelLayout,
                                         isValidConfig: AudioDecoderConfig -> bool)
    requires guessChannelLayout(37) == LayoutUnsupported
    ensures var fed := Feed(Reset(), [UInt(Channels, 37), Float(SamplingFrequency, 44100.0)]);
            var r := InitializeConfig(fed.1, "A_VORBIS", [], -1, -1, false,
                                      guessChannelLayout, isValidConfig);
            fed.0 && !r.ok && r.config.None?
  {
  }

  /** A second Channels element is refused even when it repeats the first,
      and the first value is kept. */
  lemma DuplicateChannelsIsRefused()
    ensures Feed(Reset(), [UInt(Channels, 2), UInt(Channels, 2)]) ==
            (false, State(Some(2), None, None))
  {
  }

  /** A non-positive sampling frequency is refused and nothing is stored;
      the same value under an unrecognised identifier is accepted. */
  lemma NonPositiveRateIsRefused()
    ensures OnFloat(Reset(), SamplingFrequency, 0.0) == (false, Reset())
    ensures OnFloat(Reset(), OutputSamplingFrequency, -8000.0) == (false, Reset())
    ensures OnFloat(Reset(), Other(0x4489), -1.0) == (true, Reset())
  {
  }

  /** An identifier other than the two supported ones is refused. */
  lemma OtherCodecIsRefused(s: State, guessChannelLayout: int -> ChannelLayout,
                            isValidConfig: AudioDecoderConfig -> bool)
    ensures InitializeConfig(s, "A_AAC", [], -1, -1, false, guessChannelLayout, isValidConfig)
            == Finalized(false, None, s)
  {
  }

  /** 20833333 ns at 48 kHz is 999.99998... frames, rounded to 1000. */
  lemma CodecDelayRoundsToNearestFrame()
    ensures CodecDelayFrames(48000, 20833333) == 1000
  {
  }

  /** Seek preroll is truncated to whole microseconds. */
  lemma SeekPrerollExamples()
    ensures SeekPrerollMicroseconds(1500) == 1
    ensures SeekPrerollMicroseconds(999) == 0
    ensures SeekPrerollMicroseconds(-1) == 0
  {
  }
}
