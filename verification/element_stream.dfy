/**
 The accumulator driven by a whole sequence of element callbacks, in the
 order the parser delivers them; the parser abandons the track at the first
 callback that answers false.

 The lemmas characterise the outcome without replaying the steps: the
 sequence is accepted exactly when no recognised field is targeted twice
 (or targeted when already set) and every recognised sampling frequency is
 positive; and an accepted sequence leaves each field holding the value of
 the one element that targeted it.
 */
module ElementStream {
  import opened WebMAudio

  /** One callback from the element parser. */
  datatype Element =
    | UInt(id: ElementId, uval: nat)
    | Float(id: ElementId, fval: real)

  /** The three fields of the accumulator. */
  datatype Field = ChannelsField | RateField | OutputRateField

  /** The field an element writes, if the client recognises it. An integer
      sampling frequency or a floating channel count is not recognised: the
      identifiers are dispatched per callback. */
  function Target(e: Element): Option<Field> {
    match e
    case UInt(Channels, _) => Some(ChannelsField)
    case Float(SamplingFrequency, _) => Some(RateField)
    case Float(OutputSamplingFrequency, _) => Some(OutputRateField)
    case _ => None
  }

  predicate IsSet(s: State, f: Field) {
    match f
    case ChannelsField => s.channels.Some?
    case RateField => s.samplesPerSecond.Some?
    case OutputRateField => s.outputSamplesPerSecond.Some?
  }

  /** `s` holds the value element `e` carries, in the field `e` targets. */
  predicate Holds(s: State, e: Element) {
    match e
    case UInt(Channels, v) => s.channels == Some(v)
    case Float(SamplingFrequency, v) => s.samplesPerSecond == Some(v)
    case Float(OutputSamplingFrequency, v) => s.outputSamplesPerSecond == Some(v)
    case _ => true
  }

  predicate SameField(s: State, s': State, f: Field) {
    match f
    case ChannelsField => s'.channels == s.channels
    case RateField => s'.samplesPerSecond == s.samplesPerSecond
    case OutputRateField => s'.outputSamplesPerSecond == s.outputSamplesPerSecond
  }

  /** A single element is acceptable in state `s`: it is unrecognised, or
      its field is still unset and, for a sampling frequency, its value is
      positive. */
  predicate Acceptable(s: State, e: Element) {
    Target(e).Some? ==>
      && !IsSet(s, Target(e).value)
      && (e.Float? ==> e.fval > 0.0)
  }

  /** No two elements of `es` target the same field. */
  predicate Distinct(es: seq<Element>) {
    forall i, j :: 0 <= i < j < |es| && Target(es[i]).Some? ==> Target(es[j]) != Target(es[i])
  }

  /** Dispatch one element to the matching callback. */
  function Step(s: State, e: Element): (r: (bool, State))
    ensures r.0 <==> Acceptable(s, e)
    ensures r.0 ==> Holds(r.1, e)
    ensures !r.0 ==> r.1 == s
    ensures forall f: Field :: Target(e) != Some(f) ==> SameField(s, r.1, f)
    ensures Valid(s) ==> Valid(r.1)
  {
    match e
    case UInt(id, v) => OnUInt(s, id, v)
    case Float(id, v) => OnFloat(s, id, v)
  }

  /** Deliver the elements in order, stopping at the first refusal. A field
      that is already set is never changed, and positive rates stay
      positive. */
  function Feed(s: State, es: seq<Element>): (r: (bool, State))
    ensures forall f: Field :: IsSet(s, f) ==> SameField(s, r.1, f)
    ensures Valid(s) ==> Valid(r.1)
    decreases |es|
  {
    if |es| == 0 then (true, s)
    else
      var (ok, s1) := Step(s, es[0]);
      if !ok then (false, s1)
      else
        // An accepted step only writes a field that was unset.
        assert forall f: Field :: IsSet(s, f) ==> IsSet(s1, f) && SameField(s, s1, f);
        Feed(s1, es[1..])
  }

  /** Acceptance of a whole sequence: every element is acceptable in the
      starting state and no field is targeted twice. */
  lemma {:induction false} FeedAcceptsExactly(s: State, es: seq<Element>)
    ensures Feed(s, es).0 <==>
      (forall i :: 0 <= i < |es| ==> Acceptable(s, es[i])) && Distinct(es)
    decreases |es|
  {
    if |es| > 0 {
      var (ok, s1) := Step(s, es[0]);
      var rest := es[1..];
      if ok {
        FeedAcceptsExactly(s1, rest);
        // Acceptability in s1 differs from acceptability in s only for the
        // field es[0] wrote.
        forall i | 0 <= i < |rest|
          ensures Acceptable(s1, rest[i]) <==>
                  Acceptable(s, rest[i]) && (Target(es[0]).Some? ==> Target(rest[i]) != Target(es[0]))
        {
          assert rest[i] == es[i + 1];
        }
        if (forall i :: 0 <= i < |es| ==> Acceptable(s, es[i])) && Distinct(es) {
          forall i, j | 0 <= i < j < |rest| && Target(rest[i]).Some?
            ensures Target(rest[j]) != Target(rest[i])
          {
            assert rest[i] == es[i + 1] && rest[j] == es[j + 1];
          }
          forall i | 0 <= i < |rest| ensures Acceptable(s1, rest[i]) {
            assert rest[i] == es[i + 1];
          }
        }
        if Feed(s, es).0 {
          forall i, j | 0 <= i < j < |es| && Target(es[i]).Some?
            ensures Target(es[j]) != Target(es[i])
          {
            if i > 0 {
              assert es[i] == rest[i - 1] && es[j] == rest[j - 1];
            } else {
              assert es[j] == rest[j - 1];
            }
          }
          forall i | 0 <= i < |es| ensures Acceptable(s, es[i]) {
            if i > 0 {
              assert es[i] == rest[i - 1];
            }
          }
        }
      } else {
        assert !Acceptable(s, es[0]);
      }
    }
  }

  /** What an accepted sequence leaves behind: every recognised element's
      value is stored in its field, and a field no element targets keeps
      its starting value. Whether accepted or not, positive rates stay
      positive. */
  lemma {:induction false} FeedStoresEachValue(s: State, es: seq<Element>)
    ensures Feed(s, es).0 ==> forall i :: 0 <= i < |es| ==> Holds(Feed(s, es).1, es[i])
    ensures forall f: Field :: (forall i :: 0 <= i < |es| ==> Target(es[i]) != Some(f)) ==>
              SameField(s, Feed(s, es).1, f)
    ensures Valid(s) ==> Valid(Feed(s, es).1)
    decreases |es|
  {
    if |es| > 0 {
      var (ok, s1) := Step(s, es[0]);
      var rest := es[1..];
      if ok {
        FeedStoresEachValue(s1, rest);
        var s' := Feed(s, es).1;
        assert s' == Feed(s1, rest).1;
        if Feed(s, es).0 {
          FeedAcceptsExactly(s, es);
          forall i | 0 <= i < |es| ensures Holds(s', es[i]) {
            if i > 0 {
              assert es[i] == rest[i - 1];
            } else if Target(es[0]).Some? {
              // No later element targets the field es[0] wrote.
              var f := Target(es[0]).value;
              forall k | 0 <= k < |rest| ensures Target(rest[k]) != Some(f) {
                assert rest[k] == es[k + 1];
              }
              assert SameField(s1, s', f);
            }
          }
        }
        forall f: Field | forall i :: 0 <= i < |es| ==> Target(es[i]) != Some(f)
          ensures SameField(s, s', f)
        {
          forall k | 0 <= k < |rest| ensures Target(rest[k]) != Some(f) {
            assert rest[k] == es[k + 1];
          }
        }
      }
    }
  }

  /** Starting from a reset accumulator, a sequence is accepted exactly when
      no field is targeted twice and every recognised sampling frequency is
      positive. */
  lemma FeedFromResetAccepts(es: seq<Element>)
    ensures Feed(Reset(), es).0 <==>
      && Distinct(es)
      && (forall i :: 0 <= i < |es| && Target(es[i]).Some? && es[i].Float? ==> es[i].fval > 0.0)
  {
    FeedAcceptsExactly(Reset(), es);
  }

  /** Two accepted callbacks commute: delivering them in the other order is
      accepted too and reaches the same accumulator. */
  lemma AcceptedStepsCommute(s: State, a: Element, b: Element)
    requires Step(s, a).0 && Step(Step(s, a).1, b).0
    ensures Step(s, b).0 && Step(Step(s, b).1, a).0
    ensures Step(Step(s, b).1, a).1 == Step(Step(s, a).1, b).1
  {
  }

  /** A track whose elements include no primary sampling frequency is
      always refused at finalisation, whatever else it declared (an output
      sampling frequency included) and whether or not the parser accepted
      the elements. */
  lemma NoSamplingFrequencyIsRefused(
    es: seq<Element>, codecId: string, codecPrivate: seq<uint8>, seekPreroll: int,
    codecDelay: int, isEncrypted: bool, guessChannelLayout: int -> ChannelLayout,
    isValidConfig: AudioDecoderConfig -> bool)
    requires forall i :: 0 <= i < |es| ==> Target(es[i]) != Some(RateField)
    ensures !InitializeConfig(Feed(Reset(), es).1, codecId, codecPrivate, seekPreroll, codecDelay,
                              isEncrypted, guessChannelLayout, isValidConfig).ok
  {
    FeedStoresEachValue(Reset(), es);
    assert SameField(Reset(), Feed(Reset(), es).1, RateField);
  }

  /** A track whose elements include no Channels element is finalised with
      the layout the table gives for one channel. */
  lemma NoChannelsElementIsMono(
    es: seq<Element>, codecId: string, codecPrivate: seq<uint8>, seekPreroll: int,
    codecDelay: int, isEncrypted: bool, guessChannelLayout: int -> ChannelLayout,
    isValidConfig: AudioDecoderConfig -> bool)
    requires forall i :: 0 <= i < |es| ==> Target(es[i]) != Some(ChannelsField)
    ensures var r := InitializeConfig(Feed(Reset(), es).1, codecId, codecPrivate, seekPreroll,
                                      codecDelay, isEncrypted, guessChannelLayout, isValidConfig);
            r.config.Some? ==> r.config.value.channelLayout == guessChannelLayout(1)
  {
    FeedStoresEachValue(Reset(), es);
    assert SameField(Reset(), Feed(Reset(), es).1, ChannelsField);
  }
}
