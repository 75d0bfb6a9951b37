/**
 * The affect projection (core/affect.py) before rounding: appraised events accumulate by noisy-or
 * with decay. Exponential decay is a parameter of which only its bounds and monotonicity are used.
 */
module Affect {
  import opened Wrappers

  datatype Emotion = Joy | Anger | Hurt | Concern | Disappointment | Fear | Sadness | Surprise

  const EMOTIONS: seq<Emotion> := [Joy, Anger, Hurt, Concern, Disappointment, Fear, Sadness, Surprise]
  const MAX_EVENTS: nat := 48
  const MAX_AGE: real := 604800.0
  const SLOW_HALF_LIFE: real := 21600.0
  const LATEST: real := 1000000000000.0

  datatype Appraisal = Appraisal(emotions: map<Emotion, real>, confidence: real, relevance: real, knownStrategy: bool)

  datatype Event = Event(invalidated: bool, occurredAt: real, turn: string, appraisedAt: real, appraisal: Appraisal)

  /** Remaining share of a value of the given age, for a half-life. */
  type Decay = (real, real) -> real

  function HalfLife(e: Emotion): real {
    match e
    case Joy => 1800.0 case Anger => 2700.0 case Hurt => 7200.0 case Concern => 3600.0
    case Disappointment => 14400.0 case Fear => 1200.0 case Sadness => 7200.0 case Surprise => 180.0
  }

  function Pleasure(e: Emotion): real {
    match e
    case Joy => 0.8 case Anger => -0.7 case Hurt => -0.7 case Concern => -0.1
    case Disappointment => -0.6 case Fear => -0.8 case Sadness => -0.7 case Surprise => 0.1
  }

  function Arousal(e: Emotion): real {
    match e
    case Joy => 0.5 case Anger => 0.8 case Hurt => 0.2 case Concern => 0.3
    case Disappointment => -0.2 case Fear => 0.8 case Sadness => -0.4 case Surprise => 0.8
  }

  function Dominance(e: Emotion): real {
    match e
    case Joy => 0.3 case Anger => 0.3 case Hurt => -0.4 case Concern => 0.1
    case Disappointment => -0.3 case Fear => -0.7 case Sadness => -0.5 case Surprise => -0.1
  }

  function Max(a: real, b: real): real {
    if a >= b then a else b
  }

  predicate Number(x: real, lo: real, hi: real) {
    lo <= x <= hi
  }

  /** The event counts at `now`: not invalidated, and appraised within the window. */
  predicate Counts(e: Event, now: real) {
    !e.invalidated && 0.0 <= now - e.appraisedAt < MAX_AGE
  }

  predicate GoodAppraisal(a: Appraisal) {
    a.knownStrategy && Number(a.confidence, 0.0, 1.0) && Number(a.relevance, 0.0, 1.0)
    && forall k | k in EMOTIONS :: k in a.emotions && Number(a.emotions[k], 0.0, 1.0)
  }

  /** What the projection demands of an event; an invalidated one is skipped unread. */
  predicate Acceptable(e: Event, now: real) {
    e.invalidated ||
    (Number(e.occurredAt, 0.0, LATEST) && e.turn != "" && Number(e.appraisedAt, 0.0, LATEST)
     && (Counts(e, now) ==> GoodAppraisal(e.appraisal)))
  }

  function Intensity(e: Event, k: Emotion): real
    requires k in e.appraisal.emotions
  {
    e.appraisal.emotions[k] * (e.appraisal.confidence * e.appraisal.relevance)
  }

  function Quick(d: Decay, e: Event, now: real, k: Emotion): real
    requires k in e.appraisal.emotions
  {
    Intensity(e, k) * d(now - e.appraisedAt, HalfLife(k))
  }

  function Slow(d: Decay, e: Event, now: real, k: Emotion): real
    requires k in e.appraisal.emotions
  {
    Intensity(e, k) * 0.3 * d(now - e.appraisedAt, Max(SLOW_HALF_LIFE, HalfLife(k)))
  }

  /** What one event adds to emotion `k`, or to its mood. */
  function Added(d: Decay, e: Event, now: real, k: Emotion, slow: bool): real
    requires k in e.appraisal.emotions
  {
    if slow then Slow(d, e, now, k) else Quick(d, e, now, k)
  }

  function Combine(v: real, c: real): real {
    1.0 - (1.0 - v) * (1.0 - c)
  }

  function Recent(events: seq<Event>): seq<Event> {
    if |events| <= MAX_EVENTS then events else events[|events| - MAX_EVENTS..]
  }

  predicate AllAcceptable(events: seq<Event>, now: real) {
    forall e | e in events :: Acceptable(e, now)
  }

  /** Accumulated emotion `k`, or mood for `slow`, in the order of the events. */
  function Accumulate(d: Decay, events: seq<Event>, now: real, k: Emotion, slow: bool): real
    requires AllAcceptable(events, now) && k in EMOTIONS
  {
    if events == [] then 0.0
    else
      var front, e := events[..|events| - 1], events[|events| - 1];
      assert Acceptable(e, now) && forall x | x in front :: x in events;
      var v := Accumulate(d, front, now, k, slow);
      if Counts(e, now) then Combine(v, Added(d, e, now, k, slow)) else v
  }

  datatype Projection = Projection(
    vector: map<Emotion, real>, mood: map<Emotion, real>, valence: real, arousal: real, dominance: real)

  predicate Total(m: map<Emotion, real>) {
    forall k | k in EMOTIONS :: k in m
  }

  function Sum(m: map<Emotion, real>, weight: Emotion -> real, ks: seq<Emotion>): real
    requires Total(m) && forall k | k in ks :: k in EMOTIONS
  {
    if ks == [] then 0.0 else Sum(m, weight, ks[..|ks| - 1]) + m[ks[|ks| - 1]] * weight(ks[|ks| - 1])
  }

  function Amount(m: map<Emotion, real>, ks: seq<Emotion>): real
    requires Total(m) && forall k | k in ks :: k in EMOTIONS
  {
    if ks == [] then 0.0 else Amount(m, ks[..|ks| - 1]) + m[ks[|ks| - 1]]
  }

  /** One axis of the mood: a weighted mean, never divided by less than one. */
  function Axis(mood: map<Emotion, real>, weight: Emotion -> real): real
    requires Total(mood)
  {
    Sum(mood, weight, EMOTIONS) / Max(1.0, Amount(mood, EMOTIONS))
  }

  /** The source's loops over events and emotions; `None` is the error raised for a malformed event. */
  method Project(d: Decay, events: seq<Event>, now: real) returns (p: Option<Projection>)
    ensures p.Some? <==> AllAcceptable(Recent(events), now)
    ensures p.Some? ==> Total(p.value.vector) && Total(p.value.mood)
    ensures p.Some? ==> forall k | k in EMOTIONS ::
              p.value.vector[k] == Accumulate(d, Recent(events), now, k, false) &&
              p.value.mood[k] == Accumulate(d, Recent(events), now, k, true)
    ensures p.Some? ==> p.value.valence == Axis(p.value.mood, Pleasure)
    ensures p.Some? ==> p.value.arousal == Axis(p.value.mood, Arousal)
    ensures p.Some? ==> p.value.dominance == Axis(p.value.mood, Dominance)
  {
    hide Combine, Added, Acceptable, EMOTIONS, Accumulate, AllAcceptable, Recent, Axis;
    var rs := Recent(events);
    var vector := map k | k in EMOTIONS :: 0.0;
    var mood := map k | k in EMOTIONS :: 0.0;
    var i := 0;
    NoEvents(d, now);
    assert rs[..0] == [];
    while i < |rs|
      invariant 0 <= i <= |rs| && AllAcceptable(rs[..i], now) && Total(vector) && Total(mood)
      invariant forall k | k in EMOTIONS :: vector[k] == Accumulate(d, rs[..i], now, k, false)
      invariant forall k | k in EMOTIONS :: mood[k] == Accumulate(d, rs[..i], now, k, true)
    {
      var e := rs[i];
      if !Acceptable(e, now) {
        SomeUnacceptable(rs, now, i);
        return None;
      }
      assert rs[..i + 1] == rs[..i] + [e];
      NextEvent(d, rs[..i], e, now);
      if Counts(e, now) {
        vector, mood := AddEvent(d, e, now, vector, mood);
      }
      i := i + 1;
    }
    assert rs[..i] == rs;
    p := Some(Projection(vector, mood, Axis(mood, Pleasure), Axis(mood, Arousal), Axis(mood, Dominance)));
  }

  lemma NoEvents(d: Decay, now: real)
    ensures AllAcceptable([], now)
    ensures forall k, slow | k in EMOTIONS :: Accumulate(d, [], now, k, slow) == 0.0
  {
  }

  lemma SomeUnacceptable(events: seq<Event>, now: real, i: nat)
    requires i < |events| && !Acceptable(events[i], now)
    ensures !AllAcceptable(events, now)
  {
    assert events[i] in events;
  }

  lemma NextEvent(d: Decay, events: seq<Event>, e: Event, now: real)
    requires AllAcceptable(events, now) && Acceptable(e, now)
    ensures AllAcceptable(events + [e], now) && (Counts(e, now) ==> GoodAppraisal(e.appraisal))
    ensures forall k, slow | k in EMOTIONS ::
              Accumulate(d, events + [e], now, k, slow) ==
              if Counts(e, now) then Combine(Accumulate(d, events, now, k, slow), Added(d, e, now, k, slow))
              else Accumulate(d, events, now, k, slow)
  {
    hide EMOTIONS, Combine, Added, GoodAppraisal, Number;
    assert (events + [e])[..|events|] == events;
  }

  /** The inner loop: one event's contributions to every emotion. */
  method AddEvent(d: Decay, e: Event, now: real, vector0: map<Emotion, real>, mood0: map<Emotion, real>)
    returns (vector: map<Emotion, real>, mood: map<Emotion, real>)
    requires GoodAppraisal(e.appraisal) && Total(vector0) && Total(mood0)
    ensures Total(vector) && Total(mood)
    ensures forall k | k in EMOTIONS :: vector[k] == Combine(vector0[k], Added(d, e, now, k, false))
    ensures forall k | k in EMOTIONS :: mood[k] == Combine(mood0[k], Added(d, e, now, k, true))
  {
    hide Combine, Quick, Slow;
    vector, mood := vector0, mood0;
    var j := 0;
    while j < |EMOTIONS|
      invariant 0 <= j <= |EMOTIONS| && Total(vector) && Total(mood)
      invariant forall k | k in EMOTIONS :: vector[k] == if k in EMOTIONS[..j] then Combine(vector0[k], Quick(d, e, now, k)) else vector0[k]
      invariant forall k | k in EMOTIONS :: mood[k] == if k in EMOTIONS[..j] then Combine(mood0[k], Slow(d, e, now, k)) else mood0[k]
    {
      var k := EMOTIONS[j];
      assert k !in EMOTIONS[..j];
      assert EMOTIONS[..j + 1] == EMOTIONS[..j] + [k];
      vector := vector[k := Combine(vector[k], Quick(d, e, now, k))];
      mood := mood[k := Combine(mood[k], Slow(d, e, now, k))];
      j := j + 1;
    }
    assert EMOTIONS[..j] == EMOTIONS;
  }
}
