/**
 * The numbers of the affect projection (core/affect.py): which events it reads, what one event adds to
 * each emotion, and what each mood axis weighs.
 */
module AffectTables {
  import opened Affect
  import opened AffectLaws

  /** Only the newest 48 events are read: whatever is older has no influence, and none of the newest is left out. */
  lemma NewestEventsAreRead(older: seq<Event>, events: seq<Event>)
    ensures |events| <= 48 ==> Recent(events) == events
    ensures |events| == 48 ==> Recent(older + events) == events
    ensures |events| >= 48 ==> Recent(older + events) == Recent(events) && |Recent(events)| == 48
  {
  }

  ghost predicate Share(x: real) {
    0.0 <= x <= 1.0
  }

  /** The age an event has been appraised for is within the week that is read. */
  ghost predicate InWeek(e: Event, now: real) {
    0.0 <= now - e.appraisedAt < 604800.0
  }

  /**
   * An event is refused exactly when it is not invalidated and its times or source turn are malformed,
   * or, where its appraisal is read, a share is missing or out of bounds or the strategy unknown.
   */
  lemma AcceptableMeans(e: Event, now: real)
    ensures Acceptable(e, now) <==>
            e.invalidated ||
            (&& 0.0 <= e.occurredAt <= 1000000000000.0 && 0.0 <= e.appraisedAt <= 1000000000000.0 && e.turn != ""
             && (InWeek(e, now) ==>
                   && e.appraisal.knownStrategy && Share(e.appraisal.confidence) && Share(e.appraisal.relevance)
                   && forall k: Emotion :: k in e.appraisal.emotions && Share(e.appraisal.emotions[k])))
  {
    AllEmotions();
  }

  lemma AllEmotions()
    ensures forall k: Emotion :: k in EMOTIONS
  {
    forall k: Emotion
      ensures k in EMOTIONS
    {
      match k
      case Joy => assert EMOTIONS[0] == k;
      case Anger => assert EMOTIONS[1] == k;
      case Hurt => assert EMOTIONS[2] == k;
      case Concern => assert EMOTIONS[3] == k;
      case Disappointment => assert EMOTIONS[4] == k;
      case Fear => assert EMOTIONS[5] == k;
      case Sadness => assert EMOTIONS[6] == k;
      case Surprise => assert EMOTIONS[7] == k;
    }
  }

  /** Half-lives in minutes. */
  lemma HalfLives()
    ensures HalfLife(Surprise) == 3.0 * 60.0 && HalfLife(Fear) == 20.0 * 60.0 && HalfLife(Joy) == 30.0 * 60.0
            && HalfLife(Anger) == 45.0 * 60.0 && HalfLife(Concern) == 60.0 * 60.0
            && HalfLife(Hurt) == HalfLife(Sadness) == 120.0 * 60.0 && HalfLife(Disappointment) == 240.0 * 60.0
  {
  }

  /**
   * What one event projects to: its share times confidence and relevance, decayed by age; for the mood
   * three tenths of it, decayed with a half-life of six hours. An invalidated event, or one appraised
   * outside the week, projects to nothing.
   */
  lemma OneEventProjects(d: Decay, e: Event, now: real, k: Emotion)
    requires Acceptable(e, now) && k in EMOTIONS
    ensures AllAcceptable([e], now)
    ensures !e.invalidated && InWeek(e, now) ==>
              && k in e.appraisal.emotions
              && var age, x := now - e.appraisedAt, e.appraisal.emotions[k] * (e.appraisal.confidence * e.appraisal.relevance);
                 && Accumulate(d, [e], now, k, false) == x * d(age, HalfLife(k))
                 && Accumulate(d, [e], now, k, true) == x * 0.3 * d(age, 21600.0)
    ensures e.invalidated || !InWeek(e, now) ==>
              Accumulate(d, [e], now, k, false) == 0.0 && Accumulate(d, [e], now, k, true) == 0.0
  {
    hide EMOTIONS, Accumulate, HalfLife, AllAcceptable;
    OneAccumulates(d, e, now, k);
    if !e.invalidated && InWeek(e, now) {
      AddedMeans(d, e, now, k);
    }
  }

  lemma OneAccumulates(d: Decay, e: Event, now: real, k: Emotion)
    requires Acceptable(e, now) && k in EMOTIONS
    ensures AllAcceptable([e], now) && (Counts(e, now) ==> k in e.appraisal.emotions)
    ensures forall slow :: Accumulate(d, [e], now, k, slow) == if Counts(e, now) then Added(d, e, now, k, slow) else 0.0
  {
    hide EMOTIONS, Added, Combine;
    assert AllAcceptable([], now) && AllAcceptable([e], now);
    NoEvents(d, now);
    NextEvent(d, [], e, now);
    assert [] + [e] == [e];
    CombineNothing();
  }

  lemma AddedMeans(d: Decay, e: Event, now: real, k: Emotion)
    requires k in e.appraisal.emotions
    ensures var age, x := now - e.appraisedAt, e.appraisal.emotions[k] * (e.appraisal.confidence * e.appraisal.relevance);
            Added(d, e, now, k, false) == x * d(age, HalfLife(k)) && Added(d, e, now, k, true) == x * 0.3 * d(age, 21600.0)
  {
    SlowestIsSixHours(k);
    hide HalfLife, Max;
    var x := Intensity(e, k);
    assert Quick(d, e, now, k) == x * d(now - e.appraisedAt, HalfLife(k));
    assert Slow(d, e, now, k) == x * 0.3 * d(now - e.appraisedAt, 21600.0);
  }

  lemma SlowestIsSixHours(k: Emotion)
    ensures Max(SLOW_HALF_LIFE, HalfLife(k)) == 21600.0
  {
  }

  lemma CombineNothing()
    ensures forall c: real :: Combine(0.0, c) == c
  {
  }

  // ---- Axes ----

  /** The amounts of a mood, added up. */
  function AmountOf(m: map<Emotion, real>): real
    requires Total(m)
  {
    AllTotal(m);
    m[Joy] + m[Anger] + m[Hurt] + m[Concern] + m[Disappointment] + m[Fear] + m[Sadness] + m[Surprise]
  }

  lemma AllTotal(m: map<Emotion, real>)
    requires Total(m)
    ensures forall k: Emotion :: k in m
  {
    AllEmotions();
  }

  lemma Prefixes()
    ensures EMOTIONS[..1] == [Joy] && EMOTIONS[..2] == [Joy, Anger] && EMOTIONS[..3] == [Joy, Anger, Hurt]
            && EMOTIONS[..4] == [Joy, Anger, Hurt, Concern] && EMOTIONS[..5] == [Joy, Anger, Hurt, Concern, Disappointment]
            && EMOTIONS[..6] == [Joy, Anger, Hurt, Concern, Disappointment, Fear]
            && EMOTIONS[..7] == [Joy, Anger, Hurt, Concern, Disappointment, Fear, Sadness] && EMOTIONS[..8] == EMOTIONS
  {
  }

  function Weighed(m: map<Emotion, real>, weight: Emotion -> real, k: Emotion): real
    requires k in m
  {
    m[k] * weight(k)
  }

  lemma SumAt(m: map<Emotion, real>, weight: Emotion -> real, n: nat)
    requires Total(m) && 1 <= n <= 8
    ensures (forall k | k in EMOTIONS[..n] :: k in EMOTIONS) && (forall k | k in EMOTIONS[..n - 1] :: k in EMOTIONS)
    ensures EMOTIONS[n - 1] in m
    ensures Sum(m, weight, EMOTIONS[..n]) == Sum(m, weight, EMOTIONS[..n - 1]) + Weighed(m, weight, EMOTIONS[n - 1])
    ensures Amount(m, EMOTIONS[..n]) == Amount(m, EMOTIONS[..n - 1]) + m[EMOTIONS[n - 1]]
  {
    AllEmotions();
    hide EMOTIONS;
    EmotionCount();
    var ks := EMOTIONS[..n];
    assert ks[..|ks| - 1] == EMOTIONS[..n - 1] && ks[|ks| - 1] == EMOTIONS[n - 1];
  }

  lemma EmotionCount()
    ensures |EMOTIONS| == 8
  {
  }

  /** The sum over all emotions is the sum of its eight terms. */
  lemma SumOfEight(m: map<Emotion, real>, weight: Emotion -> real)
    requires Total(m)
    ensures (forall k: Emotion :: k in m) && Amount(m, EMOTIONS) == AmountOf(m)
    ensures Sum(m, weight, EMOTIONS) ==
            Weighed(m, weight, Joy) + Weighed(m, weight, Anger) + Weighed(m, weight, Hurt) + Weighed(m, weight, Concern)
            + Weighed(m, weight, Disappointment) + Weighed(m, weight, Fear) + Weighed(m, weight, Sadness)
            + Weighed(m, weight, Surprise)
  {
    AllTotal(m);
    SumAt(m, weight, 1);
    SumAt(m, weight, 2);
    SumAt(m, weight, 3);
    SumAt(m, weight, 4);
    SumAt(m, weight, 5);
    SumAt(m, weight, 6);
    SumAt(m, weight, 7);
    SumAt(m, weight, 8);
    assert EMOTIONS[..0] == [] && EMOTIONS[..8] == EMOTIONS;
    hide Weighed;
  }

  /** The weights of valence, arousal and dominance, in tenths. */
  lemma Weights()
    ensures Pleasure(Joy) == 0.8 && Pleasure(Anger) == Pleasure(Hurt) == Pleasure(Sadness) == -0.7 && Pleasure(Concern) == -0.1
            && Pleasure(Disappointment) == -0.6 && Pleasure(Fear) == -0.8 && Pleasure(Surprise) == 0.1
    ensures Arousal(Joy) == 0.5 && Arousal(Anger) == Arousal(Fear) == Arousal(Surprise) == 0.8 && Arousal(Hurt) == 0.2
            && Arousal(Concern) == 0.3 && Arousal(Disappointment) == -0.2 && Arousal(Sadness) == -0.4
    ensures Dominance(Joy) == Dominance(Anger) == 0.3 && Dominance(Hurt) == -0.4 && Dominance(Concern) == 0.1
            && Dominance(Disappointment) == -0.3 && Dominance(Fear) == -0.7 && Dominance(Sadness) == -0.5 && Dominance(Surprise) == -0.1
  {
  }

  /** An axis is the weighted sum of the eight moods, divided by their amount where that is more than one. */
  lemma AxisMeans(m: map<Emotion, real>, weight: Emotion -> real)
    requires Total(m)
    ensures (forall k: Emotion :: k in m)
    ensures var sum := m[Joy] * weight(Joy) + m[Anger] * weight(Anger) + m[Hurt] * weight(Hurt) + m[Concern] * weight(Concern)
                       + m[Disappointment] * weight(Disappointment) + m[Fear] * weight(Fear) + m[Sadness] * weight(Sadness)
                       + m[Surprise] * weight(Surprise);
            Axis(m, weight) == if AmountOf(m) > 1.0 then sum / AmountOf(m) else sum
  {
    SumOfEight(m, weight);
    hide Sum, Amount, AmountOf;
    DividedByOne(Sum(m, weight, EMOTIONS));
  }

  lemma DividedByOne(x: real)
    ensures x / 1.0 == x
  {
  }
}
