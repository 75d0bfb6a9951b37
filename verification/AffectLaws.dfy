/** Bounds, order independence and decay of the affect projection (core/affect.py). */
module AffectLaws {
  import opened Affect

  /** A share in (0, 1] that never rises with age. */
  ghost predicate Fades(d: Decay) {
    && (forall age: real, h: real | age >= 0.0 && h > 0.0 :: 0.0 < d(age, h) <= 1.0)
    && forall age: real, later: real, h: real | 0.0 <= age <= later && h > 0.0 :: d(later, h) <= d(age, h)
  }

  lemma MulBounds(a: real, b: real)
    requires 0.0 <= a <= 1.0 && 0.0 <= b <= 1.0
    ensures 0.0 <= a * b <= 1.0 && a * b <= a && a * b <= b
  {
    MulMonotone(a, b, 1.0);
    MulMonotone(b, a, 1.0);
  }

  lemma MulMonotone(a: real, b: real, c: real)
    requires 0.0 <= a && b <= c
    ensures a * b <= a * c
  {
    assert a * (c - b) >= 0.0;
    assert a * (c - b) == a * c - a * b;
  }

  lemma HalfLifePositive(k: Emotion)
    ensures HalfLife(k) > 0.0 && Max(SLOW_HALF_LIFE, HalfLife(k)) > 0.0
  {
  }

  lemma IntensityBounds(e: Event, k: Emotion)
    requires GoodAppraisal(e.appraisal) && k in EMOTIONS
    ensures 0.0 <= Intensity(e, k) <= 1.0
  {
    MulBounds(e.appraisal.confidence, e.appraisal.relevance);
    MulBounds(e.appraisal.emotions[k], e.appraisal.confidence * e.appraisal.relevance);
  }

  /** Share `x` after decay by `b`, a later and smaller factor than `a`. */
  lemma DecayedShare(x: real, a: real, b: real)
    requires 0.0 <= x <= 1.0 && 0.0 <= b <= a <= 1.0
    ensures 0.0 <= x * b <= x * a <= 1.0
  {
    MulBounds(x, a);
    MulBounds(x, b);
    MulMonotone(x, b, a);
  }

  /** A decayed factor at two ages. */
  lemma FadesAt(d: Decay, age: real, aged: real, h: real)
    requires Fades(d) && 0.0 <= age <= aged && h > 0.0
    ensures 0.0 <= d(aged, h) <= d(age, h) <= 1.0
  {
    assert d(age, h) > 0.0 && d(aged, h) > 0.0;
  }

  lemma QuickBounds(d: Decay, e: Event, now: real, later: real, k: Emotion)
    requires Fades(d) && k in e.appraisal.emotions && 0.0 <= Intensity(e, k) <= 1.0 && e.appraisedAt <= now <= later
    ensures 0.0 <= Quick(d, e, later, k) <= Quick(d, e, now, k) <= 1.0
  {
    hide Intensity, HalfLife, Fades;
    HalfLifePositive(k);
    FadesAt(d, now - e.appraisedAt, later - e.appraisedAt, HalfLife(k));
    var x, a, b := Intensity(e, k), d(now - e.appraisedAt, HalfLife(k)), d(later - e.appraisedAt, HalfLife(k));
    assert Quick(d, e, now, k) == x * a;
    assert Quick(d, e, later, k) == x * b;
    DecayedShare(x, a, b);
  }

  lemma SlowBounds(d: Decay, e: Event, now: real, later: real, k: Emotion)
    requires Fades(d) && k in e.appraisal.emotions && 0.0 <= Intensity(e, k) <= 1.0 && e.appraisedAt <= now <= later
    ensures 0.0 <= Slow(d, e, later, k) <= Slow(d, e, now, k) <= 1.0
  {
    hide Intensity, HalfLife, Fades, Max;
    HalfLifePositive(k);
    var h := Max(SLOW_HALF_LIFE, HalfLife(k));
    FadesAt(d, now - e.appraisedAt, later - e.appraisedAt, h);
    var x, a, b := Intensity(e, k) * 0.3, d(now - e.appraisedAt, h), d(later - e.appraisedAt, h);
    assert Slow(d, e, now, k) == x * a;
    assert Slow(d, e, later, k) == x * b;
    DecayedShare(x, a, b);
  }

  /** An event's contribution is a share, and does not rise with time. */
  lemma AddedBounds(d: Decay, e: Event, now: real, later: real, k: Emotion, slow: bool)
    requires Fades(d) && GoodAppraisal(e.appraisal) && k in EMOTIONS && e.appraisedAt <= now <= later
    ensures 0.0 <= Added(d, e, later, k, slow) <= Added(d, e, now, k, slow) <= 1.0
  {
    hide Intensity, Quick, Slow, Fades;
    IntensityBounds(e, k);
    if slow {
      SlowBounds(d, e, now, later, k);
    } else {
      QuickBounds(d, e, now, later, k);
    }
  }

  /** Product of the shares every counting event leaves over. */
  function Remaining(d: Decay, events: seq<Event>, now: real, k: Emotion, slow: bool): real
    requires AllAcceptable(events, now) && k in EMOTIONS
  {
    if events == [] then 1.0
    else Remaining(d, events[..|events| - 1], now, k, slow) * Left(d, events[|events| - 1], now, k, slow)
  }

  function Left(d: Decay, e: Event, now: real, k: Emotion, slow: bool): real
    requires Acceptable(e, now) && k in EMOTIONS
  {
    if Counts(e, now) then 1.0 - Added(d, e, now, k, slow) else 1.0
  }

  lemma FrontAcceptable(events: seq<Event>, now: real)
    requires AllAcceptable(events, now) && events != []
    ensures AllAcceptable(events[..|events| - 1], now) && Acceptable(events[|events| - 1], now)
  {
    assert forall e | e in events[..|events| - 1] :: e in events;
  }

  lemma RemainingLast(d: Decay, events: seq<Event>, now: real, k: Emotion, slow: bool)
    requires events != [] && AllAcceptable(events, now) && AllAcceptable(events[..|events| - 1], now) && k in EMOTIONS
    ensures var n := |events| - 1;
            Acceptable(events[n], now) &&
            Remaining(d, events, now, k, slow) == Remaining(d, events[..n], now, k, slow) * Left(d, events[n], now, k, slow)
  {
    hide Left, Acceptable, EMOTIONS;
    FrontAcceptable(events, now);
  }

  /** Every projected emotion is one minus the product of what its events leave over. */
  lemma {:induction false} AccumulateIsNoisyOr(d: Decay, events: seq<Event>, now: real, k: Emotion, slow: bool)
    requires AllAcceptable(events, now) && k in EMOTIONS
    ensures Accumulate(d, events, now, k, slow) == 1.0 - Remaining(d, events, now, k, slow)
  {
    hide Quick, Slow, GoodAppraisal, Number;
    if events != [] {
      FrontAcceptable(events, now);
      AccumulateIsNoisyOr(d, events[..|events| - 1], now, k, slow);
    }
  }

  lemma LeftBounds(d: Decay, e: Event, now: real, later: real, k: Emotion, slow: bool)
    requires Fades(d) && k in EMOTIONS && now <= later && Acceptable(e, now) && Acceptable(e, later)
    requires e.appraisedAt <= now || e.invalidated
    ensures 0.0 <= Left(d, e, now, k, slow) <= Left(d, e, later, k, slow) <= 1.0
  {
    if Counts(e, now) {
      AddedBounds(d, e, now, later, k, slow);
    }
  }

  lemma LeftIsShare(d: Decay, e: Event, now: real, k: Emotion, slow: bool)
    requires Fades(d) && k in EMOTIONS && Acceptable(e, now)
    ensures 0.0 <= Left(d, e, now, k, slow) <= 1.0
  {
    if Counts(e, now) {
      AddedBounds(d, e, now, now, k, slow);
    }
  }

  lemma {:induction false} RemainingBounds(d: Decay, events: seq<Event>, now: real, k: Emotion, slow: bool)
    requires Fades(d) && AllAcceptable(events, now) && k in EMOTIONS
    ensures 0.0 <= Remaining(d, events, now, k, slow) <= 1.0
  {
    hide Fades, Left;
    if events != [] {
      FrontAcceptable(events, now);
      RemainingBounds(d, events[..|events| - 1], now, k, slow);
      LeftIsShare(d, events[|events| - 1], now, k, slow);
      MulBounds(Remaining(d, events[..|events| - 1], now, k, slow), Left(d, events[|events| - 1], now, k, slow));
    }
  }

  /** Every projected emotion and mood lies in [0, 1]. */
  lemma EmotionsAreShares(d: Decay, events: seq<Event>, now: real, k: Emotion, slow: bool)
    requires Fades(d) && AllAcceptable(events, now) && k in EMOTIONS
    ensures 0.0 <= Accumulate(d, events, now, k, slow) <= 1.0
  {
    AccumulateIsNoisyOr(d, events, now, k, slow);
    RemainingBounds(d, events, now, k, slow);
  }

  lemma ProductGrows(r: real, r': real, m: real, m': real)
    requires 0.0 <= r <= r' && 0.0 <= m <= m'
    ensures r * m <= r' * m'
  {
    MulMonotone(r, m, m');
    MulMonotone(m', r, r');
  }

  lemma {:induction false} RemainingGrows(d: Decay, events: seq<Event>, now: real, later: real, k: Emotion, slow: bool)
    requires Fades(d) && k in EMOTIONS && now <= later && AllAcceptable(events, now) && AllAcceptable(events, later)
    requires forall e | e in events :: e.appraisedAt <= now || e.invalidated
    ensures 0.0 <= Remaining(d, events, now, k, slow) <= Remaining(d, events, later, k, slow)
  {
    hide Fades, Left, Acceptable;
    RemainingBounds(d, events, now, k, slow);
    if events != [] {
      var front, e := events[..|events| - 1], events[|events| - 1];
      FrontAcceptable(events, now);
      FrontAcceptable(events, later);
      assert e in events && forall x | x in front :: x in events;
      RemainingGrows(d, front, now, later, k, slow);
      LeftBounds(d, e, now, later, k, slow);
      var r, r' := Remaining(d, front, now, k, slow), Remaining(d, front, later, k, slow);
      var m, m' := Left(d, e, now, k, slow), Left(d, e, later, k, slow);
      ProductGrows(r, r', m, m');
    }
  }

  lemma StayAcceptable(events: seq<Event>, now: real, later: real)
    requires now <= later && AllAcceptable(events, now)
    requires forall e | e in events :: e.appraisedAt <= now || e.invalidated
    ensures AllAcceptable(events, later)
  {
    hide GoodAppraisal, Number;
  }

  /** Once every event has been appraised, no emotion or mood rises with time alone. */
  lemma EmotionsFade(d: Decay, events: seq<Event>, now: real, later: real, k: Emotion, slow: bool)
    requires Fades(d) && k in EMOTIONS && now <= later && AllAcceptable(events, now)
    requires forall e | e in events :: e.appraisedAt <= now || e.invalidated
    ensures AllAcceptable(events, later)
    ensures Accumulate(d, events, later, k, slow) <= Accumulate(d, events, now, k, slow)
  {
    hide Fades, Acceptable, AllAcceptable, Accumulate, Remaining;
    StayAcceptable(events, now, later);
    AccumulateIsNoisyOr(d, events, now, k, slow);
    AccumulateIsNoisyOr(d, events, later, k, slow);
    RemainingGrows(d, events, now, later, k, slow);
  }

  // ---- Order ----

  lemma SwapFactors(a: real, x: real, y: real)
    ensures (a * x) * y == (a * y) * x
  {
  }

  lemma RestAcceptable(events: seq<Event>, now: real, i: nat)
    requires AllAcceptable(events, now) && i < |events|
    ensures AllAcceptable(events[..i] + events[i + 1..], now) && Acceptable(events[i], now)
  {
    assert forall e | e in events[..i] + events[i + 1..] :: e in events;
  }

  /** Any one event can be taken out of the product first. */
  lemma {:induction false} RemainingPullOut(d: Decay, events: seq<Event>, now: real, k: Emotion, slow: bool, i: nat)
    requires AllAcceptable(events, now) && k in EMOTIONS && i < |events|
    ensures AllAcceptable(events[..i] + events[i + 1..], now)
    ensures Remaining(d, events, now, k, slow) ==
            Remaining(d, events[..i] + events[i + 1..], now, k, slow) * Left(d, events[i], now, k, slow)
  {
    hide Left, Acceptable, Remaining;
    RestAcceptable(events, now, i);
    var n := |events| - 1;
    FrontAcceptable(events, now);
    if i == n {
      assert events[..i] + events[i + 1..] == events[..n];
      RemainingLast(d, events, now, k, slow);
    } else {
      assert events[..n][i] == events[i];
      RemainingPullOut(d, events[..n], now, k, slow, i);
      PullOutStep(d, events, now, k, slow, i);
    }
  }

  lemma PullOutStep(d: Decay, events: seq<Event>, now: real, k: Emotion, slow: bool, i: nat)
    requires k in EMOTIONS && i < |events| - 1
    requires AllAcceptable(events, now) && AllAcceptable(events[..|events| - 1], now)
    requires AllAcceptable(events[..i] + events[i + 1..], now)
    requires var front := events[..|events| - 1];
             AllAcceptable(front[..i] + front[i + 1..], now) && front[i] == events[i] && Acceptable(events[i], now)
             && Remaining(d, front, now, k, slow) ==
                Remaining(d, front[..i] + front[i + 1..], now, k, slow) * Left(d, events[i], now, k, slow)
    ensures Remaining(d, events, now, k, slow) ==
            Remaining(d, events[..i] + events[i + 1..], now, k, slow) * Left(d, events[i], now, k, slow)
  {
    hide Left, Acceptable, Remaining, AllAcceptable;
    RestOfFront(events, i);
    RemainingLast(d, events, now, k, slow);
    var n, rest := |events| - 1, events[..i] + events[i + 1..];
    RemainingLast(d, rest, now, k, slow);
    var front := events[..n];
    SwapFactors(Remaining(d, front[..i] + front[i + 1..], now, k, slow), Left(d, events[i], now, k, slow), Left(d, events[n], now, k, slow));
  }

  lemma RestOfFront(events: seq<Event>, i: nat)
    requires i < |events| - 1
    ensures var n, rest := |events| - 1, events[..i] + events[i + 1..];
            rest != [] && rest[|rest| - 1] == events[n] && events[..n][i] == events[i]
            && rest[..|rest| - 1] == events[..n][..i] + events[..n][i + 1..]
  {
    var n, rest := |events| - 1, events[..i] + events[i + 1..];
    assert rest[..|rest| - 1] == events[..n][..i] + events[..n][i + 1..];
  }

  /** Taking the last event of `a` out of both orders leaves the same events. */
  lemma WhereLastIs(a: seq<Event>, b: seq<Event>) returns (i: nat)
    requires a != [] && multiset(a) == multiset(b)
    ensures i < |b| && b[i] == a[|a| - 1]
    ensures multiset(a[..|a| - 1]) == multiset(b[..i] + b[i + 1..])
  {
    var n := |a| - 1;
    assert a[n] in multiset(b);
    i :| 0 <= i < |b| && b[i] == a[n];
    assert a == a[..n] + [a[n]];
    assert multiset(a[..n]) == multiset(a) - multiset{a[n]};
    assert b == b[..i] + [b[i]] + b[i + 1..];
    assert multiset(b[..i] + b[i + 1..]) == multiset(b) - multiset{a[n]};
  }

  /** The projection does not depend on the order of the events. */
  lemma {:induction false} RemainingIgnoresOrder(d: Decay, a: seq<Event>, b: seq<Event>, now: real, k: Emotion, slow: bool)
    requires multiset(a) == multiset(b) && AllAcceptable(a, now) && AllAcceptable(b, now) && k in EMOTIONS
    ensures Remaining(d, a, now, k, slow) == Remaining(d, b, now, k, slow)
    decreases |a|
  {
    hide Left, Acceptable, Remaining, AllAcceptable;
    if a == [] {
      assert |multiset(b)| == 0;
      assert b == [];
    } else {
      var n := |a| - 1;
      var i := WhereLastIs(a, b);
      RemainingPullOut(d, b, now, k, slow, i);
      FrontAcceptable(a, now);
      RemainingLast(d, a, now, k, slow);
      RemainingIgnoresOrder(d, a[..n], b[..i] + b[i + 1..], now, k, slow);
    }
  }

  lemma EmotionsIgnoreOrder(d: Decay, a: seq<Event>, b: seq<Event>, now: real, k: Emotion, slow: bool)
    requires multiset(a) == multiset(b) && AllAcceptable(a, now) && AllAcceptable(b, now) && k in EMOTIONS
    ensures Accumulate(d, a, now, k, slow) == Accumulate(d, b, now, k, slow)
  {
    AccumulateIsNoisyOr(d, a, now, k, slow);
    AccumulateIsNoisyOr(d, b, now, k, slow);
    RemainingIgnoresOrder(d, a, b, now, k, slow);
  }

  // ---- Mood axes ----

  predicate Within(x: real, t: real) {
    t >= 0.0 && -0.8 * t <= x <= 0.8 * t
  }

  lemma SumStep(x: real, t: real, w: real, u: real)
    requires Within(x, t) && -0.8 <= w <= 0.8 && u >= 0.0
    ensures Within(x + u * w, t + u)
  {
    assert u * (0.8 - w) >= 0.0 && u * (w + 0.8) >= 0.0;
    assert u * (0.8 - w) == 0.8 * u - u * w;
    assert u * (w + 0.8) == u * w + 0.8 * u;
    AddWithin(x, t, u * w, u);
  }

  lemma AddWithin(x: real, t: real, y: real, u: real)
    requires Within(x, t) && Within(y, u)
    ensures Within(x + y, t + u)
  {
  }

  lemma SumLast(m: map<Emotion, real>, weight: Emotion -> real, ks: seq<Emotion>)
    requires Total(m) && ks != [] && forall k | k in ks :: k in EMOTIONS
    ensures var n := |ks| - 1;
            (forall k | k in ks[..n] :: k in EMOTIONS) && Sum(m, weight, ks) == Sum(m, weight, ks[..n]) + m[ks[n]] * weight(ks[n])
  {
    hide EMOTIONS;
    assert forall k | k in ks[..|ks| - 1] :: k in ks;
  }

  /** The weighted sum of a mood is at most 0.8 of its amount, in either direction. */
  lemma {:induction false} SumBounds(m: map<Emotion, real>, weight: Emotion -> real, ks: seq<Emotion>)
    requires Total(m) && (forall k | k in ks :: k in EMOTIONS) && (forall k | k in EMOTIONS :: m[k] >= 0.0)
    requires forall k | k in EMOTIONS :: -0.8 <= weight(k) <= 0.8
    ensures Within(Sum(m, weight, ks), Amount(m, ks))
  {
    if ks != [] {
      hide EMOTIONS, Sum, Within;
      var front, k := ks[..|ks| - 1], ks[|ks| - 1];
      assert forall x | x in front :: x in ks;
      SumBounds(m, weight, front);
      SumLast(m, weight, ks);
      var u, w := m[k], weight(k);
      SumStep(Sum(m, weight, front), Amount(m, front), w, u);
    }
  }

  lemma QuotientBounds(x: real, t: real)
    requires t >= 1.0 && -0.8 * t <= x <= 0.8 * t
    ensures -0.8 <= x / t <= 0.8
  {
    var q := x / t;
    assert q * t == x;
    if q > 0.8 { StrictMul(t, 0.8, q); }
    if q < -0.8 { StrictMul(t, q, -0.8); }
  }

  lemma StrictMul(a: real, b: real, c: real)
    requires a > 0.0 && b < c
    ensures a * b < a * c
  {
    assert a * (c - b) > 0.0;
  }

  /** Each mood axis stays within 0.8 of neutral. */
  lemma AxisBounds(m: map<Emotion, real>, weight: Emotion -> real)
    requires Total(m) && (forall k | k in EMOTIONS :: m[k] >= 0.0)
    requires forall k | k in EMOTIONS :: -0.8 <= weight(k) <= 0.8
    ensures -0.8 <= Axis(m, weight) <= 0.8
  {
    SumBounds(m, weight, EMOTIONS);
    var total := Amount(m, EMOTIONS);
    var t := Max(1.0, total);
    MulMonotone(0.8, total, t);
    QuotientBounds(Sum(m, weight, EMOTIONS), t);
  }

  /** All three axes of a projected mood stay within 0.8. */
  lemma MoodAxesBounded(d: Decay, events: seq<Event>, now: real, mood: map<Emotion, real>)
    requires Fades(d) && AllAcceptable(events, now) && Total(mood)
    requires forall k | k in EMOTIONS :: mood[k] == Accumulate(d, events, now, k, true)
    ensures -0.8 <= Axis(mood, Pleasure) <= 0.8 && -0.8 <= Axis(mood, Arousal) <= 0.8 && -0.8 <= Axis(mood, Dominance) <= 0.8
  {
    hide Axis;
    forall k | k in EMOTIONS
      ensures mood[k] >= 0.0
    {
      EmotionsAreShares(d, events, now, k, true);
    }
    AxisBounds(mood, Pleasure);
    AxisBounds(mood, Arousal);
    AxisBounds(mood, Dominance);
  }
}
