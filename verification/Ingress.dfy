/** Bounded redelivery suppression for instant messages (core/im_ingress.py). */
module Ingress {
  import opened Text

  datatype Key = Key(channel: string, account: string, conversation: string, message: string)

  datatype Message = Message(key: Key, canonicalUid: string, text: string, replyAddress: string)

  datatype Context = Context(channel: string, replyAddress: string)

  /** A claimed key and when it was claimed. */
  datatype Claim = Claim(key: Key, time: real)

  predicate Deliverable(m: Message, c: Context) {
    m.canonicalUid != "" && m.key.message != "" && Strip(m.text) != "" && m.replyAddress != ""
    && m.key.channel == c.channel && m.replyAddress == c.replyAddress
  }

  /** The oldest claims dropped while they are at least `ttl` old. */
  function DropExpired(seen: seq<Claim>, now: real, ttl: real): seq<Claim> {
    if seen != [] && seen[0].time <= now - ttl then DropExpired(seen[1..], now, ttl) else seen
  }

  predicate Claimed(seen: seq<Claim>, k: Key) {
    exists c :: c in seen && c.key == k
  }

  function Newest(seen: seq<Claim>, capacity: nat): seq<Claim> {
    if |seen| <= capacity then seen else seen[|seen| - capacity..]
  }

  /** The claims after a message, and whether it was admitted. */
  function Accept(seen: seq<Claim>, capacity: nat, ttl: real, m: Message, c: Context, now: real): (seq<Claim>, bool) {
    if !Deliverable(m, c) then (seen, false)
    else
      var live := DropExpired(seen, now, ttl);
      if Claimed(live, m.key) then (live, false)
      else (Newest(live + [Claim(m.key, now)], capacity), true)
  }

  class IMIngress {
    const capacity: nat
    const ttl: real
    var seen: seq<Claim>

    constructor (capacity: nat, ttl: real)
      ensures seen == [] && this.capacity == capacity && this.ttl == ttl
    {
      this.capacity, this.ttl, seen := capacity, ttl, [];
    }

    /** Claiming happens before the handler runs, so the claim stays whatever the handler does. */
    method AcceptMessage(m: Message, c: Context, now: real) returns (admitted: bool)
      modifies this
      ensures (seen, admitted) == Accept(old(seen), capacity, ttl, m, c, now)
    {
      if !Deliverable(m, c) {
        return false;
      }
      while seen != [] && seen[0].time <= now - ttl
        invariant DropExpired(seen, now, ttl) == DropExpired(old(seen), now, ttl)
        decreases |seen|
      {
        seen := seen[1..];
      }
      if Claimed(seen, m.key) {
        return false;
      }
      seen := seen + [Claim(m.key, now)];
      ghost var grown := seen;
      while |seen| > capacity
        invariant Newest(seen, capacity) == Newest(grown, capacity)
        decreases |seen|
      {
        seen := seen[1..];
      }
      admitted := true;
    }
  }

  // ---- Whole runs ----

  /** The claims with their history: every admission in order, and the last clock reading. */
  datatype Sys = Sys(seen: seq<Claim>, admitted: seq<Claim>, clock: real)

  datatype Arrival = Arrival(message: Message, context: Context, now: real)

  function Step(s: Sys, capacity: nat, ttl: real, a: Arrival): Sys {
    var (seen, ok) := Accept(s.seen, capacity, ttl, a.message, a.context, a.now);
    Sys(seen, if ok then s.admitted + [Claim(a.message.key, a.now)] else s.admitted, a.now)
  }

  function Run(capacity: nat, ttl: real, start: real, arrivals: seq<Arrival>): Sys {
    if arrivals == [] then Sys([], [], start)
    else Step(Run(capacity, ttl, start, arrivals[..|arrivals| - 1]), capacity, ttl, arrivals[|arrivals| - 1])
  }

  function LastTime(start: real, arrivals: seq<Arrival>): real {
    if arrivals == [] then start else arrivals[|arrivals| - 1].now
  }

  /** The clock does not go back. */
  predicate ClockMoves(start: real, arrivals: seq<Arrival>) {
    arrivals == [] ||
    (ClockMoves(start, arrivals[..|arrivals| - 1]) &&
     arrivals[|arrivals| - 1].now >= LastTime(start, arrivals[..|arrivals| - 1]))
  }

  ghost predicate InTime(cs: seq<Claim>, clock: real) {
    (forall i, j | 0 <= i < j < |cs| :: cs[i].time <= cs[j].time) && forall c | c in cs :: c.time <= clock
  }

  /** Admission `i` is out of reach: at least `ttl` ago, or followed by at least `capacity` others. */
  ghost predicate Released(s: Sys, capacity: nat, ttl: real, i: nat, now: real)
    requires i < |s.admitted|
  {
    now - s.admitted[i].time >= ttl || |s.admitted| - i - 1 >= capacity
  }

  /** The claims are the newest admissions, in time order and within capacity; all others are released. */
  ghost predicate Safe(s: Sys, capacity: nat, ttl: real) {
    && |s.seen| <= capacity && |s.seen| <= |s.admitted|
    && s.seen == s.admitted[|s.admitted| - |s.seen|..]
    && InTime(s.admitted, s.clock)
    && forall i: nat | i < |s.admitted| - |s.seen| :: Released(s, capacity, ttl, i, s.clock)
  }

  lemma {:induction false} DropExpiredFacts(seen: seq<Claim>, now: real, ttl: real)
    ensures var live := DropExpired(seen, now, ttl);
            && |live| <= |seen| && live == seen[|seen| - |live|..]
            && (forall i | 0 <= i < |seen| - |live| :: now - seen[i].time >= ttl)
            && (live != [] ==> now - live[0].time < ttl)
  {
    if seen != [] && seen[0].time <= now - ttl {
      DropExpiredFacts(seen[1..], now, ttl);
    }
  }

  /** An admission is still claimed exactly when it is not released. */
  lemma LiveIffNotReleased(s: Sys, capacity: nat, ttl: real, now: real, i: nat)
    requires Safe(s, capacity, ttl) && now >= s.clock && i < |s.admitted|
    ensures Released(s, capacity, ttl, i, now) <==> i < |s.admitted| - |DropExpired(s.seen, now, ttl)|
  {
    hide DropExpired;
    DropExpiredFacts(s.seen, now, ttl);
    var n, live := |s.admitted|, DropExpired(s.seen, now, ttl);
    var front, gone := n - |s.seen|, n - |live|;
    if i < front {
      assert Released(s, capacity, ttl, i, s.clock);
    } else {
      assert s.seen[i - front] == s.admitted[i];
      if i >= gone {
        assert live[0] == s.admitted[gone];
        assert s.admitted[gone].time <= s.admitted[i].time;
      }
    }
  }

  /** Among the live claims a key is found exactly when one of its admissions is not released. */
  lemma LiveClaims(s: Sys, capacity: nat, ttl: real, now: real, k: Key)
    requires Safe(s, capacity, ttl) && now >= s.clock
    ensures Claimed(DropExpired(s.seen, now, ttl), k) <==>
            exists i: nat :: i < |s.admitted| && s.admitted[i].key == k && !Released(s, capacity, ttl, i, now)
  {
    hide DropExpired, Released, InTime;
    DropExpiredFacts(s.seen, now, ttl);
    var live := DropExpired(s.seen, now, ttl);
    var gone := |s.admitted| - |live|;
    assert live == s.admitted[gone..];
    if c :| c in live && c.key == k {
      var j :| 0 <= j < |live| && live[j] == c;
      LiveIffNotReleased(s, capacity, ttl, now, gone + j);
    }
    if i: nat :| i < |s.admitted| && s.admitted[i].key == k && !Released(s, capacity, ttl, i, now) {
      LiveIffNotReleased(s, capacity, ttl, now, i);
      assert live[i - gone] == s.admitted[i];
    }
  }

  /** Time passing, and expired claims being dropped, keep the claims safe. */
  lemma ExpiryIsSafe(s: Sys, capacity: nat, ttl: real, now: real)
    requires Safe(s, capacity, ttl) && now >= s.clock
    ensures Safe(s.(clock := now), capacity, ttl)
    ensures Safe(Sys(DropExpired(s.seen, now, ttl), s.admitted, now), capacity, ttl)
  {
    hide DropExpired;
    DropExpiredFacts(s.seen, now, ttl);
    forall i: nat | i < |s.admitted| - |s.seen|
      ensures Released(s.(clock := now), capacity, ttl, i, now)
    {
      assert Released(s, capacity, ttl, i, s.clock);
    }
    forall i: nat | i < |s.admitted| - |DropExpired(s.seen, now, ttl)|
      ensures Released(Sys(DropExpired(s.seen, now, ttl), s.admitted, now), capacity, ttl, i, now)
    {
      LiveIffNotReleased(s, capacity, ttl, now, i);
    }
  }

  lemma ClaimKeepsTime(cs: seq<Claim>, c: Claim)
    requires InTime(cs, c.time)
    ensures InTime(cs + [c], c.time)
  {
    assert forall x | x in cs + [c] :: x in cs || x == c;
    assert forall i | 0 <= i < |cs| :: cs[i] in cs;
  }

  /** A new claim, with the oldest evicted beyond capacity, keeps the claims safe. */
  lemma ClaimIsSafe(s: Sys, capacity: nat, ttl: real, k: Key)
    requires Safe(s, capacity, ttl)
    ensures var c := Claim(k, s.clock);
            Safe(Sys(Newest(s.seen + [c], capacity), s.admitted + [c], s.clock), capacity, ttl)
  {
    var c := Claim(k, s.clock);
    var t := Sys(Newest(s.seen + [c], capacity), s.admitted + [c], s.clock);
    ClaimKeepsTime(s.admitted, c);
    hide InTime;
    forall i: nat | i < |t.admitted| - |t.seen|
      ensures Released(t, capacity, ttl, i, t.clock)
    {
      if i < |s.admitted| - |s.seen| {
        assert Released(s, capacity, ttl, i, s.clock);
      }
    }
  }

  /** A message is deliverable exactly with an owner, an identifier, a text that is not blank, and its own channel and reply address. */
  lemma DeliverableMeans(m: Message, c: Context)
    ensures Deliverable(m, c) <==>
            && m.canonicalUid != "" && m.key.message != "" && m.replyAddress != "" && !AllSpaces(m.text)
            && m.key.channel == c.channel && m.replyAddress == c.replyAddress
  {
    var r := RStrip(m.text);
    if AllSpaces(m.text) {
      assert r == "";
    } else {
      assert r != "" && !IsSpace(r[|r| - 1]);
      assert SkipSpaces(r, 0) < |r|;
    }
  }

  /** Any other message is refused, and leaves the claims as they were. */
  lemma UndeliverableIsRefused(seen: seq<Claim>, capacity: nat, ttl: real, m: Message, c: Context, now: real)
    requires m.canonicalUid == "" || m.key.message == "" || m.replyAddress == "" || AllSpaces(m.text)
             || m.key.channel != c.channel || m.replyAddress != c.replyAddress
    ensures Accept(seen, capacity, ttl, m, c, now) == (seen, false)
  {
    hide Deliverable;
    DeliverableMeans(m, c);
  }

  /** After a deliverable message, admitted or not, no claim is left that was old enough to expire. */
  lemma ExpiredClaimsAreGone(seen: seq<Claim>, capacity: nat, ttl: real, m: Message, c: Context, now: real, clock: real)
    requires Deliverable(m, c) && InTime(seen, clock)
    ensures forall x | x in Accept(seen, capacity, ttl, m, c, now).0 :: now - x.time < ttl || x == Claim(m.key, now)
  {
    hide Deliverable, DropExpired, Claimed;
    DropExpiredFacts(seen, now, ttl);
    var live := DropExpired(seen, now, ttl);
    forall x | x in live
      ensures now - x.time < ttl
    {
      var i :| 0 <= i < |live| && live[i] == x;
      assert live[0] == seen[|seen| - |live|] && live[i] == seen[|seen| - |live| + i];
    }
    assert forall x | x in live + [Claim(m.key, now)] :: x in live || x == Claim(m.key, now);
  }

  lemma StepIsSafe(s: Sys, capacity: nat, ttl: real, a: Arrival)
    requires Safe(s, capacity, ttl) && a.now >= s.clock
    ensures Safe(Step(s, capacity, ttl, a), capacity, ttl)
  {
    hide Safe, Deliverable, Claimed, DropExpired, Newest;
    ExpiryIsSafe(s, capacity, ttl, a.now);
    ClaimIsSafe(Sys(DropExpired(s.seen, a.now, ttl), s.admitted, a.now), capacity, ttl, a.message.key);
  }

  lemma {:induction false} RunIsSafe(capacity: nat, ttl: real, start: real, arrivals: seq<Arrival>)
    requires ClockMoves(start, arrivals)
    ensures var s := Run(capacity, ttl, start, arrivals);
            Safe(s, capacity, ttl) && s.clock == LastTime(start, arrivals)
  {
    hide Safe, Accept;
    if arrivals == [] {
      StartIsSafe(capacity, ttl, start);
    } else {
      var front := arrivals[..|arrivals| - 1];
      RunIsSafe(capacity, ttl, start, front);
      StepIsSafe(Run(capacity, ttl, start, front), capacity, ttl, arrivals[|arrivals| - 1]);
    }
  }

  lemma StartIsSafe(capacity: nat, ttl: real, start: real)
    ensures Safe(Sys([], [], start), capacity, ttl)
  {
  }

  /**
   * Over any run with a clock that does not go back, the claims are in time order and within
   * capacity, and a deliverable message is admitted exactly when every earlier admission of its key
   * is at least `ttl` old or was followed by at least `capacity` other admissions.
   */
  lemma AdmittedExactlyWhenReleased(capacity: nat, ttl: real, start: real, arrivals: seq<Arrival>, a: Arrival)
    requires ClockMoves(start, arrivals + [a]) && Deliverable(a.message, a.context)
    ensures var s := Run(capacity, ttl, start, arrivals);
            && |s.seen| <= capacity && InTime(s.seen, s.clock)
            && (Accept(s.seen, capacity, ttl, a.message, a.context, a.now).1 <==>
                forall i: nat | i < |s.admitted| && s.admitted[i].key == a.message.key :: Released(s, capacity, ttl, i, a.now))
  {
    hide Deliverable, Newest, DropExpired, Released, Run;
    var s, all := Run(capacity, ttl, start, arrivals), arrivals + [a];
    assert all[..|arrivals|] == arrivals;
    RunIsSafe(capacity, ttl, start, arrivals);
    LiveClaims(s, capacity, ttl, a.now, a.message.key);
    assert forall c | c in s.seen :: c in s.admitted;
  }
}
