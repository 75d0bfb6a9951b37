/**
 * Every interleaving of producers and the device writer (channels/device_ws.py): nothing accepted is
 * lost, repeated, reordered or merged across messages before a send fails.
 */
module DeviceQueueRuns {
  import opened Wrappers
  import opened DeviceQueue

  /** What a device shows: characters tagged with their message, and other frames as wholes. */
  datatype Token = Char(msgId: Option<string>, c: char) | Whole(payload: string)

  function Tokens(f: Frame): seq<Token> {
    match f
    case Delta(id, text, _) => seq(|text|, i requires 0 <= i < |text| => Char(id, text[i]))
    case Other(payload) => [Whole(payload)]
  }

  function Expand(fs: seq<Frame>): seq<Token> {
    if fs == [] then [] else Tokens(fs[0]) + Expand(fs[1..])
  }

  datatype Event = Push(frame: Frame) | PopEvent | WakeEvent | SendEvent(ok: bool) | DisconnectEvent | ConnectEvent

  function Step(l: Link, e: Event): Link {
    match e
    case Push(f) => Enqueue(l, f).0
    case PopEvent => Pop(l)
    case WakeEvent => Wake(l)
    case SendEvent(ok) => Send(l, ok)
    case DisconnectEvent => Disconnect(l)
    case ConnectEvent => Connect()
  }

  function Run(l: Link, events: seq<Event>): Link {
    if events == [] then l else Step(Run(l, events[..|events| - 1]), events[|events| - 1])
  }

  /** Sent frames, then the frame in hand or those lost, then the queue, show exactly the accepted frames in order. */
  ghost predicate Conserves(l: Link) {
    Expand(l.sent + InHand(l.writer) + Queued(l)) == Expand(l.accepted)
  }

  ghost predicate Safe(l: Link) {
    Conserves(l) && |Queued(l)| <= 64
  }

  lemma {:induction false} ExpandAppend(a: seq<Frame>, b: seq<Frame>)
    ensures Expand(a + b) == Expand(a) + Expand(b)
  {
    if a == [] {
      assert a + b == b;
    } else {
      assert (a + b)[1..] == a[1..] + b;
      ExpandAppend(a[1..], b);
    }
  }

  lemma ExpandOne(f: Frame)
    ensures Expand([f]) == Tokens(f)
  {
    assert [f][1..] == [];
  }

  lemma JoinedTokens(a: Frame, b: Frame)
    requires SameMessage(a, b)
    ensures Tokens(Joined(a, b)) == Tokens(a) + Tokens(b)
  {
  }

  /** Merging shows the same tokens. */
  lemma {:induction false} AbsorbConserves(item: Frame, q: seq<Frame>)
    ensures var (item', rest) := Absorb(item, q);
            Tokens(item') + Expand(rest) == Tokens(item) + Expand(q) && |rest| <= |q|
    decreases |q|
  {
    hide Tokens, Joined, Utf8Size;
    if q != [] && SameMessage(item, q[0]) && Utf8Size(item.text) < DELTA_AGG_BYTES {
      JoinedTokens(item, q[0]);
      AbsorbConserves(Joined(item, q[0]), q[1..]);
      assert Tokens(item) + (Tokens(q[0]) + Expand(q[1..])) == (Tokens(item) + Tokens(q[0])) + Expand(q[1..]);
    }
  }

  lemma Expand3(a: seq<Frame>, b: seq<Frame>, c: seq<Frame>)
    ensures Expand(a + b + c) == Expand(a) + (Expand(b) + Expand(c))
  {
    hide Expand, Tokens;
    ExpandAppend(a + b, c);
    ExpandAppend(a, b);
  }

  lemma PushIsSafe(l: Link, f: Frame)
    requires Safe(l)
    ensures Safe(Step(l, Push(f)))
  {
    hide Expand, Tokens;
    var q, m := Queued(l), Step(l, Push(f));
    var done := l.sent + InHand(l.writer);
    ExpandAppend(l.accepted, [f]);
    ExpandAppend(done, q);
    ExpandAppend(done, Queued(m));
    if l.queue.Some? && |q| < OUT_QUEUE_MAXSIZE {
      ExpandAppend(q, [f]);
    } else if l.queue.Some? && SameMessage(q[|q| - 1], f) {
      var last := q[|q| - 1];
      assert q == q[..|q| - 1] + [last] && Queued(m) == q[..|q| - 1] + [Joined(last, f)];
      ExpandAppend(q[..|q| - 1], [last]);
      ExpandAppend(q[..|q| - 1], [Joined(last, f)]);
      ExpandOne(last);
      ExpandOne(f);
      ExpandOne(Joined(last, f));
      JoinedTokens(last, f);
    }
  }

  lemma WriterIsSafe(l: Link, e: Event)
    requires Safe(l) && (e.PopEvent? || e.WakeEvent? || e.SendEvent?)
    ensures Safe(Step(l, e))
  {
    hide Expand, Tokens, Absorb;
    var m := Step(l, e);
    Expand3(l.sent, InHand(l.writer), Queued(l));
    Expand3(m.sent, InHand(m.writer), Queued(m));
    match e
    case PopEvent =>
      if m != l {
        assert Queued(l) == [Queued(l)[0]] + Queued(m);
        ExpandAppend([Queued(l)[0]], Queued(m));
        ExpandAppend([], []);
        assert Expand([]) == [] by { EmptyExpands(); }
      }
    case WakeEvent =>
      if l.writer.Pausing? && l.queue.Some? {
        AbsorbConserves(l.writer.item, Queued(l));
        ExpandOne(l.writer.item);
        ExpandOne(m.writer.item);
      }
    case SendEvent(ok) =>
      if l.writer.Sending? && ok {
        ExpandAppend(l.sent, [l.writer.item]);
        EmptyExpands();
      }
  }

  lemma EmptyExpands()
    ensures Expand([]) == []
  {
  }

  /** A disconnect loses exactly the frame in hand and the queue. */
  lemma DisconnectIsSafe(l: Link)
    requires Safe(l)
    ensures Safe(Disconnect(l)) && Disconnect(l).sent == l.sent
  {
    var lost := InHand(l.writer) + Queued(l);
    assert l.sent + lost + [] == l.sent + InHand(l.writer) + Queued(l);
  }

  lemma StepIsSafe(l: Link, e: Event)
    requires Safe(l)
    ensures Safe(Step(l, e))
  {
    hide Safe, Enqueue, Pop, Wake, Send, Disconnect;
    match e
    case Push(f) => PushIsSafe(l, f);
    case DisconnectEvent => DisconnectIsSafe(l);
    case ConnectEvent => assert Safe(Connect()) by { FreshLinkIsSafe(); }
    case PopEvent => WriterIsSafe(l, e);
    case WakeEvent => WriterIsSafe(l, e);
    case SendEvent(_) => WriterIsSafe(l, e);
  }

  lemma FreshLinkIsSafe()
    ensures Safe(Connect())
  {
  }

  /** For every interleaving on a connection: conservation, order, and the queue bound. */
  lemma {:induction false} RunIsSafe(events: seq<Event>)
    ensures Safe(Run(Connect(), events))
  {
    hide Safe, Step;
    if events == [] {
      FreshLinkIsSafe();
    } else {
      RunIsSafe(events[..|events| - 1]);
      StepIsSafe(Run(Connect(), events[..|events| - 1]), events[|events| - 1]);
    }
  }

  /** What was sent is always the beginning of what was accepted: nothing missing, repeated or reordered. */
  lemma SentIsPrefixOfAccepted(events: seq<Event>)
    ensures var l := Run(Connect(), events);
            && Expand(l.sent) <= Expand(l.accepted)
            && (l.writer.Waiting? && Queued(l) == [] ==> Expand(l.sent) == Expand(l.accepted))
  {
    var l := Run(Connect(), events);
    RunIsSafe(events);
    Expand3(l.sent, InHand(l.writer), Queued(l));
  }

  // ---- Timestamps ----

  /** The last timestamp present among `item` and the first `n` frames behind it. */
  function LastTime(item: Frame, q: seq<Frame>, n: nat): Option<real>
    requires item.Delta? && n <= |q| && forall i | 0 <= i < n :: q[i].Delta?
  {
    if n == 0 then item.ts else if q[n - 1].ts.Some? then q[n - 1].ts else LastTime(item, q, n - 1)
  }

  lemma {:induction false} LastTimeOfJoin(item: Frame, q: seq<Frame>, n: nat)
    requires q != [] && SameMessage(item, q[0]) && n < |q| && forall i | 0 <= i <= n :: q[i].Delta?
    ensures LastTime(Joined(item, q[0]), q[1..], n) == LastTime(item, q, n + 1)
  {
    if n > 0 {
      LastTimeOfJoin(item, q, n - 1);
    } else {
      assert LastTime(item, q, 1) == if q[0].ts.Some? then q[0].ts else LastTime(item, q, 0);
    }
  }

  /** A merged frame carries the last timestamp present among the frames in it. */
  lemma {:induction false} MergedFrameTime(item: Frame, q: seq<Frame>)
    requires item.Delta?
    ensures var (item', rest) := Absorb(item, q);
            var n := |q| - |rest|;
            && item'.Delta? && 0 <= n <= |q| && (forall i | 0 <= i < n :: q[i].Delta?)
            && item'.ts == LastTime(item, q, n)
    decreases |q|
  {
    if q != [] && SameMessage(item, q[0]) && Utf8Size(item.text) < DELTA_AGG_BYTES {
      MergedFrameTime(Joined(item, q[0]), q[1..]);
      LastTimeOfJoin(item, q, |q| - 1 - |Absorb(Joined(item, q[0]), q[1..]).1|);
    }
  }

  /** A delta pushed onto a full queue of its message adds its text to the last frame, whose time it takes over if it has one. */
  lemma FullPushMerges(l: Link, id: Option<string>, text: string, ts: Option<real>)
    requires Safe(l) && |Queued(l)| == 64
    requires var tail := Queued(l)[63]; tail.Delta? && tail.msgId == id
    ensures var (m, ok) := Enqueue(l, Delta(id, text, ts));
            var tail := Queued(l)[63];
            && ok && |Queued(m)| == 64 && Queued(m)[..63] == Queued(l)[..63]
            && Queued(m)[63] == Delta(id, tail.text + text, if ts.Some? then ts else tail.ts)
  {
  }

  // ---- Frame sizes ----

  /** The bytes of one character in UTF-8. */
  lemma CharacterSizes(c: char)
    ensures var n := c as int;
            Utf8Size([c]) == if n <= 0x7F then 1 else if n <= 0x7FF then 2 else if n <= 0xFFFF then 3 else 4
  {
    assert [c][..0] == "";
  }

  lemma {:induction false} SizeOfJoin(a: string, b: string)
    ensures Utf8Size(a + b) == Utf8Size(a) + Utf8Size(b)
  {
    if b == "" {
      assert a + b == a;
    } else {
      assert (a + b)[..|a + b| - 1] == a + b[..|b| - 1];
      SizeOfJoin(a, b[..|b| - 1]);
    }
  }

  /**
   * A frame that absorbs another is under the limit just before: so a merged frame exceeds the limit
   * by less than the last delta it took in.
   */
  lemma {:induction false} MergedFrameBound(item: Frame, q: seq<Frame>)
    requires item.Delta?
    ensures var (item', rest) := Absorb(item, q);
            && item'.Delta? && |rest| <= |q|
            && ((item' == item && rest == q) ||
                (|rest| < |q| && SameMessage(item, q[|q| - |rest| - 1]) &&
                 Utf8Size(item'.text) < 512 + Utf8Size(q[|q| - |rest| - 1].text)))
    decreases |q|
  {
    if q != [] && SameMessage(item, q[0]) && Utf8Size(item.text) < DELTA_AGG_BYTES {
      var next := Joined(item, q[0]);
      SizeOfJoin(item.text, q[0].text);
      MergedFrameBound(next, q[1..]);
      var rest := Absorb(item, q).1;
      assert |rest| < |q[1..]| ==> q[1..][|q[1..]| - |rest| - 1] == q[|q| - |rest| - 1];
    }
  }

  function Repeat(c: char, n: nat): string {
    if n == 0 then "" else Repeat(c, n - 1) + [c]
  }

  lemma {:induction false} RepeatSize(n: nat)
    ensures Utf8Size(Repeat('a', n)) == n && |Repeat('a', n)| == n
  {
    if n > 0 {
      RepeatSize(n - 1);
      assert Repeat('a', n)[..n - 1] == Repeat('a', n - 1);
    }
  }

  /** The limit bounds the absorbing frame, not the merged one: 511 and 511 bytes merge to 1022. */
  lemma MergedFrameMayExceedLimit() returns (item: Frame, q: seq<Frame>)
    ensures item.Delta? && Utf8Size(item.text) == 511
    ensures |q| == 1 && q[0].Delta? && Utf8Size(q[0].text) == 511
    ensures Absorb(item, q).0.Delta? && Utf8Size(Absorb(item, q).0.text) == 1022
  {
    item := Delta(None, Repeat('a', 511), None);
    q := [item];
    RepeatSize(511);
    SizeOfJoin(item.text, item.text);
    assert Absorb(item, q) == Absorb(Joined(item, item), q[1..]);
  }

  /** How many frames at the head of the queue are deltas of the message of `item`. */
  function RunLength(item: Frame, q: seq<Frame>): (n: nat)
    ensures n <= |q| && forall i | 0 <= i < n :: SameMessage(item, q[i])
  {
    if q != [] && SameMessage(item, q[0]) then 1 + RunLength(item, q[1..]) else 0
  }

  /** Bytes of `item` and of the first `n` frames behind it. */
  function RunSize(item: Frame, q: seq<Frame>, n: nat): nat
    requires item.Delta? && n <= |q| && forall i | 0 <= i < n :: q[i].Delta?
  {
    if n == 0 then Utf8Size(item.text) else RunSize(item, q, n - 1) + Utf8Size(q[n - 1].text)
  }

  lemma {:induction false} RunSizeOfJoin(item: Frame, q: seq<Frame>, n: nat)
    requires q != [] && SameMessage(item, q[0]) && n < |q| && forall i | 0 <= i <= n :: q[i].Delta?
    ensures RunSize(Joined(item, q[0]), q[1..], n) == RunSize(item, q, n + 1)
  {
    if n == 0 {
      SizeOfJoin(item.text, q[0].text);
      assert RunSize(item, q, 1) == RunSize(item, q, 0) + Utf8Size(q[0].text);
    } else {
      RunSizeOfJoin(item, q, n - 1);
    }
  }

  lemma RunLengthOfJoin(item: Frame, q: seq<Frame>)
    requires q != [] && SameMessage(item, q[0])
    ensures RunLength(Joined(item, q[0]), q[1..]) == RunLength(item, q) - 1
  {
    SameRun(item, Joined(item, q[0]), q[1..]);
  }

  lemma {:induction false} SameRun(a: Frame, b: Frame, q: seq<Frame>)
    requires SameMessage(a, b)
    ensures RunLength(a, q) == RunLength(b, q)
  {
    if q != [] {
      SameRun(a, b, q[1..]);
    }
  }

  lemma {:induction false} RunSizeGrows(item: Frame, q: seq<Frame>, n: nat)
    requires item.Delta? && n <= |q| && forall i | 0 <= i < n :: q[i].Delta?
    ensures Utf8Size(item.text) <= RunSize(item, q, n)
  {
    if n > 0 {
      RunSizeGrows(item, q, n - 1);
    }
  }

  /** The run fits: all of it is short, or some beginning of it fills the limit exactly. */
  ghost predicate RunFits(item: Frame, q: seq<Frame>)
    requires item.Delta?
  {
    || RunSize(item, q, RunLength(item, q)) < 512
    || exists n: nat :: n <= RunLength(item, q) && RunSize(item, q, n) == 512
  }

  /** The documented limit on merged frames is met exactly when the run of deltas behind the frame fits. */
  lemma {:induction false} MergedFrameFitsIff(item: Frame, q: seq<Frame>)
    requires item.Delta?
    ensures Absorb(item, q).0.Delta?
    ensures Utf8Size(Absorb(item, q).0.text) <= 512 <==> RunFits(item, q)
    decreases |q|
  {
    hide Utf8Size;
    var m := RunLength(item, q);
    assert RunSize(item, q, 0) == Utf8Size(item.text);
    if m > 0 && Utf8Size(item.text) < DELTA_AGG_BYTES {
      var joined, rest := Joined(item, q[0]), q[1..];
      MergedFrameFitsIff(joined, rest);
      RunLengthOfJoin(item, q);
      RunSizeOfJoin(item, q, m - 1);
      FitsOfJoin(item, q);
    } else {
      forall n: nat | n <= m
        ensures RunSize(item, q, n) >= Utf8Size(item.text)
      {
        RunSizeGrows(item, q, n);
      }
    }
  }

  lemma FitsOfJoin(item: Frame, q: seq<Frame>)
    requires q != [] && SameMessage(item, q[0]) && Utf8Size(item.text) < DELTA_AGG_BYTES
    ensures RunFits(item, q) <==> RunFits(Joined(item, q[0]), q[1..])
  {
    hide Utf8Size;
    var m, joined, rest := RunLength(item, q), Joined(item, q[0]), q[1..];
    RunLengthOfJoin(item, q);
    RunSizeOfJoin(item, q, m - 1);
    if n: nat :| n <= m && RunSize(item, q, n) == DELTA_AGG_BYTES {
      assert n > 0;
      RunSizeOfJoin(item, q, n - 1);
      assert RunSize(joined, rest, n - 1) == DELTA_AGG_BYTES;
    }
    if n: nat :| n <= m - 1 && RunSize(joined, rest, n) == DELTA_AGG_BYTES {
      RunSizeOfJoin(item, q, n);
      assert RunSize(item, q, n + 1) == DELTA_AGG_BYTES;
    }
  }

  // ---- Draining ----

  /** The frames a writer left alone sends for a queue. */
  function Drained(q: seq<Frame>): seq<Frame>
    decreases |q|
  {
    if q == [] then []
    else
      var (item, rest) := Absorb(q[0], q[1..]);
      AbsorbConserves(q[0], q[1..]);
      [item] + Drained(rest)
  }

  /** Left alone, the writer empties the queue and the device shows all of it. */
  lemma {:induction false} DrainShowsEverything(q: seq<Frame>)
    ensures Expand(Drained(q)) == Expand(q) && |Drained(q)| <= |q|
    decreases |q|
  {
    if q != [] {
      var (item, rest) := Absorb(q[0], q[1..]);
      AbsorbConserves(q[0], q[1..]);
      DrainShowsEverything(rest);
      ExpandAppend([item], Drained(rest));
      ExpandOne(item);
    }
  }

  /** One pop, wake and successful send of an idle writer do one step of draining. */
  lemma WriterCycleDrains(l: Link)
    requires l.writer.Waiting? && Queued(l) != []
    ensures var m := Send(Wake(Pop(l)), true);
            && m.writer.Waiting? && |Queued(m)| < |Queued(l)|
            && m.sent + Drained(Queued(m)) == l.sent + Drained(Queued(l))
  {
    hide Expand, Tokens, Absorb, Drained;
    var q := Queued(l);
    CycleSendsOne(l);
    DrainedStep(q);
    var (item, rest) := Absorb(q[0], q[1..]);
    AppendOne(l.sent, item, Drained(rest));
  }

  lemma CycleSendsOne(l: Link)
    requires l.writer.Waiting? && Queued(l) != []
    ensures var m := Send(Wake(Pop(l)), true);
            var (item, rest) := Absorb(Queued(l)[0], Queued(l)[1..]);
            m.writer.Waiting? && m.sent == l.sent + [item] && Queued(m) == rest && |rest| < |Queued(l)|
  {
    hide Expand, Tokens, Absorb;
    var f, rest := Queued(l)[0], Queued(l)[1..];
    AbsorbConserves(f, rest);
    AbsorbsDeltasOnly(f, rest);
  }

  lemma DrainedStep(q: seq<Frame>)
    requires q != []
    ensures var (item, rest) := Absorb(q[0], q[1..]); Drained(q) == [item] + Drained(rest)
  {
    hide Absorb, Expand, Tokens;
  }

  lemma AppendOne(a: seq<Frame>, x: Frame, b: seq<Frame>)
    ensures a + ([x] + b) == (a + [x]) + b
  {
  }

  lemma AbsorbsDeltasOnly(f: Frame, q: seq<Frame>)
    ensures !f.Delta? ==> Absorb(f, q) == (f, q)
  {
  }
}
