/**
 * The outbound queue as channels/device_ws.py keeps it: fields updated in place, one method for each
 * stretch between two awaits.
 */
module DeviceOutboxes {
  import opened Wrappers
  import opened DeviceQueue
  import opened DeviceQueueRuns

  class DeviceOutbox {
    var queue: Option<seq<Frame>>
    var writer: Writer
    ghost var accepted: seq<Frame>
    ghost var sent: seq<Frame>

    /** What was sent, is in hand or lost, and is queued shows what was accepted; the queue is bounded. */
    ghost predicate Valid()
      reads this
    {
      Safe(State())
    }

    ghost function State(): Link
      reads this
    {
      Link(queue, writer, accepted, sent)
    }

    /** What the device has been shown. */
    ghost function Shown(): seq<Token>
      reads this
    {
      Expand(sent)
    }

    /** What was accepted and not shown: in hand and queued, or lost once the writer has ended. */
    ghost function Pending(): seq<Token>
      reads this
    {
      Expand(InHand(writer)) + Expand(Queued(State()))
    }

    constructor ()
      ensures Valid() && queue == None && Shown() == [] && Pending() == []
    {
      queue, writer, accepted, sent := None, Ended([]), [], [];
    }

    /** A new connection starts with nothing shown or pending. */
    method HandleConnection()
      modifies this
      ensures Valid() && queue == Some([]) && writer == Waiting && Shown() == [] && Pending() == []
      ensures accepted == []
    {
      queue, writer, accepted, sent := Some([]), Waiting, [], [];
    }

    /** A disconnect ends queue and writer: exactly what was pending is lost. */
    method HandleDisconnect()
      requires Valid()
      modifies this
      ensures Valid() && Shown() == old(Shown()) && Pending() == old(Pending()) && accepted == old(accepted)
      ensures queue.None? && writer.Ended?
    {
      DisconnectIsSafe(State());
      ExpandAppend(InHand(writer), Queued(State()));
      writer := Ended(InHand(writer) + if queue.Some? then queue.value else []);
      queue := None;
    }

    /**
     * An accepted frame is pending behind everything else; a refused one changes nothing. Refused is
     * exactly what meets no connection, or a full queue whose tail is not a delta of the same message.
     */
    method EnqueueJson(f: Frame) returns (ok: bool)
      requires Valid()
      modifies this
      ensures Valid() && (State(), ok) == Enqueue(old(State()), f)
      ensures Shown() == old(Shown()) && writer == old(writer)
      ensures Pending() == old(Pending()) + (if ok then Tokens(f) else [])
      ensures ok <==> old(queue).Some? && var q := old(queue).value; |q| < 64 || (q[|q| - 1].Delta? && f.Delta? && q[|q| - 1].msgId == f.msgId)
    {
      hide Safe, Expand, Tokens;
      PushIsSafe(State(), f);
      PushShows(State(), f);
      if queue.None? {
        return false;
      }
      var q := queue.value;
      if |q| < OUT_QUEUE_MAXSIZE {
        queue, accepted := Some(q + [f]), accepted + [f];
        return true;
      }
      var last := q[|q| - 1];
      if SameMessage(last, f) {
        queue := Some(q[|q| - 1 := last.(text := last.text + f.text, ts := if f.ts.Some? then f.ts else last.ts)]);
        accepted := accepted + [f];
        return true;
      }
      ok := false;
    }

    /** The first queued frame goes into the writer's hand; what is pending stays the same. */
    method WriterPop()
      requires Valid()
      modifies this`queue, this`writer
      ensures Valid() && State() == Pop(old(State()))
      ensures Pending() == old(Pending())
      ensures old(writer).Waiting? && Queued(old(State())) != [] ==>
                InHand(writer) + Queued(State()) == Queued(old(State())) && InHand(writer) != []
    {
      WriterIsSafe(State(), PopEvent);
      WriterShows(State(), PopEvent);
      if writer.Waiting? && queue.Some? && queue.value != [] {
        var item := queue.value[0];
        queue := Some(queue.value[1..]);
        writer := if item.Delta? then Pausing(item) else Sending(item);
      }
    }

    /** After its pause the writer merges deltas of its message into the frame in hand. */
    method WriterWake()
      requires Valid()
      modifies this`queue, this`writer
      ensures Valid() && State() == Wake(old(State()))
      ensures Pending() == old(Pending())
    {
      WriterIsSafe(State(), WakeEvent);
      WriterShows(State(), WakeEvent);
      if writer.Pausing? && queue.Some? {
        var item, q := writer.item, queue.value;
        while q != [] && SameMessage(item, q[0]) && Utf8Size(item.text) < DELTA_AGG_BYTES
          invariant Absorb(item, q) == Absorb(writer.item, queue.value)
          decreases |q|
        {
          item, q := Joined(item, q[0]), q[1..];
        }
        queue, writer := Some(q), Sending(item);
      }
    }

    /**
     * A successful send shows what was in hand, and nothing else changes for the device; a failed one
     * shows nothing and ends the writer.
     */
    method WriterSend(ok: bool)
      requires Valid()
      modifies this`writer, this`sent
      ensures Valid() && State() == Send(old(State()), ok)
      ensures Shown() + Pending() == old(Shown() + Pending())
      ensures old(writer).Sending? && ok ==> Shown() == old(Shown()) + Tokens(old(writer).item) && writer.Waiting?
      ensures old(writer).Sending? && !ok ==> Shown() == old(Shown()) && writer.Ended?
    {
      WriterIsSafe(State(), SendEvent(ok));
      WriterShows(State(), SendEvent(ok));
      if writer.Sending? {
        if ok {
          sent, writer := sent + [writer.item], Waiting;
        } else {
          writer := Ended([writer.item]);
        }
      }
    }
  }

  ghost function PendingOf(l: Link): seq<Token> {
    Expand(InHand(l.writer)) + Expand(Queued(l))
  }

  lemma PushShows(l: Link, f: Frame)
    requires Safe(l)
    ensures var (m, ok) := Enqueue(l, f);
            PendingOf(m) == PendingOf(l) + (if ok then Tokens(f) else [])
  {
    hide Expand, Tokens;
    var q, m := Queued(l), Enqueue(l, f).0;
    if l.queue.Some? && |q| < OUT_QUEUE_MAXSIZE {
      ExpandAppend(q, [f]);
      ExpandOne(f);
    } else if l.queue.Some? && SameMessage(q[|q| - 1], f) {
      var last := q[|q| - 1];
      assert q == q[..|q| - 1] + [last] && Queued(m) == q[..|q| - 1] + [Joined(last, f)];
      ExpandAppend(q[..|q| - 1], [last]);
      ExpandAppend(q[..|q| - 1], [Joined(last, f)]);
      ExpandOne(last);
      ExpandOne(Joined(last, f));
      JoinedTokens(last, f);
    }
  }

  /** The writer's steps move tokens from pending to shown, in order, and change nothing else. */
  lemma WriterShows(l: Link, e: Event)
    requires e.PopEvent? || e.WakeEvent? || e.SendEvent?
    ensures var m := Step(l, e);
            && Expand(m.sent) + PendingOf(m) == Expand(l.sent) + PendingOf(l)
            && (!e.SendEvent? ==> PendingOf(m) == PendingOf(l))
            && (e.SendEvent? && l.writer.Sending? && e.ok ==> Expand(m.sent) == Expand(l.sent) + Tokens(l.writer.item))
  {
    hide Expand, Tokens, Absorb;
    EmptyExpands();
    match e
    case PopEvent =>
      if l.writer.Waiting? && Queued(l) != [] {
        var f, rest := Queued(l)[0], Queued(l)[1..];
        assert Queued(l) == [f] + rest;
        ExpandAppend([f], rest);
      }
    case WakeEvent =>
      if l.writer.Pausing? && l.queue.Some? {
        AbsorbConserves(l.writer.item, Queued(l));
        ExpandOne(l.writer.item);
        ExpandOne(Step(l, e).writer.item);
      }
    case SendEvent(ok) =>
      if l.writer.Sending? {
        ExpandAppend(l.sent, [l.writer.item]);
        ExpandOne(l.writer.item);
      }
  }
}
