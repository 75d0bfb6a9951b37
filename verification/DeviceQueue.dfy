/**
 * The outbound queue of the device channel (channels/device_ws.py): producers enqueue without
 * waiting and merge into the tail when the queue is full; one writer pops, waits, merges and sends.
 * Every stretch between two awaits is one atomic step. The steps are proved about in DeviceQueueRuns
 * and carried out by the class in DeviceOutboxes.
 */
module DeviceQueue {
  import opened Wrappers

  const OUT_QUEUE_MAXSIZE: nat := 64
  const DELTA_AGG_BYTES: nat := 512

  /** A stream delta of one message, or any other frame. */
  datatype Frame = Delta(msgId: Option<string>, text: string, ts: Option<real>) | Other(payload: string)

  /** Where the writer is: waiting for a frame, in its pause before merging, sending, or ended with frames lost. */
  datatype Writer = Waiting | Pausing(item: Frame) | Sending(item: Frame) | Ended(lost: seq<Frame>)

  /** One connection; `accepted` and `sent` are its history. */
  datatype Link = Link(queue: Option<seq<Frame>>, writer: Writer, accepted: seq<Frame>, sent: seq<Frame>)

  function Utf8Length(c: char): nat {
    var n := c as int;
    if n < 0x80 then 1 else if n < 0x800 then 2 else if n < 0x1_0000 then 3 else 4
  }

  function Utf8Size(s: string): nat {
    if s == "" then 0 else Utf8Size(s[..|s| - 1]) + Utf8Length(s[|s| - 1])
  }

  predicate SameMessage(a: Frame, b: Frame) {
    a.Delta? && b.Delta? && a.msgId == b.msgId
  }

  function Joined(a: Frame, b: Frame): Frame
    requires SameMessage(a, b)
  {
    Delta(a.msgId, a.text + b.text, if b.ts.Some? then b.ts else a.ts)
  }

  /** The writer's merge loop. */
  function Absorb(item: Frame, queue: seq<Frame>): (Frame, seq<Frame>)
    decreases |queue|
  {
    if queue != [] && SameMessage(item, queue[0]) && Utf8Size(item.text) < DELTA_AGG_BYTES
    then Absorb(Joined(item, queue[0]), queue[1..])
    else (item, queue)
  }

  function Enqueue(l: Link, f: Frame): (Link, bool) {
    match l.queue
    case None => (l, false)
    case Some(q) =>
      if |q| < OUT_QUEUE_MAXSIZE then (l.(queue := Some(q + [f]), accepted := l.accepted + [f]), true)
      else if SameMessage(q[|q| - 1], f) then
        (l.(queue := Some(q[|q| - 1 := Joined(q[|q| - 1], f)]), accepted := l.accepted + [f]), true)
      else (l, false)
  }

  function Pop(l: Link): Link {
    if l.writer.Waiting? && l.queue.Some? && l.queue.value != [] then
      var f := l.queue.value[0];
      l.(queue := Some(l.queue.value[1..]), writer := if f.Delta? then Pausing(f) else Sending(f))
    else l
  }

  function Wake(l: Link): Link {
    if l.writer.Pausing? && l.queue.Some? then
      var (item, rest) := Absorb(l.writer.item, l.queue.value);
      l.(queue := Some(rest), writer := Sending(item))
    else l
  }

  function Send(l: Link, ok: bool): Link {
    if !l.writer.Sending? then l
    else if ok then l.(writer := Waiting, sent := l.sent + [l.writer.item])
    else l.(writer := Ended([l.writer.item]))
  }

  /** The frame the writer holds. */
  function InHand(w: Writer): seq<Frame> {
    match w
    case Waiting => []
    case Pausing(f) => [f]
    case Sending(f) => [f]
    case Ended(lost) => lost
  }

  function Queued(l: Link): seq<Frame> {
    if l.queue.Some? then l.queue.value else []
  }

  /** The connection ends: the writer is cancelled and the queue dropped. */
  function Disconnect(l: Link): Link {
    l.(queue := None, writer := Ended(InHand(l.writer) + Queued(l)))
  }

  /** A new connection: a new queue, a new writer, and a new history. */
  function Connect(): Link {
    Link(Some([]), Waiting, [], [])
  }
}
