/**
 * The durable mobile queue (channels/mobile.py): a queue file and a sequence file, written
 * separately, either write of which may fail. Specification functions and the operations proved
 * against them; whole runs are in MobileQueueRuns.
 */
module MobileQueue {
  import opened Wrappers

  const QUEUE_MAX_ITEMS: nat := 500
  const QUEUE_MAX_AGE_SECONDS: real := 86400.0
  const POLL_MAX_ITEMS: int := 50

  /** The `seq` and `timestamp` fields of a stored item; anything but an integer or a number is absent. */
  datatype SeqField = Seq(n: int) | NoSeq
  datatype Stamp = At(time: real) | NoStamp

  /** A stored dictionary. `uid` stands for the item's identity; no operation reads it. */
  datatype Raw = Raw(number: SeqField, uid: nat, stamp: Stamp)

  datatype Entry = Dict(raw: Raw) | Junk
  datatype QueueFile = NoFile | BadFile | Entries(list: seq<Entry>)
  datatype SeqFile = Stored(n: int) | NoNumber

  /** An item of a loaded queue: it has a sequence number. */
  datatype Msg = Msg(number: nat, uid: nat, stamp: Stamp)

  datatype Store = Store(queueFile: QueueFile, seqFile: SeqFile)

  /** Which of the writes of one load succeed. */
  datatype LoadIo = LoadIo(seqWrite: bool, queueWrite: bool)

  predicate HasSeq(r: Raw) {
    r.number.Seq? && r.number.n >= 1
  }

  function Raws(list: seq<Entry>): (rs: seq<Raw>)
    ensures |rs| <= |list|
  {
    if list == [] then []
    else Raws(list[..|list| - 1]) + (if list[|list| - 1].Dict? then [list[|list| - 1].raw] else [])
  }

  function FileRaws(f: QueueFile): seq<Raw> {
    if f.Entries? then Raws(f.list) else []
  }

  function ToRaw(m: Msg): Raw {
    Raw(Seq(m.number), m.uid, m.stamp)
  }

  function ToFile(q: seq<Msg>): QueueFile {
    Entries(seq(|q|, i requires 0 <= i < |q| => Dict(ToRaw(q[i]))))
  }

  function ReadStored(f: SeqFile): (n: nat)
    ensures n >= 1
  {
    if f.Stored? && f.n > 0 then f.n else 1
  }

  function MaxSeq(rs: seq<Raw>): (n: nat)
    ensures forall r | r in rs && HasSeq(r) :: r.number.n <= n
  {
    if rs == [] then 0
    else
      var rest, r := MaxSeq(rs[..|rs| - 1]), rs[|rs| - 1];
      if HasSeq(r) && r.number.n > rest then r.number.n else rest
  }

  function NextSeq(f: SeqFile, rs: seq<Raw>): (n: nat)
    ensures n >= 1
  {
    if ReadStored(f) >= MaxSeq(rs) + 1 then ReadStored(f) else MaxSeq(rs) + 1
  }

  function Seqs(q: seq<Msg>): set<nat> {
    set m | m in q :: m.number
  }

  /** Numbers for a list read in order: a usable, unseen number is kept, otherwise the next one is taken. */
  function Assign(rs: seq<Raw>, next: nat): (seq<Msg>, nat) {
    if rs == [] then ([], next)
    else
      var (q, n) := Assign(rs[..|rs| - 1], next);
      var r := rs[|rs| - 1];
      if HasSeq(r) && r.number.n !in Seqs(q) then (q + [Msg(r.number.n, r.uid, r.stamp)], n)
      else (q + [Msg(n, r.uid, r.stamp)], n + 1)
  }

  function Insert(m: Msg, q: seq<Msg>): seq<Msg> {
    if q == [] || m.number < q[0].number then [m] + q else [q[0]] + Insert(m, q[1..])
  }

  /** `list.sort` by sequence number. */
  function Sort(q: seq<Msg>): seq<Msg> {
    if q == [] then [] else Insert(q[|q| - 1], Sort(q[..|q| - 1]))
  }

  function MaxOf(q: seq<Msg>): (n: nat)
    ensures forall m | m in q :: m.number <= n
    ensures q != [] ==> n in Seqs(q)
  {
    if q == [] then 0
    else
      var rest, m := MaxOf(q[..|q| - 1]), q[|q| - 1];
      assert q == q[..|q| - 1] + [m];
      if m.number > rest || |q| == 1 then m.number else rest
  }

  /** The sequence file after a load: rewritten when it lags behind or numbers were given out. */
  function RepairSeqFile(f: SeqFile, q: seq<Msg>, next: nat, changed: bool, ok: bool): SeqFile {
    var required := MaxOf(q) + 1;
    if (ReadStored(f) < required || changed) && ok
    then Stored(if next >= required then next else required)
    else f
  }

  function Keep(q: seq<Msg>, p: Msg -> bool): seq<Msg> {
    if q == [] then []
    else Keep(q[..|q| - 1], p) + (if p(q[|q| - 1]) then [q[|q| - 1]] else [])
  }

  function Last(q: seq<Msg>, n: nat): seq<Msg> {
    if |q| <= n then q else q[|q| - n..]
  }

  function Young(cutoff: real): Msg -> bool {
    (m: Msg) => m.stamp.NoStamp? || m.stamp.time >= cutoff
  }

  function Above(n: int): Msg -> bool {
    (m: Msg) => m.number > n
  }

  function Prune(q: seq<Msg>, now: real): seq<Msg> {
    Last(Keep(q, Young(now - QUEUE_MAX_AGE_SECONDS)), QUEUE_MAX_ITEMS)
  }

  /** A load: number, sort, repair both files where needed, drop what is too old or too much. */
  function Load(st: Store, now: real, io: LoadIo): (Store, seq<Msg>) {
    if st.queueFile.NoFile? then (st, [])
    else
      var rs := FileRaws(st.queueFile);
      var next := NextSeq(st.seqFile, rs);
      var (numbered, next') := Assign(rs, next);
      var q := Sort(numbered);
      var changed := next' > next;
      var seqFile := RepairSeqFile(st.seqFile, q, next', changed, io.seqWrite);
      var dropped := st.queueFile.Entries? && |rs| != |st.queueFile.list|;
      var pruned := Prune(q, now);
      var write := (changed || dropped || pruned != q) && io.queueWrite;
      (Store(if write then ToFile(pruned) else st.queueFile, seqFile), pruned)
  }

  /** The clock readings and write outcomes of one enqueue. */
  datatype EnqueueIo = EnqueueIo(load: LoadIo, seqWrite: bool, queueWrite: bool,
                                 loadedAt: real, stampedAt: real, prunedAt: real)

  datatype EnqueueResult = Queued(number: nat) | SeqWriteFailed | QueueWriteFailed(lost: nat)

  function Enqueue(st: Store, uid: nat, io: EnqueueIo): (Store, EnqueueResult) {
    var (st1, q) := Load(st, io.loadedAt, io.load);
    var number := NextSeq(st1.seqFile, FileRaws(ToFile(q)));
    if !io.seqWrite then (st1, SeqWriteFailed)
    else
      var st2 := st1.(seqFile := Stored(number + 1));
      if !io.queueWrite then (st2, QueueWriteFailed(number))
      else (st2.(queueFile := ToFile(Prune(q + [Msg(number, uid, At(io.stampedAt))], io.prunedAt))), Queued(number))
  }

  /** An acknowledgement; `None` is the error raised when the shorter queue cannot be stored. */
  function Ack(st: Store, upTo: int, now: real, io: LoadIo, write: bool): (Store, Option<nat>) {
    var (st1, q) := Load(st, now, io);
    var remaining := Keep(q, Above(upTo));
    if remaining == q then (st1, Some(|q|))
    else if !write then (st1, None)
    else (st1.(queueFile := ToFile(remaining)), Some(|remaining|))
  }

  function ClampLimit(limit: int): nat {
    if limit < 1 then 1 else if limit > POLL_MAX_ITEMS then POLL_MAX_ITEMS else limit
  }

  function First(q: seq<Msg>, n: nat): seq<Msg> {
    if |q| <= n then q else q[..n]
  }

  /** What a poll returns of a loaded queue; without a cursor the queue is read from its start. */
  function Page(q: seq<Msg>, after: Option<int>, limit: int): seq<Msg> {
    First(if after.None? then q else Keep(q, Above(after.value)), ClampLimit(limit))
  }

  /** One read of a poll. */
  function Poll(st: Store, after: Option<int>, limit: int, now: real, io: LoadIo): (Store, seq<Msg>) {
    var (st1, q) := Load(st, now, io);
    (st1, Page(q, after, limit))
  }

  // ---- The operations over the two files ----

  lemma FileRawsOfQueue(q: seq<Msg>)
    ensures FileRaws(ToFile(q)) == seq(|q|, i requires 0 <= i < |q| => ToRaw(q[i]))
  {
    RawsOfDicts(ToFile(q).list, q);
  }

  lemma {:induction false} RawsOfDicts(list: seq<Entry>, q: seq<Msg>)
    requires |list| == |q| && forall i | 0 <= i < |q| :: list[i] == Dict(ToRaw(q[i]))
    ensures Raws(list) == seq(|q|, i requires 0 <= i < |q| => ToRaw(q[i]))
  {
    if q != [] {
      RawsOfDicts(list[..|q| - 1], q[..|q| - 1]);
    }
  }

  class MobileQueueFiles {
    var queueFile: QueueFile
    var seqFile: SeqFile

    constructor (initial: Store)
      ensures State() == initial
    {
      queueFile, seqFile := initial.queueFile, initial.seqFile;
    }

    function State(): Store
      reads this
    {
      Store(queueFile, seqFile)
    }

    /** Give numbers to items without a usable one, and bring the sequence file up to date. */
    method EnsureSequences(rs: seq<Raw>, seqWrite: bool) returns (q: seq<Msg>, changed: bool)
      modifies this`seqFile
      ensures var next := NextSeq(old(seqFile), rs);
              var (numbered, next') := Assign(rs, next);
              && q == Sort(numbered)
              && changed == (next' > next)
              && seqFile == RepairSeqFile(old(seqFile), q, next', changed, seqWrite)
    {
      var start := NextSeq(seqFile, rs);
      var next := start;
      var seen: set<nat> := {};
      var i := 0;
      q := [];
      changed := false;
      while i < |rs|
        invariant 0 <= i <= |rs| && |q| == i
        invariant (q, next) == Assign(rs[..i], start)
        invariant seen == Seqs(q)
        invariant changed == (next > start) && next >= start
      {
        var r := rs[i];
        assert rs[..i + 1][..i] == rs[..i];
        ghost var before := q;
        if !HasSeq(r) || r.number.n in seen {
          q := q + [Msg(next, r.uid, r.stamp)];
          next := next + 1;
          changed := true;
        } else {
          q := q + [Msg(r.number.n, r.uid, r.stamp)];
        }
        seen := seen + {q[i].number};
        assert q == before + [q[i]];
        i := i + 1;
      }
      assert rs[..i] == rs;
      q := Sort(q);
      var required := MaxOf(q) + 1;
      if (ReadStored(seqFile) < required || changed) && seqWrite {
        seqFile := Stored(if next >= required then next else required);
      }
    }

    method LoadQueue(now: real, io: LoadIo) returns (q: seq<Msg>)
      modifies this
      ensures (State(), q) == Load(old(State()), now, io)
    {
      if queueFile.NoFile? {
        return [];
      }
      var rs := FileRaws(queueFile);
      var numbered, changed := EnsureSequences(rs, io.seqWrite);
      if queueFile.Entries? && |rs| != |queueFile.list| {
        changed := true;
      }
      q := Prune(numbered, now);
      if (changed || q != numbered) && io.queueWrite {
        queueFile := ToFile(q);
      }
    }

    /** Persist the number first, then the queue: a number is never reused even if the queue write fails. */
    method WriteToQueue(uid: nat, io: EnqueueIo) returns (result: EnqueueResult)
      modifies this
      ensures (State(), result) == Enqueue(old(State()), uid, io)
    {
      hide Load, NextSeq, Prune;
      var q := LoadQueue(io.loadedAt, io.load);
      var number := NextSeq(seqFile, FileRaws(ToFile(q)));
      if !io.seqWrite {
        return SeqWriteFailed;
      }
      seqFile := Stored(number + 1);
      q := Prune(q + [Msg(number, uid, At(io.stampedAt))], io.prunedAt);
      if !io.queueWrite {
        return QueueWriteFailed(number);
      }
      queueFile := ToFile(q);
      result := Queued(number);
    }

    method Acknowledge(upTo: int, now: real, io: LoadIo, write: bool) returns (left: Option<nat>)
      modifies this
      ensures (State(), left) == Ack(old(State()), upTo, now, io, write)
    {
      var q := LoadQueue(now, io);
      var remaining := Keep(q, Above(upTo));
      if remaining != q {
        if !write {
          return None;
        }
        queueFile := ToFile(remaining);
      }
      left := Some(|remaining|);
    }

    method ReadFromQueue(after: Option<int>, limit: int, now: real, io: LoadIo) returns (items: seq<Msg>)
      modifies this
      ensures (State(), items) == Poll(old(State()), after, limit, now, io)
    {
      var q := LoadQueue(now, io);
      if after.None? {
        items := First(q, ClampLimit(limit));
      } else {
        items := First(Keep(q, Above(after.value)), ClampLimit(limit));
      }
    }
  }
}
