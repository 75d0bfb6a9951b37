/**
 * Whole runs of the durable mobile queue (channels/mobile.py): no sequence number is ever given to
 * two items, the stored counter never goes back, and a polling client misses nothing silently.
 */
module MobileQueueRuns {
  import opened Wrappers
  import opened MobileQueue

  ghost predicate Increasing(q: seq<Msg>) {
    forall i, j | 0 <= i < j < |q| :: q[i].number < q[j].number
  }

  ghost predicate Distinct(q: seq<Msg>) {
    forall i, j | 0 <= i < j < |q| :: q[i].number != q[j].number
  }

  type Naming = set<(nat, nat)>

  /** Which item each number names in a loaded queue. */
  ghost function Names(q: seq<Msg>): Naming {
    set m | m in q :: (m.number, m.uid)
  }

  /** `rs[i]` is the first item that carries its number. */
  ghost predicate FirstHolder(rs: seq<Raw>, i: nat)
    requires i < |rs|
  {
    HasSeq(rs[i]) && forall j | 0 <= j < i :: HasSeq(rs[j]) ==> rs[j].number != rs[i].number
  }

  /** The names a stored list already settles. */
  ghost function Settled(rs: seq<Raw>): Naming {
    set i | 0 <= i < |rs| && FirstHolder(rs, i) :: (rs[i].number.n, rs[i].uid)
  }

  ghost predicate Functional(names: Naming) {
    forall a, b | a in names && b in names && a.0 == b.0 :: a == b
  }

  // ---- Numbering and sorting ----

  /** Numbers below `next` were settled before; numbers from `next` up to `n` are new. */
  ghost predicate Assigned(settled: Naming, q: seq<Msg>, next: nat, n: nat) {
    && next <= n && Distinct(q)
    && (forall m | m in q :: m.number < n)
    && (forall m | m in q && m.number < next :: (m.number, m.uid) in settled)
    && settled <= Names(q)
  }

  lemma NamesGrow(q: seq<Msg>, m: Msg)
    ensures Names(q + [m]) == Names(q) + {(m.number, m.uid)}
    ensures forall x :: x in q + [m] <==> x in q || x == m
    ensures Distinct(q) && m.number !in Seqs(q) ==> Distinct(q + [m])
  {
    assert forall i | 0 <= i < |q| :: q[i] in q && q[i].number in Seqs(q);
  }

  lemma KeptNumber(settled: Naming, q: seq<Msg>, next: nat, n: nat, m: Msg)
    requires Assigned(settled, q, next, n) && m.number < next && m.number !in Seqs(q)
    ensures Assigned(settled + {(m.number, m.uid)}, q + [m], next, n)
  {
    NamesGrow(q, m);
    hide Names, Distinct;
  }

  lemma NewNumber(settled: Naming, q: seq<Msg>, next: nat, n: nat, m: Msg)
    requires Assigned(settled, q, next, n) && m.number == n
    ensures Assigned(settled, q + [m], next, n + 1)
  {
    NamesGrow(q, m);
    hide Names, Distinct;
  }

  lemma {:induction false} AssignNames(rs: seq<Raw>, next: nat)
    requires forall r | r in rs && HasSeq(r) :: r.number.n < next
    ensures var (q, n) := Assign(rs, next);
            |q| == |rs| && Assigned(Settled(rs), q, next, n)
  {
    hide FirstHolder;
    assert rs == [] ==> Settled(rs) == {};
    if rs != [] {
      var front, r := rs[..|rs| - 1], rs[|rs| - 1];
      assert forall x | x in front :: x in rs;
      AssignNames(front, next);
      hide Settled, Assigned;
      var (q, n) := Assign(front, next);
      SettledGrows(rs);
      if HasSeq(r) {
        FirstHolderIffUnseen(rs, next, q, n);
      } else {
        NotAHolder(rs);
      }
      if HasSeq(r) && r.number.n !in Seqs(q) {
        KeptNumber(Settled(front), q, next, n, Msg(r.number.n, r.uid, r.stamp));
      } else {
        NewNumber(Settled(front), q, next, n, Msg(n, r.uid, r.stamp));
        assert Settled(rs) == Settled(front);
      }
    }
  }

  lemma NotAHolder(rs: seq<Raw>)
    requires rs != [] && !HasSeq(rs[|rs| - 1])
    ensures !FirstHolder(rs, |rs| - 1)
  {
  }

  lemma FirstHolderIffUnseen(rs: seq<Raw>, next: nat, q: seq<Msg>, n: nat)
    requires rs != [] && HasSeq(rs[|rs| - 1]) && rs[|rs| - 1].number.n < next
    requires Assigned(Settled(rs[..|rs| - 1]), q, next, n)
    ensures FirstHolder(rs, |rs| - 1) <==> rs[|rs| - 1].number.n !in Seqs(q)
  {
    var front, r := rs[..|rs| - 1], rs[|rs| - 1];
    if r.number.n in Seqs(q) {
      var m :| m in q && m.number == r.number.n;
      assert (m.number, m.uid) in Settled(front);
    }
    if j :| 0 <= j < |front| && HasSeq(front[j]) && front[j].number == r.number {
      HolderIsSettled(front, j);
    }
  }

  /** Some first holder settles every number present. */
  lemma {:induction false} HolderIsSettled(rs: seq<Raw>, j: nat)
    requires j < |rs| && HasSeq(rs[j])
    ensures exists p :: p in Settled(rs) && p.0 == rs[j].number.n
  {
    if i :| 0 <= i < j && HasSeq(rs[i]) && rs[i].number == rs[j].number {
      HolderIsSettled(rs, i);
    } else {
      assert FirstHolder(rs, j);
      assert (rs[j].number.n, rs[j].uid) in Settled(rs);
    }
  }

  lemma SettledGrows(rs: seq<Raw>)
    requires rs != []
    ensures var n := |rs| - 1;
            Settled(rs) == Settled(rs[..n]) +
            (if FirstHolder(rs, n) then {(rs[n].number.n, rs[n].uid)} else {})
  {
    var n := |rs| - 1;
    forall i | 0 <= i < n
      ensures FirstHolder(rs, i) <==> FirstHolder(rs[..n], i)
    {
    }
    forall i | 0 <= i < n && FirstHolder(rs, i)
      ensures (rs[i].number.n, rs[i].uid) in Settled(rs[..n])
    {
      assert FirstHolder(rs[..n], i) && rs[..n][i] == rs[i];
    }
    forall i | 0 <= i < n && FirstHolder(rs[..n], i)
      ensures (rs[i].number.n, rs[i].uid) in Settled(rs)
    {
      assert FirstHolder(rs, i);
    }
  }

  lemma SettledIsFunctional(rs: seq<Raw>)
    ensures Functional(Settled(rs))
  {
  }

  lemma {:induction false} InsertMembers(m: Msg, q: seq<Msg>)
    ensures forall x :: x in Insert(m, q) <==> x == m || x in q
  {
    if q != [] && m.number >= q[0].number {
      assert q == [q[0]] + q[1..];
      InsertMembers(m, q[1..]);
    }
  }

  lemma PrependKeepsOrder(m: Msg, q: seq<Msg>)
    requires Increasing(q) && forall x | x in q :: m.number < x.number
    ensures Increasing([m] + q)
  {
    assert forall i | 0 <= i < |q| :: q[i] in q;
  }

  lemma HeadIsLeast(q: seq<Msg>)
    requires Increasing(q) && q != []
    ensures Increasing(q[1..]) && (forall x | x in q[1..] :: q[0].number < x.number)
    ensures forall x :: x in q <==> x == q[0] || x in q[1..]
  {
    assert q == [q[0]] + q[1..];
  }

  lemma {:induction false} InsertKeepsOrder(m: Msg, q: seq<Msg>)
    requires Increasing(q) && m.number !in Seqs(q)
    ensures Increasing(Insert(m, q))
  {
    if q != [] {
      HeadIsLeast(q);
      hide Increasing;
      if m.number < q[0].number {
        PrependKeepsOrder(m, q);
      } else {
        assert q[0].number in Seqs(q) && m.number !in Seqs(q[1..]);
        InsertKeepsOrder(m, q[1..]);
        InsertMembers(m, q[1..]);
        PrependKeepsOrder(q[0], Insert(m, q[1..]));
      }
    }
  }

  lemma {:induction false} SortFacts(q: seq<Msg>)
    requires Distinct(q)
    ensures Increasing(Sort(q))
    ensures forall x :: x in Sort(q) <==> x in q
  {
    if q != [] {
      var front, m := q[..|q| - 1], q[|q| - 1];
      SortFacts(front);
      assert forall x :: x in q <==> x in front || x == m;
      InsertKeepsOrder(m, Sort(front));
      InsertMembers(m, Sort(front));
    }
  }

  lemma {:induction false} KeepFacts(q: seq<Msg>, p: Msg -> bool)
    ensures Increasing(q) ==> Increasing(Keep(q, p))
    ensures forall m :: m in Keep(q, p) <==> m in q && p(m)
  {
    if q != [] {
      var front, m := q[..|q| - 1], q[|q| - 1];
      KeepFacts(front, p);
      assert forall x :: x in q <==> x in front || x == m;
      assert Increasing(q) ==> forall x | x in front :: x.number < m.number;
    }
  }

  lemma PruneFacts(q: seq<Msg>, now: real)
    ensures Increasing(q) ==> Increasing(Prune(q, now))
    ensures forall m | m in Prune(q, now) :: m in q
    ensures |Prune(q, now)| <= 500
  {
    KeepFacts(q, Young(now - QUEUE_MAX_AGE_SECONDS));
  }

  lemma {:induction false} SetOfIncreasing(q: seq<Msg>)
    requires Increasing(q)
    ensures |set x | x in q| == |q|
  {
    if q != [] {
      var front, m := q[..|q| - 1], q[|q| - 1];
      SetOfIncreasing(front);
      assert forall x :: x in q <==> x in front || x == m;
      assert (set x | x in q) == (set x | x in front) + {m};
    }
  }

  /** Not past the age limit at `now`; an item without a usable timestamp never is. */
  ghost predicate Unaged(m: Msg, now: real) {
    m.stamp.NoStamp? || now - m.stamp.time <= 86400.0
  }

  /** The items a prune at `now` counts against `m`: young enough, and numbered above it. */
  ghost function Newer(q: seq<Msg>, now: real, m: Msg): set<Msg> {
    set x | x in q && Unaged(x, now) && x.number > m.number
  }

  lemma YoungIsUnaged(now: real)
    ensures forall m: Msg :: Young(now - QUEUE_MAX_AGE_SECONDS)(m) <==> Unaged(m, now)
  {
  }

  lemma LastKeeps(kept: seq<Msg>, i: nat, n: nat)
    requires Increasing(kept) && i < |kept|
    ensures kept[i] in Last(kept, n) <==> |kept| - i <= n
  {
    var from := if |kept| <= n then 0 else |kept| - n;
    assert Last(kept, n) == kept[from..];
    if i >= from {
      assert kept[from..][i - from] == kept[i];
    }
  }

  /** A prune drops exactly the items past the age limit and those with enough newer items behind them. */
  lemma PruneKeepsExactly(q: seq<Msg>, now: real, m: Msg)
    requires Increasing(q) && m in q
    ensures m in Prune(q, now) <==>
            Unaged(m, now) && |Newer(q, now, m)| < 500
  {
    YoungIsUnaged(now);
    hide Keep, Last, Young, Unaged;
    var young := Young(now - QUEUE_MAX_AGE_SECONDS);
    var kept := Keep(q, young);
    KeepFacts(q, young);
    if young(m) {
      var i :| 0 <= i < |kept| && kept[i] == m;
      var later := kept[i + 1..];
      SetOfIncreasing(later);
      forall x
        ensures x in later <==> x in Newer(q, now, m)
      {
        if x in kept && x.number > m.number {
          var j :| 0 <= j < |kept| && kept[j] == x;
          assert j > i && later[j - i - 1] == x;
        }
        if x in later {
          assert x in kept;
        }
      }
      assert (set x | x in later) == Newer(q, now, m);
      LastKeeps(kept, i, QUEUE_MAX_ITEMS);
    } else {
      PruneFacts(q, now);
      LastIsPart(kept, QUEUE_MAX_ITEMS);
    }
  }

  lemma LastIsPart(kept: seq<Msg>, n: nat)
    ensures forall x | x in Last(kept, n) :: x in kept
  {
  }

  /** An item stamped within the age limit of its own prune survives it, in last place. */
  lemma NewItemSurvivesItsPrune(q: seq<Msg>, m: Msg, prunedAt: real)
    requires m.stamp.At? && prunedAt - m.stamp.time <= 86400.0
    ensures var kept := Prune(q + [m], prunedAt); kept != [] && kept[|kept| - 1] == m
  {
    assert (q + [m])[..|q|] == q;
  }

  lemma {:induction false} FilePairsOfQueue(q: seq<Msg>)
    requires Increasing(q) && forall m | m in q :: m.number >= 1
    ensures Settled(FileRaws(ToFile(q))) == Names(q)
  {
    FileRawsOfQueue(q);
    var rs := FileRaws(ToFile(q));
    forall i | 0 <= i < |q|
      ensures FirstHolder(rs, i) && (rs[i].number.n, rs[i].uid) == (q[i].number, q[i].uid)
    {
      assert rs[i] == ToRaw(q[i]);
    }
    forall m | m in q
      ensures (m.number, m.uid) in Settled(rs)
    {
      var i :| 0 <= i < |q| && q[i] == m;
      assert FirstHolder(rs, i);
    }
  }

  // ---- One load ----

  /** The numbered and sorted queue of a load, before anything is dropped. */
  function Numbered(st: Store): seq<Msg> {
    if st.queueFile.NoFile? then []
    else
      var rs := FileRaws(st.queueFile);
      Sort(Assign(rs, NextSeq(st.seqFile, rs)).0)
  }

  lemma {:induction false} NumbersArePositive(rs: seq<Raw>, next: nat)
    requires next >= 1
    ensures forall m | m in Assign(rs, next).0 :: m.number >= 1
    ensures Assign(rs, next).1 >= 1
  {
    if rs != [] {
      NumbersArePositive(rs[..|rs| - 1], next);
    }
  }

  /** Numbers already settled keep their items, the rest are fresh, and no two items share one. */
  lemma NumberedFacts(st: Store)
    ensures var q := Numbered(st);
            && Increasing(q)
            && (forall m | m in q :: m.number >= 1)
            && (!st.queueFile.NoFile? ==> Settled(FileRaws(st.queueFile)) <= Names(q))
            && (forall m | m in q && m.number < ReadStored(st.seqFile) ::
                  (m.number, m.uid) in Settled(FileRaws(st.queueFile)))
  {
    if !st.queueFile.NoFile? {
      var rs := FileRaws(st.queueFile);
      var next := NextSeq(st.seqFile, rs);
      AssignNames(rs, next);
      NumbersArePositive(rs, next);
      SortFacts(Assign(rs, next).0);
    }
  }

  /** A load never lowers the counter; when its repair write succeeds the counter passes every number. */
  lemma LoadCounter(st: Store, now: real, io: LoadIo)
    ensures ReadStored(Load(st, now, io).0.seqFile) >= ReadStored(st.seqFile)
    ensures io.seqWrite ==> forall m | m in Numbered(st) :: m.number < ReadStored(Load(st, now, io).0.seqFile)
  {
    if !st.queueFile.NoFile? {
      var rs := FileRaws(st.queueFile);
      AssignNames(rs, NextSeq(st.seqFile, rs));
    }
  }

  lemma LoadShape(st: Store, now: real, io: LoadIo)
    ensures var (st', q) := Load(st, now, io);
            && (!st.queueFile.NoFile? ==> q == Prune(Numbered(st), now))
            && (st.queueFile.NoFile? ==> q == [])
            && (st'.queueFile == st.queueFile || st'.queueFile == ToFile(q))
  {
    hide Prune, Sort, Assign, FileRaws, ToFile, NextSeq, RepairSeqFile;
  }

  /** In an increasing queue a number names one item. */
  lemma NumberNamesOne(q: seq<Msg>, x: Msg, y: Msg)
    requires Increasing(q) && x in q && y in q && x.number == y.number
    ensures x == y
  {
  }

  /** A name that leaves the queue takes its number with it. */
  lemma DroppedNames(whole: seq<Msg>, kept: seq<Msg>, names: Naming)
    requires Increasing(whole) && (forall m | m in kept :: m in whole) && names <= Names(whole)
    ensures forall p | p in names :: p in Names(kept) || p.0 in Seqs(whole) - Seqs(kept)
  {
    forall p | p in names && p !in Names(kept)
      ensures p.0 in Seqs(whole) - Seqs(kept)
    {
      var m :| m in whole && (m.number, m.uid) == p;
      if x :| x in kept && x.number == m.number {
        NumberNamesOne(whole, x, m);
      }
    }
  }

  /** What a load returns, and which names its queue file settles afterwards. */
  lemma LoadFacts(st: Store, now: real, io: LoadIo)
    ensures var (st', q) := Load(st, now, io);
            && Increasing(q)
            && (forall m | m in q :: m in Numbered(st))
            && Settled(FileRaws(st'.queueFile)) <= Names(Numbered(st))
            && (forall p | p in Settled(FileRaws(st.queueFile)) ::
                  p in Settled(FileRaws(st'.queueFile)) || p.0 in Seqs(Numbered(st)) - Seqs(q))
  {
    hide Load, Prune, Settled, ToFile, Numbered;
    var (st', q) := Load(st, now, io);
    LoadShape(st, now, io);
    NumberedFacts(st);
    PruneFacts(Numbered(st), now);
    if st.queueFile.NoFile? {
      NothingSettled();
      EmptyQueueSettlesNothing();
    } else if st'.queueFile != st.queueFile {
      FilePairsOfQueue(q);
      DroppedNames(Numbered(st), q, Settled(FileRaws(st.queueFile)));
    }
  }

  lemma NothingSettled()
    ensures Settled([]) == {}
  {
  }

  lemma EmptyQueueSettlesNothing()
    ensures Settled(FileRaws(ToFile([]))) == {}
  {
    FilePairsOfQueue([]);
  }

  // ---- Runs ----

  /**
   * The two files with their history: every (number, item) pair ever held in memory, the numbers of
   * items whose enqueue succeeded, the numbers dropped by age, count or acknowledgement, and one
   * client that first polls without a cursor and then always with the last number it received.
   */
  datatype Sys = Sys(store: Store, given: Naming, queued: set<nat>, dropped: set<nat>,
                     cursor: Option<nat>, delivered: seq<Msg>)

  datatype Event =
    | EnqueueEvent(uid: nat, eio: EnqueueIo)
    | AckEvent(upTo: int, ackedAt: real, aio: LoadIo, ackWrite: bool)
    | PollEvent(limit: int, polledAt: real, pio: LoadIo)
    | OtherPollEvent(after: Option<int>, limit: int, polledAt: real, pio: LoadIo)

  /** The load that starts an event: its clock and its writes. */
  function LoadOf(e: Event): (real, LoadIo) {
    match e
    case EnqueueEvent(_, io) => (io.loadedAt, io.load)
    case AckEvent(_, now, io, _) => (now, io)
    case PollEvent(_, now, io) => (now, io)
    case OtherPollEvent(_, _, now, io) => (now, io)
  }

  /** The counter is already past every number the load would settle or give out. */
  ghost predicate CounterAhead(st: Store) {
    forall m | m in Numbered(st) :: m.number < ReadStored(st.seqFile)
  }

  /** The number an enqueue gives its item. */
  function EnqueueNumber(st: Store, io: EnqueueIo): nat {
    var (st1, q) := Load(st, io.loadedAt, io.load);
    NextSeq(st1.seqFile, FileRaws(ToFile(q)))
  }

  /** The number of the new item is above every number the load settles or gives out to another item. */
  ghost predicate Outnumbers(st: Store, uid: nat, io: EnqueueIo) {
    var n := EnqueueNumber(st, io);
    forall m | m in Numbered(st) :: m.number < n || (m.number, m.uid) == (n, uid)
  }

  /**
   * The event leaves the counter past every number: its load needs no repair of the sequence file, or
   * the repair is written, or it is an enqueue whose own counter write makes up for it.
   */
  ghost predicate KeepsCounter(st: Store, e: Event) {
    || LoadOf(e).1.seqWrite || CounterAhead(st)
    || (e.EnqueueEvent? && e.eio.seqWrite && Outnumbers(st, e.uid, e.eio))
  }

  /** The load every event starts with, recorded in the history. */
  ghost function Loaded(s: Sys, now: real, io: LoadIo): Sys {
    var (st, q) := Load(s.store, now, io);
    s.(store := st, given := s.given + Names(Numbered(s.store)), dropped := s.dropped + (Seqs(Numbered(s.store)) - Seqs(q)))
  }

  function After(cursor: Option<nat>): Option<int> {
    if cursor.Some? then Some(cursor.value) else None
  }

  ghost function Step(s: Sys, e: Event): Sys {
    match e
    case EnqueueEvent(uid, io) =>
      var q := Load(s.store, io.loadedAt, io.load).1;
      var s1 := Loaded(s, io.loadedAt, io.load);
      var (st, result) := Enqueue(s.store, uid, io);
      (match result
       case SeqWriteFailed => s1.(store := st)
       case QueueWriteFailed(n) => s1.(store := st, given := s1.given + {(n, uid)})
       case Queued(n) =>
         var whole := q + [Msg(n, uid, At(io.stampedAt))];
         s1.(store := st, given := s1.given + {(n, uid)}, queued := s1.queued + {n},
             dropped := s1.dropped + (Seqs(whole) - Seqs(Prune(whole, io.prunedAt)))))
    case AckEvent(upTo, now, io, write) =>
      var q := Load(s.store, now, io).1;
      var s1 := Loaded(s, now, io);
      var (st, left) := Ack(s.store, upTo, now, io, write);
      s1.(store := st, dropped := if left.Some? then s1.dropped + (Seqs(q) - Seqs(Keep(q, Above(upTo)))) else s1.dropped)
    case PollEvent(limit, now, io) =>
      var s1 := Loaded(s, now, io);
      var (st, items) := Poll(s.store, After(s.cursor), limit, now, io);
      s1.(store := st, delivered := s1.delivered + items,
          cursor := if items == [] then s.cursor else Some(items[|items| - 1].number))
    case OtherPollEvent(after, limit, now, io) =>
      var s1 := Loaded(s, now, io);
      s1.(store := Poll(s.store, after, limit, now, io).0)
  }

  ghost function Run(s: Sys, events: seq<Event>): Sys {
    if events == [] then s else Step(Run(s, events[..|events| - 1]), events[|events| - 1])
  }

  ghost function Start(store: Store): Sys {
    Sys(store, {}, {}, {}, None, [])
  }

  ghost function OnDisk(s: Sys): Naming {
    Settled(FileRaws(s.store.queueFile))
  }

  ghost predicate NamesSafe(s: Sys) {
    && Functional(s.given + OnDisk(s))
    && forall g | g in s.given :: g.0 < ReadStored(s.store.seqFile)
  }

  ghost predicate QueuedTracked(s: Sys) {
    forall n | n in s.queued :: n in s.dropped || exists p :: p in OnDisk(s) && p.0 == n
  }

  /** The client has read up to and including this number; without a cursor it has read nothing. */
  function ReadTo(s: Sys): nat {
    if s.cursor.Some? then s.cursor.value else 0
  }

  ghost predicate ClientSafe(s: Sys) {
    && Increasing(s.delivered)
    && (forall m | m in s.delivered :: m.number <= ReadTo(s) && (m.number, m.uid) in s.given)
    && ReadTo(s) < ReadStored(s.store.seqFile)
    && (forall n | n in s.queued :: n >= 1)
    && forall n | n in s.queued && n <= ReadTo(s) :: n in s.dropped || n in Seqs(s.delivered)
  }

  ghost predicate Safe(s: Sys) {
    NamesSafe(s) && QueuedTracked(s) && ClientSafe(s)
  }

  /** All of it but that the counter is past every number given. */
  ghost predicate AlmostSafe(s: Sys) {
    Functional(s.given + OnDisk(s)) && QueuedTracked(s) && ClientSafe(s)
  }

  lemma LoadIsAlmostSafe(s: Sys, now: real, io: LoadIo)
    requires Safe(s)
    ensures var s1 := Loaded(s, now, io);
            && AlmostSafe(s1) && OnDisk(s1) <= s1.given + OnDisk(s) && ReadStored(s1.store.seqFile) >= ReadStored(s.store.seqFile)
            && (forall m | m in Numbered(s.store) :: (m.number, m.uid) in s1.given)
            && (!s.store.queueFile.NoFile? ==> OnDisk(s1) <= s1.given)
  {
    hide Load, Settled, Numbered, ReadStored, FileRaws;
    NumberedFacts(s.store);
    LoadFacts(s.store, now, io);
    LoadCounter(s.store, now, io);
    var s1, q := Loaded(s, now, io), Numbered(s.store);
    if s.store.queueFile.NoFile? {
      LoadShape(s.store, now, io);
    }
    forall a, b | a in s1.given + OnDisk(s1) && b in s1.given + OnDisk(s1) && a.0 == b.0
      ensures a == b
    {
      SameNumberSameItem(s, q, a, b);
    }
    forall n | n in s1.queued
      ensures n in s1.dropped || exists p :: p in OnDisk(s1) && p.0 == n
    {
      if n !in s.dropped {
        var p :| p in OnDisk(s) && p.0 == n;
        assert p in OnDisk(s1) || p.0 in s1.dropped;
      }
    }
  }

  lemma LoadIsSafe(s: Sys, now: real, io: LoadIo)
    requires Safe(s) && io.seqWrite
    ensures var s1 := Loaded(s, now, io);
            && Safe(s1)
            && (forall m | m in Numbered(s.store) :: m.number < ReadStored(s1.store.seqFile) && (m.number, m.uid) in s1.given)
  {
    hide Load, Settled, Numbered, ReadStored, FileRaws, QueuedTracked, ClientSafe, Functional;
    LoadIsAlmostSafe(s, now, io);
    LoadCounter(s.store, now, io);
  }

  /** Old names and the names of a fresh load never disagree. */
  lemma SameNumberSameItem(s: Sys, q: seq<Msg>, a: (nat, nat), b: (nat, nat))
    requires NamesSafe(s) && Increasing(q)
    requires forall m | m in q && m.number < ReadStored(s.store.seqFile) :: (m.number, m.uid) in OnDisk(s)
    requires a in s.given + Names(q) && b in s.given + Names(q) && a.0 == b.0
    ensures a == b
  {
    hide Settled, ReadStored, FileRaws;
    if a in Names(q) && b in Names(q) {
      var x :| x in q && (x.number, x.uid) == a;
      var y :| y in q && (y.number, y.uid) == b;
      NumberNamesOne(q, x, y);
    }
  }

  /** Taking a number above all given ones, and moving the counter past it, makes a run safe. */
  lemma NumberTaken(s1: Sys, n: nat, uid: nat)
    requires AlmostSafe(s1) && n >= ReadStored(s1.store.seqFile) && OnDisk(s1) <= s1.given
    requires forall g | g in s1.given :: g.0 < n || g == (n, uid)
    ensures Safe(s1.(store := s1.store.(seqFile := Stored(n + 1)), given := s1.given + {(n, uid)}))
  {
    hide Settled, FileRaws;
  }

  /** Storing the queue with its new item keeps runs safe. */
  lemma QueueStored(s1: Sys, q: seq<Msg>, m: Msg, kept: seq<Msg>)
    requires Safe(s1) && (m.number, m.uid) in s1.given && m.number > ReadTo(s1) && m.number >= 1
    requires Increasing(q + [m]) && forall x | x in q :: x.number >= 1 && (x.number, x.uid) in s1.given
    requires forall p | p in OnDisk(s1) :: p.0 in s1.dropped + Seqs(q) || p.0 == m.number
    requires Increasing(kept) && forall x | x in kept :: x in q + [m]
    ensures Safe(s1.(store := s1.store.(queueFile := ToFile(kept)), queued := s1.queued + {m.number},
                     dropped := s1.dropped + (Seqs(q + [m]) - Seqs(kept))))
  {
    hide Settled, FileRaws, ToFile, ReadStored;
    FilePairsOfQueue(kept);
    var s2 := s1.(store := s1.store.(queueFile := ToFile(kept)), queued := s1.queued + {m.number},
                  dropped := s1.dropped + (Seqs(q + [m]) - Seqs(kept)));
    assert OnDisk(s2) == Names(kept);
    assert s2.given + OnDisk(s2) == s1.given;
    forall k | k in s2.queued
      ensures k in s2.dropped || exists p :: p in OnDisk(s2) && p.0 == k
    {
      EnqueuedStaysTracked(s1, q, m, kept, k);
    }
  }

  lemma QueueBelowNext(f: SeqFile, q: seq<Msg>)
    requires forall m | m in q :: m.number >= 1
    ensures NextSeq(f, FileRaws(ToFile(q))) >= ReadStored(f)
    ensures forall m | m in q :: m.number < NextSeq(f, FileRaws(ToFile(q)))
  {
    hide ToFile;
    FileRawsOfQueue(q);
    var rs := FileRaws(ToFile(q));
    forall m | m in q
      ensures m.number < NextSeq(f, rs)
    {
      var i :| 0 <= i < |q| && q[i] == m;
      assert rs[i] == ToRaw(m) && rs[i] in rs && HasSeq(rs[i]);
    }
  }

  /** A repaired load puts the new item above every number. */
  lemma RepairOutnumbers(s: Sys, uid: nat, io: EnqueueIo)
    requires Safe(s) && io.load.seqWrite
    ensures Outnumbers(s.store, uid, io)
  {
    hide Load, Settled, Numbered, Prune, ToFile, FileRaws, Safe, ReadStored, NextSeq;
    LoadIsSafe(s, io.loadedAt, io.load);
    var (st1, q) := Load(s.store, io.loadedAt, io.load);
    NextIsPastCounter(st1.seqFile, FileRaws(ToFile(q)));
  }

  /** An enqueue that writes its own counter above every number is safe, whether or not its load was repaired. */
  lemma OwnCounterIsSafe(s: Sys, uid: nat, io: EnqueueIo)
    requires Safe(s) && io.seqWrite && Outnumbers(s.store, uid, io)
    ensures Safe(Step(s, EnqueueEvent(uid, io)))
  {
    hide Load, Settled, Numbered, Prune, ToFile, FileRaws, Safe, MaxSeq, AlmostSafe, ReadStored, NextSeq;
    var (st1, q) := Load(s.store, io.loadedAt, io.load);
    var s1 := Loaded(s, io.loadedAt, io.load);
    var n := EnqueueNumber(s.store, io);
    LoadIsAlmostSafe(s, io.loadedAt, io.load);
    LoadFacts(s.store, io.loadedAt, io.load);
    NumberedFacts(s.store);
    QueueBelowNext(st1.seqFile, q);
    GivenBelow(s, s1, n, uid);
    CursorBelowCounter(s);
    NumberTaken(s1, n, uid);
    if io.queueWrite {
      var m := Msg(n, uid, At(io.stampedAt));
      var s2 := s1.(store := st1.(seqFile := Stored(n + 1)), given := s1.given + {(n, uid)});
      PruneFacts(q + [m], io.prunedAt);
      QueueStored(s2, q, m, Prune(q + [m], io.prunedAt));
    }
  }

  lemma GivenBelow(s: Sys, s1: Sys, n: nat, uid: nat)
    requires Safe(s) && n >= ReadStored(s.store.seqFile)
    requires forall m | m in Numbered(s.store) :: m.number < n || (m.number, m.uid) == (n, uid)
    requires s1.given == s.given + Names(Numbered(s.store))
    ensures forall g | g in s1.given :: g.0 < n || g == (n, uid)
  {
    hide Numbered, ReadStored, Settled;
  }

  lemma EnqueueIsSafe(s: Sys, uid: nat, io: EnqueueIo)
    requires Safe(s) && (io.load.seqWrite || (io.seqWrite && Outnumbers(s.store, uid, io)))
    ensures Safe(Step(s, EnqueueEvent(uid, io)))
  {
    hide Load, Numbered, Prune, ToFile, FileRaws, Safe, MaxSeq, Outnumbers;
    if io.seqWrite {
      if io.load.seqWrite {
        RepairOutnumbers(s, uid, io);
      }
      OwnCounterIsSafe(s, uid, io);
    } else {
      LoadIsSafe(s, io.loadedAt, io.load);
    }
  }

  lemma CursorBelowCounter(s: Sys)
    requires Safe(s)
    ensures ReadTo(s) < ReadStored(s.store.seqFile)
  {
  }

  lemma EnqueuedStaysTracked(s1: Sys, q: seq<Msg>, m: Msg, kept: seq<Msg>, k: nat)
    requires QueuedTracked(s1) && (k in s1.queued || k == m.number)
    requires forall p | p in OnDisk(s1) :: p.0 in s1.dropped + Seqs(q) || p.0 == m.number
    ensures k in s1.dropped + (Seqs(q + [m]) - Seqs(kept)) || exists p :: p in Names(kept) && p.0 == k
  {
    hide Settled, FileRaws;
    if k !in s1.dropped {
      assert k in Seqs(q + [m]) by {
        if k == m.number {
          assert m in q + [m];
        } else {
          var x :| x in q && x.number == k;
          assert x in q + [m];
        }
      }
      if k in Seqs(kept) {
        var x :| x in kept && x.number == k;
        assert (x.number, x.uid) in Names(kept);
      }
    }
  }

  /** Storing part of the loaded queue, and recording the rest as dropped, keeps runs safe. */
  lemma QueueShrunk(s1: Sys, q: seq<Msg>, left: seq<Msg>)
    requires Safe(s1) && forall x | x in q :: x.number >= 1 && (x.number, x.uid) in s1.given
    requires forall p | p in OnDisk(s1) :: p.0 in s1.dropped + Seqs(q)
    requires Increasing(left) && forall x | x in left :: x in q
    ensures Safe(s1.(store := s1.store.(queueFile := ToFile(left)), dropped := s1.dropped + (Seqs(q) - Seqs(left))))
  {
    hide Settled, FileRaws, ToFile, ReadStored;
    FilePairsOfQueue(left);
    var s2 := s1.(store := s1.store.(queueFile := ToFile(left)), dropped := s1.dropped + (Seqs(q) - Seqs(left)));
    assert OnDisk(s2) == Names(left);
    assert s2.given + OnDisk(s2) == s1.given;
    forall n | n in s2.queued
      ensures n in s2.dropped || exists p :: p in OnDisk(s2) && p.0 == n
    {
      if n !in s2.dropped {
        var p :| p in OnDisk(s1) && p.0 == n;
        var x :| x in left && x.number == n;
        assert (x.number, x.uid) in Names(left);
      }
    }
  }

  lemma AckIsSafe(s: Sys, upTo: int, now: real, io: LoadIo, write: bool)
    requires Safe(s) && io.seqWrite
    ensures Safe(Step(s, AckEvent(upTo, now, io, write)))
  {
    hide Load, Settled, Numbered, ToFile, FileRaws, ReadStored, Safe, Keep;
    var (st1, q) := Load(s.store, now, io);
    var s1 := Loaded(s, now, io);
    LoadIsSafe(s, now, io);
    LoadFacts(s.store, now, io);
    NumberedFacts(s.store);
    var remaining := Keep(q, Above(upTo));
    KeepFacts(q, Above(upTo));
    var s2 := Step(s, AckEvent(upTo, now, io, write));
    if remaining != q && write {
      QueueShrunk(s1, q, remaining);
    } else {
      assert remaining == q ==> s1.dropped + (Seqs(q) - Seqs(remaining)) == s1.dropped;
      assert s2 == s1;
    }
  }

  /** The items a poll asks for: those above its cursor, or all without one. */
  ghost predicate Beyond(after: Option<int>, m: Msg) {
    after.None? || m.number > after.value
  }

  ghost function Asked(q: seq<Msg>, after: Option<int>): set<Msg> {
    set m | m in q && Beyond(after, m)
  }

  function Least(a: int, b: int): int {
    if a <= b then a else b
  }

  /**
   * A page of a poll holds, in order, the first of the items asked for, leaving none out: as many as the
   * limit allows, which is at least 1 and at most 50.
   */
  lemma PageFacts(q: seq<Msg>, after: Option<int>, limit: int)
    requires Increasing(q)
    ensures var page := Page(q, after, limit);
            && Increasing(page)
            && (forall m | m in page :: m in q && Beyond(after, m))
            && (forall m | m in q && Beyond(after, m) && page != [] && m.number <= page[|page| - 1].number :: m in page)
            && (page == [] ==> forall m | m in q :: !Beyond(after, m))
            && |page| == Least(|Asked(q, after)|, if limit < 1 then 1 else Least(limit, 50))
  {
    hide Keep, Above, First;
    var rest := if after.None? then q else Keep(q, Above(after.value));
    if after.Some? {
      KeepFacts(q, Above(after.value));
      AboveMeans(after.value);
    }
    assert Asked(q, after) == set m | m in rest;
    SetOfIncreasing(rest);
    FirstFacts(rest, ClampLimit(limit));
  }

  lemma AboveMeans(cursor: int)
    ensures forall m: Msg :: Above(cursor)(m) <==> m.number > cursor
  {
  }

  /** A non-empty beginning of an increasing queue holds every item up to its last. */
  lemma FirstFacts(rest: seq<Msg>, n: nat)
    requires Increasing(rest) && n > 0
    ensures var page := First(rest, n);
            && Increasing(page) && (forall m | m in page :: m in rest) && (page == [] ==> rest == [])
            && |page| == Least(|rest|, n)
            && forall m | m in rest && page != [] && m.number <= page[|page| - 1].number :: m in page
  {
    var page := First(rest, n);
    forall m | m in rest && page != [] && m.number <= page[|page| - 1].number
      ensures m in page
    {
      var i :| 0 <= i < |rest| && rest[i] == m;
      assert i < |page|;
      assert page[i] == m;
    }
  }

  lemma PollIsSafe(s: Sys, limit: int, now: real, io: LoadIo)
    requires Safe(s) && io.seqWrite
    ensures Safe(Step(s, PollEvent(limit, now, io)))
  {
    hide Load, Settled, Numbered, ToFile, FileRaws, ReadStored, Page, Safe;
    var (st1, q) := Load(s.store, now, io);
    var s1 := Loaded(s, now, io);
    LoadIsSafe(s, now, io);
    LoadFacts(s.store, now, io);
    NumberedFacts(s.store);
    PageFacts(q, After(s.cursor), limit);
    var page := Page(q, After(s.cursor), limit);
    if page != [] {
      PageDelivered(s1, q, page);
    } else {
      assert s1.delivered + page == s1.delivered;
    }
  }

  /** Handing the client a complete page of the items it asked for keeps runs safe. */
  lemma PageDelivered(s1: Sys, q: seq<Msg>, page: seq<Msg>)
    requires Safe(s1) && page != [] && Increasing(page) && forall m | m in page :: m in q && Beyond(After(s1.cursor), m)
    requires forall m | m in q :: m.number >= 1 && m.number < ReadStored(s1.store.seqFile) && (m.number, m.uid) in s1.given
    requires forall p | p in OnDisk(s1) :: p.0 in s1.dropped + Seqs(q)
    requires forall m | m in q && Beyond(After(s1.cursor), m) && m.number <= page[|page| - 1].number :: m in page
    ensures Safe(s1.(delivered := s1.delivered + page, cursor := Some(page[|page| - 1].number)))
  {
    hide Settled, FileRaws, ReadStored, Functional;
    var s2 := s1.(delivered := s1.delivered + page, cursor := Some(page[|page| - 1].number));
    assert page[|page| - 1] in page;
    assert forall m | m in s2.delivered :: m in s1.delivered || m in page;
    assert forall m | m in page :: m.number > ReadTo(s1);
    assert Increasing(s2.delivered) by { AppendKeepsOrder(s1.delivered, page, ReadTo(s1)); }
    forall n | n in s2.queued && n <= ReadTo(s2)
      ensures n in s2.dropped || n in Seqs(s2.delivered)
    {
      PolledOrDropped(s1, q, page, n);
    }
  }

  lemma AppendKeepsOrder(a: seq<Msg>, b: seq<Msg>, n: nat)
    requires Increasing(a) && Increasing(b) && (forall m | m in a :: m.number <= n) && forall m | m in b :: m.number > n
    ensures Increasing(a + b)
  {
    assert forall i | 0 <= i < |a| :: a[i] in a;
    assert forall i | 0 <= i < |b| :: b[i] in b;
  }

  lemma PolledOrDropped(s1: Sys, q: seq<Msg>, page: seq<Msg>, n: nat)
    requires Safe(s1) && n in s1.queued && page != [] && n <= page[|page| - 1].number
    requires forall p | p in OnDisk(s1) :: p.0 in s1.dropped + Seqs(q)
    requires forall m | m in q && Beyond(After(s1.cursor), m) && m.number <= page[|page| - 1].number :: m in page
    ensures n in s1.dropped || n in Seqs(s1.delivered + page)
  {
    hide Settled, FileRaws, ReadStored, Functional;
    if n !in s1.dropped {
      if n <= ReadTo(s1) {
        var m :| m in s1.delivered && m.number == n;
        assert m in s1.delivered + page;
      } else {
        var p :| p in OnDisk(s1) && p.0 == n;
        var m :| m in q && m.number == n;
        assert m in s1.delivered + page;
      }
    }
  }

  lemma {:induction false} NewNumbersAppear(rs: seq<Raw>, next: nat)
    ensures var (q, n) := Assign(rs, next);
            n >= next && (n > next ==> exists m :: m in q && m.number >= next)
  {
    hide Seqs;
    if rs != [] {
      NewNumbersAppear(rs[..|rs| - 1], next);
      var (q, n) := Assign(rs[..|rs| - 1], next);
      var whole := Assign(rs, next).0;
      assert whole == q + [whole[|whole| - 1]];
    }
  }

  /** When the counter is ahead, a load does not touch the sequence file. */
  lemma LoadWithoutRepair(st: Store, now: real, io: LoadIo)
    requires CounterAhead(st)
    ensures Load(st, now, io) == Load(st, now, io.(seqWrite := true))
  {
    hide Prune, FileRaws, NextSeq, ReadStored, ToFile;
    if !st.queueFile.NoFile? {
      var rs := FileRaws(st.queueFile);
      var next := NextSeq(st.seqFile, rs);
      NextIsPastCounter(st.seqFile, rs);
      NewNumbersAppear(rs, next);
      SortMembers(Assign(rs, next).0);
    }
  }

  lemma NextIsPastCounter(f: SeqFile, rs: seq<Raw>)
    ensures NextSeq(f, rs) >= ReadStored(f)
  {
  }

  lemma {:induction false} SortMembers(q: seq<Msg>)
    ensures forall x :: x in Sort(q) <==> x in q
  {
    if q != [] {
      SortMembers(q[..|q| - 1]);
      InsertMembers(q[|q| - 1], Sort(q[..|q| - 1]));
      assert q == q[..|q| - 1] + [q[|q| - 1]];
    }
  }

  /** The same event with its repair write succeeding. */
  function WithRepair(e: Event): Event {
    match e
    case EnqueueEvent(uid, io) => EnqueueEvent(uid, io.(load := io.load.(seqWrite := true)))
    case AckEvent(upTo, now, io, write) => AckEvent(upTo, now, io.(seqWrite := true), write)
    case PollEvent(limit, now, io) => PollEvent(limit, now, io.(seqWrite := true))
    case OtherPollEvent(after, limit, now, io) => OtherPollEvent(after, limit, now, io.(seqWrite := true))
  }

  lemma StepWithoutRepair(s: Sys, e: Event)
    requires CounterAhead(s.store)
    ensures Step(s, e) == Step(s, WithRepair(e))
  {
    hide Load, Prune, Numbered, ToFile, FileRaws, NextSeq, Keep, First;
    LoadWithoutRepair(s.store, LoadOf(e).0, LoadOf(e).1);
  }

  lemma RepairedStepIsSafe(s: Sys, e: Event)
    requires Safe(s) && LoadOf(e).1.seqWrite
    ensures Safe(Step(s, e))
  {
    hide Safe, Loaded;
    match e
    case EnqueueEvent(uid, io) => EnqueueIsSafe(s, uid, io);
    case AckEvent(upTo, now, io, write) => AckIsSafe(s, upTo, now, io, write);
    case PollEvent(limit, now, io) => PollIsSafe(s, limit, now, io);
    case OtherPollEvent(after, limit, now, io) => LoadIsSafe(s, now, io);
      assert Step(s, e) == Loaded(s, now, io) by { OtherPollIsLoad(s, after, limit, now, io); }
  }

  lemma StepIsSafe(s: Sys, e: Event)
    requires Safe(s) && KeepsCounter(s.store, e)
    ensures Safe(Step(s, e))
  {
    hide Safe, Step, CounterAhead, Outnumbers;
    if LoadOf(e).1.seqWrite {
      RepairedStepIsSafe(s, e);
    } else if CounterAhead(s.store) {
      StepWithoutRepair(s, e);
      RepairedStepIsSafe(s, WithRepair(e));
    } else {
      EnqueueIsSafe(s, e.uid, e.eio);
    }
  }

  /** Some number names two items, or the counter is not past some number given. */
  ghost predicate Behind(s: Sys) {
    !Functional(s.given) || exists g :: g in s.given && g.0 >= ReadStored(s.store.seqFile)
  }

  /** An event whose load loses a needed repair, and that does not make up for it, leaves the counter behind. */
  lemma UnkeptStepIsBehind(s: Sys, e: Event)
    requires !KeepsCounter(s.store, e)
    ensures Behind(Step(s, e))
  {
    hide Prune, FileRaws, NextSeq, Assign, Sort, Numbered, ToFile, Keep, First, Functional;
    var t := Step(s, e);
    var m :| m in Numbered(s.store) && m.number >= ReadStored(s.store.seqFile);
    assert (m.number, m.uid) in t.given;
    if e.EnqueueEvent? && e.eio.seqWrite {
      UnkeptEnqueueIsBehind(s, e.uid, e.eio);
    } else {
      assert t.store.seqFile == s.store.seqFile;
    }
  }

  lemma UnkeptEnqueueIsBehind(s: Sys, uid: nat, io: EnqueueIo)
    requires io.seqWrite && !Outnumbers(s.store, uid, io)
    ensures Behind(Step(s, EnqueueEvent(uid, io)))
  {
    hide Prune, FileRaws, NextSeq, Load, Numbered, ToFile;
    var n, t := EnqueueNumber(s.store, io), Step(s, EnqueueEvent(uid, io));
    var m :| m in Numbered(s.store) && !(m.number < n || (m.number, m.uid) == (n, uid));
    assert (m.number, m.uid) in t.given && (n, uid) in t.given;
    assert t.store.seqFile == Stored(n + 1);
  }

  lemma BehindIsUnsafe(s: Sys)
    requires Behind(s)
    ensures !Safe(s)
  {
    hide Settled, ReadStored;
  }

  /** One event keeps runs safe exactly when it keeps the counter past every number. */
  lemma StepIsSafeIff(s: Sys, e: Event)
    requires Safe(s)
    ensures Safe(Step(s, e)) <==> KeepsCounter(s.store, e)
  {
    hide Safe, Step, KeepsCounter, Behind;
    if KeepsCounter(s.store, e) {
      StepIsSafe(s, e);
    } else {
      UnkeptStepIsBehind(s, e);
      BehindIsUnsafe(Step(s, e));
    }
  }

  /**
   * A load keeps the stored counter past every number ever given out exactly when its repair write
   * succeeds or no repair was needed.
   */
  lemma LoadKeepsCounterAheadIff(s: Sys, now: real, io: LoadIo)
    requires Safe(s)
    ensures var s1 := Loaded(s, now, io);
            (forall g | g in s1.given :: g.0 < ReadStored(s1.store.seqFile)) <==> io.seqWrite || CounterAhead(s.store)
  {
    hide Prune, FileRaws, NextSeq, Assign, Sort, Numbered, ToFile;
    var s1 := Loaded(s, now, io);
    if io.seqWrite {
      LoadIsSafe(s, now, io);
    } else if CounterAhead(s.store) {
      LoadWithoutRepair(s.store, now, io);
      LoadIsSafe(s, now, io.(seqWrite := true));
    } else {
      var m :| m in Numbered(s.store) && m.number >= ReadStored(s.store.seqFile);
      assert (m.number, m.uid) in s1.given && s1.store.seqFile == s.store.seqFile;
    }
  }

  lemma OtherPollIsLoad(s: Sys, after: Option<int>, limit: int, now: real, io: LoadIo)
    ensures Step(s, OtherPollEvent(after, limit, now, io)) == Loaded(s, now, io)
  {
  }

  lemma StartIsSafe(store: Store)
    ensures Safe(Start(store))
  {
    SettledIsFunctional(FileRaws(store.queueFile));
  }

  /** Every event of the run keeps the counter past every number. */
  ghost predicate AllKeepCounter(store: Store, events: seq<Event>) {
    forall i | 0 <= i < |events| :: KeepsCounter(Run(Start(store), events[..i]).store, events[i])
  }

  lemma AllKeepCounterFront(store: Store, events: seq<Event>)
    requires events != [] && AllKeepCounter(store, events)
    ensures var n := |events| - 1;
            AllKeepCounter(store, events[..n]) && KeepsCounter(Run(Start(store), events[..n]).store, events[n])
  {
    hide Run, KeepsCounter;
    var front := events[..|events| - 1];
    forall i | 0 <= i < |front|
      ensures KeepsCounter(Run(Start(store), front[..i]).store, front[i])
    {
      assert front[..i] == events[..i];
    }
  }

  lemma {:induction false} RunIsSafe(store: Store, events: seq<Event>)
    requires AllKeepCounter(store, events)
    ensures Safe(Run(Start(store), events))
  {
    hide Safe, Step, AllKeepCounter, KeepsCounter;
    if events == [] {
      StartIsSafe(store);
    } else {
      AllKeepCounterFront(store, events);
      RunIsSafe(store, events[..|events| - 1]);
      StepIsSafe(Run(Start(store), events[..|events| - 1]), events[|events| - 1]);
    }
  }

  /** Over any run, whatever other writes fail, no sequence number is ever given to two items. */
  lemma NoNumberNamesTwoItems(store: Store, events: seq<Event>)
    requires AllKeepCounter(store, events)
    ensures Functional(Run(Start(store), events).given)
  {
    RunIsSafe(store, events);
  }

  /**
   * The polling client sees strictly increasing numbers, and every item whose enqueue succeeded and
   * whose number its cursor has passed was delivered to it, or dropped by age, count or an ack.
   */
  lemma ClientMissesNothingSilently(store: Store, events: seq<Event>)
    requires AllKeepCounter(store, events)
    ensures var s := Run(Start(store), events);
            && Increasing(s.delivered)
            && forall n | n in s.queued && n <= ReadTo(s) :: n in s.dropped || n in Seqs(s.delivered)
  {
    RunIsSafe(store, events);
  }

  /** The stored counter never decreases, even when repair writes fail. */
  lemma CounterNeverDecreases(s: Sys, e: Event)
    ensures ReadStored(Step(s, e).store.seqFile) >= ReadStored(s.store.seqFile)
  {
    hide Load, ToFile, FileRaws, MaxSeq, Prune, Numbered;
    match e
    case EnqueueEvent(_, io) => LoadCounter(s.store, io.loadedAt, io.load);
    case AckEvent(_, now, io, _) => LoadCounter(s.store, now, io);
    case PollEvent(_, now, io) => LoadCounter(s.store, now, io);
    case OtherPollEvent(_, _, now, io) => LoadCounter(s.store, now, io);
  }

  /** Every queue a load returns is strictly increasing, whatever the files held and whichever writes fail. */
  lemma LoadedQueueIncreases(st: Store, now: real, io: LoadIo)
    ensures Increasing(Load(st, now, io).1)
  {
    LoadFacts(st, now, io);
  }

  lemma LoadOfOne(r: Raw, f: SeqFile, io: LoadIo)
    requires r.stamp.NoStamp? && !HasSeq(r) && f == NoNumber && !io.seqWrite && io.queueWrite
    ensures var m := Msg(1, r.uid, r.stamp);
            && Load(Store(Entries([Dict(r)]), f), 0.0, io) == (Store(ToFile([m]), f), [m])
            && Numbered(Store(Entries([Dict(r)]), f)) == [m]
  {
    hide ToFile;
    var m := Msg(1, r.uid, r.stamp);
    assert [Dict(r)][..0] == [] && [r][..0] == [] && [m][..0] == [];
    assert Raws([Dict(r)]) == [r];
    assert Assign([], 1) == ([], 1) && [] + [m] == [m] && m.number !in Seqs([]);
    assert Assign([r], 1) == ([m], 2);
    assert MaxSeq([]) == 0 && MaxSeq([r]) == 0 && NextSeq(f, [r]) == 1;
    assert Sort([m]) == [m];
    assert Keep([m], Young(0.0 - QUEUE_MAX_AGE_SECONDS)) == [m];
  }

  lemma LoadOfNone(f: SeqFile, io: LoadIo)
    ensures Load(Store(Entries([]), f), 0.0, io) == (Store(Entries([]), f), [])
    ensures Numbered(Store(Entries([]), f)) == []
  {
    assert ToFile([]) == Entries([]);
  }

  lemma AckOfOne(m: Msg)
    requires m.number == 1
    ensures Keep([m], Above(1)) == []
  {
    assert [m][..0] == [];
    assert Keep([], Above(1)) == [];
  }

  /** The repair write is needed: when it fails for one old item, an ack and an enqueue reuse its number. */
  lemma FailedRepairReusesANumber() returns (store: Store, events: seq<Event>)
    ensures !Functional(Run(Start(store), events).given)
  {
    hide Load, Numbered, Keep, Raws, Assign, Sort;
    var raw, m := Raw(NoSeq, 7, NoStamp), Msg(1, 7, NoStamp);
    store := Store(Entries([Dict(raw)]), NoNumber);
    var ack := AckEvent(1, 0.0, LoadIo(false, true), true);
    var enqueue := EnqueueEvent(8, EnqueueIo(LoadIo(true, true), true, true, 0.0, 0.0, 0.0));
    events := [ack, enqueue];
    LoadOfOne(raw, NoNumber, ack.aio);
    AckOfOne(m);
    var s1 := Step(Start(store), ack);
    assert ToFile([]) == Entries([]);
    assert s1.store == Store(Entries([]), NoNumber);
    assert m in [m] && (m.number, m.uid) in s1.given;
    LoadOfNone(NoNumber, enqueue.eio.load);
    assert FileRaws(ToFile([])) == [] by { FileRawsOfQueue([]); }
    var s2 := Step(s1, enqueue);
    assert (1, 8) in s2.given && (1, 7) in s2.given;
    assert events[..1] == [ack] && [ack][..0] == [];
    assert Run(Start(store), [ack]) == s1;
    assert Run(Start(store), events) == s2;
  }
}
