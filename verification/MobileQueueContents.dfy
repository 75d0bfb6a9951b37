/**
 * What the two files of the mobile queue hold after each operation (channels/mobile.py): items keep
 * their identity, timestamp and settled number, an enqueue stores its item, an ack removes exactly what
 * it acknowledges, and a load that writes what it repairs has nothing left to repair.
 */
module MobileQueueContents {
  import opened Wrappers
  import opened MobileQueue
  import opened MobileQueueRuns

  // ---- Numbers ----

  /** A number a new item may take: past the stored counter and past every usable number of the list. */
  ghost predicate Usable(f: SeqFile, rs: seq<Raw>, k: nat) {
    && k >= 1 && (f.Stored? ==> f.n <= k)
    && forall r | r in rs && r.number.Seq? :: r.number.n < k
  }

  /** The next number is the least one that may be taken. */
  lemma NextSeqIsLeast(f: SeqFile, rs: seq<Raw>, k: nat)
    ensures Usable(f, rs, NextSeq(f, rs))
    ensures Usable(f, rs, k) ==> NextSeq(f, rs) <= k
  {
    if Usable(f, rs, k) {
      MaxIsHeld(rs);
    }
  }

  lemma {:induction false} MaxIsHeld(rs: seq<Raw>)
    ensures MaxSeq(rs) > 0 ==> exists r :: r in rs && HasSeq(r) && r.number.n == MaxSeq(rs)
  {
    if rs != [] {
      var front, last := rs[..|rs| - 1], rs[|rs| - 1];
      MaxIsHeld(front);
      assert rs == front + [last] && last in rs;
      assert forall r | r in front :: r in rs;
    }
  }

  /** Numbering changes nothing but numbers: the first holder of a number keeps it, everyone else gets a new one. */
  lemma {:induction false} AssignKeepsItems(rs: seq<Raw>, next: nat, i: nat)
    requires i < |rs| && forall r | r in rs && HasSeq(r) :: r.number.n < next
    ensures var q := Assign(rs, next).0;
            && |q| == |rs| && q[i].uid == rs[i].uid && q[i].stamp == rs[i].stamp
            && (if FirstHolder(rs, i) then q[i].number == rs[i].number.n else q[i].number >= next)
  {
    hide FirstHolder, Assigned, Settled;
    var n := |rs| - 1;
    var front, r := rs[..n], rs[n];
    assert forall x | x in front :: x in rs;
    assert r in rs;
    AssignNames(front, next);
    NewNumbersAppear(front, next);
    AssignLength(front, next);
    AssignLength(rs, next);
    if i < n {
      AssignKeepsItems(front, next, i);
      HolderInFront(rs, n, i);
    } else if HasSeq(r) {
      FirstHolderIffUnseen(rs, next, Assign(front, next).0, Assign(front, next).1);
    } else {
      NotAHolder(rs);
    }
  }

  lemma HolderInFront(rs: seq<Raw>, n: nat, i: nat)
    requires i < n <= |rs|
    ensures FirstHolder(rs, i) <==> FirstHolder(rs[..n], i)
  {
  }

  lemma {:induction false} InsertIsPermutation(m: Msg, q: seq<Msg>)
    ensures multiset(Insert(m, q)) == multiset(q) + multiset{m}
  {
    if q != [] && m.number >= q[0].number {
      InsertIsPermutation(m, q[1..]);
      assert q == [q[0]] + q[1..];
    }
  }

  /** Sorting only rearranges. */
  lemma {:induction false} SortIsPermutation(q: seq<Msg>)
    ensures multiset(Sort(q)) == multiset(q)
  {
    if q != [] {
      var front, m := q[..|q| - 1], q[|q| - 1];
      SortIsPermutation(front);
      InsertIsPermutation(m, Sort(front));
      assert q == front + [m];
    }
  }

  // ---- Enqueue and ack ----

  /** A successful enqueue leaves its item, with its number and timestamp, at the end of the file, and the counter right behind it. */
  lemma EnqueueStoresItem(st: Store, uid: nat, io: EnqueueIo)
    requires io.prunedAt - io.stampedAt <= 86400.0
    ensures var (st', result) := Enqueue(st, uid, io);
            result.Queued? ==>
              && st'.seqFile == Stored(result.number + 1)
              && st'.queueFile.Entries? && st'.queueFile.list != []
              && st'.queueFile.list[|st'.queueFile.list| - 1] == Dict(Raw(Seq(result.number), uid, At(io.stampedAt)))
  {
    hide Load, Prune, FileRaws, NextSeq;
    var (st1, q) := Load(st, io.loadedAt, io.load);
    var m := Msg(EnqueueNumber(st, io), uid, At(io.stampedAt));
    NewItemSurvivesItsPrune(q, m, io.prunedAt);
  }

  /** The loaded items an ack of `upTo` leaves. */
  ghost function Unacked(q: seq<Msg>, upTo: int): set<Msg> {
    set m | m in q && m.number > upTo
  }

  /**
   * An ack that succeeds reports how many loaded items are above its number; if it removes any, the file
   * then holds exactly those, in order. It fails exactly when it would remove some and cannot write.
   */
  lemma AckRemovesExactly(st: Store, upTo: int, now: real, io: LoadIo, write: bool)
    ensures var (st1, q) := Load(st, now, io);
            var (st', left) := Ack(st, upTo, now, io, write);
            var removes := exists m :: m in q && m.number <= upTo;
            && (left.None? <==> removes && !write)
            && (left.Some? ==> left.value == |Unacked(q, upTo)|)
            && st'.seqFile == st1.seqFile
            && (if removes && write
                then exists kept :: Increasing(kept) && (set m | m in kept) == Unacked(q, upTo) && st'.queueFile == ToFile(kept)
                else st'.queueFile == st1.queueFile)
  {
    hide Load, Keep, Above, ToFile;
    var (st1, q) := Load(st, now, io);
    var kept := Keep(q, Above(upTo));
    LoadedQueueIncreases(st, now, io);
    KeepFacts(q, Above(upTo));
    AboveMeans(upTo);
    SetOfIncreasing(kept);
    assert (set m | m in kept) == Unacked(q, upTo);
    if m :| m in q && m.number <= upTo {
      assert m !in kept;
    } else {
      KeepsAll(q, Above(upTo));
    }
  }

  lemma {:induction false} KeepsAll(q: seq<Msg>, p: Msg -> bool)
    requires forall m | m in q :: p(m)
    ensures Keep(q, p) == q
  {
    if q != [] {
      var front := q[..|q| - 1];
      assert q == front + [q[|q| - 1]] && q[|q| - 1] in q;
      assert forall m | m in front :: m in q;
      KeepsAll(front, p);
    }
  }

  // ---- A repaired queue stays as it is ----

  lemma {:induction false} InsertLast(m: Msg, q: seq<Msg>)
    requires forall x | x in q :: x.number < m.number
    ensures Insert(m, q) == q + [m]
  {
    if q != [] {
      assert q[0] in q && forall x | x in q[1..] :: x in q;
      InsertLast(m, q[1..]);
    }
  }

  lemma {:induction false} SortOfIncreasing(q: seq<Msg>)
    requires Increasing(q)
    ensures Sort(q) == q
  {
    if q != [] {
      var front, m := q[..|q| - 1], q[|q| - 1];
      SortOfIncreasing(front);
      InsertLast(m, front);
    }
  }

  function RawsOf(q: seq<Msg>): seq<Raw> {
    seq(|q|, i requires 0 <= i < |q| => ToRaw(q[i]))
  }

  lemma {:induction false} AssignLength(rs: seq<Raw>, next: nat)
    ensures |Assign(rs, next).0| == |rs|
  {
    if rs != [] {
      AssignLength(rs[..|rs| - 1], next);
    }
  }

  lemma FrontRaws(q: seq<Msg>)
    requires q != []
    ensures var n := |q| - 1; |RawsOf(q)| == |q| && RawsOf(q)[..n] == RawsOf(q[..n]) && RawsOf(q)[n] == ToRaw(q[n])
  {
  }

  lemma FrontOfQueue(q: seq<Msg>)
    requires q != [] && Increasing(q) && forall m | m in q :: m.number >= 1
    ensures var n := |q| - 1;
            && Increasing(q[..n]) && (forall m | m in q[..n] :: m.number >= 1) && q[n].number >= 1
            && q[n].number !in Seqs(q[..n])
  {
    var n := |q| - 1;
    assert q[n] in q;
    forall x | x in q[..n]
      ensures x in q && x.number < q[n].number
    {
      var i :| 0 <= i < n && q[..n][i] == x;
      assert q[i] == x;
    }
  }

  /** A usable, unseen number is kept. */
  lemma AssignKept(rs: seq<Raw>, next: nat, q: seq<Msg>, n: nat)
    requires rs != [] && Assign(rs[..|rs| - 1], next) == (q, n)
    requires var r := rs[|rs| - 1]; HasSeq(r) && r.number.n !in Seqs(q)
    ensures var r := rs[|rs| - 1]; Assign(rs, next) == (q + [Msg(r.number.n, r.uid, r.stamp)], n)
  {
    hide Seqs;
  }

  lemma {:induction false} AssignOfQueue(q: seq<Msg>, next: nat)
    requires Increasing(q) && forall m | m in q :: m.number >= 1
    ensures Assign(RawsOf(q), next) == (q, next)
  {
    if q != [] {
      FrontRaws(q);
      FrontOfQueue(q);
      hide Seqs, Increasing, RawsOf, Assign;
      AssignOfQueue(q[..|q| - 1], next);
      AssignKept(RawsOf(q), next, q[..|q| - 1], next);
      assert q == q[..|q| - 1] + [q[|q| - 1]];
    }
  }

  lemma {:induction false} AssignWithoutNew(rs: seq<Raw>, next: nat, other: nat)
    requires Assign(rs, next).1 == next
    ensures Assign(rs, other) == (Assign(rs, next).0, other)
  {
    hide Seqs;
    if rs != [] {
      NewNumbersAppear(rs[..|rs| - 1], next);
      AssignWithoutNew(rs[..|rs| - 1], next, other);
    }
  }

  lemma PruneTwice(q: seq<Msg>, now: real)
    ensures Prune(Prune(q, now), now) == Prune(q, now)
  {
    hide Keep, Young;
    var young := Young(now - QUEUE_MAX_AGE_SECONDS);
    KeepFacts(q, young);
    var kept := Prune(q, now);
    assert forall m | m in kept :: m in Keep(q, young);
    KeepsAll(kept, young);
  }

  lemma MaxIsBelow(q: seq<Msg>, c: nat)
    requires c >= 1 && forall m | m in q :: m.number < c
    ensures MaxOf(q) + 1 <= c
  {
    if q != [] {
      assert MaxOf(q) in Seqs(q);
      var m :| m in q && m.number == MaxOf(q);
    }
  }

  lemma RawsBelow(q: seq<Msg>, f: SeqFile)
    requires forall m | m in q :: m.number < ReadStored(f)
    ensures NextSeq(f, RawsOf(q)) == ReadStored(f)
  {
    MaxIsHeld(RawsOf(q));
    forall r | r in RawsOf(q)
      ensures r.number.Seq? && r.number.n < ReadStored(f)
    {
      var i :| 0 <= i < |q| && RawsOf(q)[i] == r;
      assert q[i] in q;
    }
  }

  /** Loading a file that holds a clean queue, with the counter past it, changes nothing. */
  lemma CleanLoad(q: seq<Msg>, f: SeqFile, now: real, io: LoadIo)
    requires Increasing(q) && Prune(q, now) == q
    requires forall m | m in q :: 1 <= m.number < ReadStored(f)
    ensures Load(Store(ToFile(q), f), now, io) == (Store(ToFile(q), f), q)
  {
    hide Prune, FileRaws, NextSeq, MaxOf, ReadStored, Assign, Sort;
    var rs := FileRaws(ToFile(q));
    FileRawsOfQueue(q);
    assert rs == RawsOf(q);
    RawsBelow(q, f);
    AssignOfQueue(q, NextSeq(f, rs));
    SortOfIncreasing(q);
    MaxIsBelow(q, ReadStored(f));
  }

  /** Where nothing was renumbered, dropped or rearranged, the same file loads the same again. */
  lemma SameFileLoad(st: Store, f: SeqFile, now: real, io: LoadIo)
    requires st.queueFile.Entries? || st.queueFile.BadFile?
    requires var rs := FileRaws(st.queueFile);
             var (numbered, n) := Assign(rs, NextSeq(st.seqFile, rs));
             && n == NextSeq(st.seqFile, rs)
             && (st.queueFile.Entries? ==> |rs| == |st.queueFile.list|)
             && Prune(Sort(numbered), now) == Sort(numbered)
             && forall m | m in Sort(numbered) :: m.number < ReadStored(f)
    ensures var rs := FileRaws(st.queueFile);
            Load(Store(st.queueFile, f), now, io) == (Store(st.queueFile, f), Sort(Assign(rs, NextSeq(st.seqFile, rs)).0))
  {
    hide Prune, FileRaws, NextSeq, MaxOf, ReadStored, Assign, Sort;
    var rs := FileRaws(st.queueFile);
    AssignWithoutNew(rs, NextSeq(st.seqFile, rs), NextSeq(f, rs));
    MaxIsBelow(Sort(Assign(rs, NextSeq(st.seqFile, rs)).0), ReadStored(f));
  }

  /** After a load whose writes succeed, a second load at the same time returns the same and writes nothing. */
  lemma LoadIsIdempotent(st: Store, now: real, io: LoadIo)
    ensures var (st1, q) := Load(st, now, LoadIo(true, true));
            Load(st1, now, io) == (st1, q)
  {
    hide Prune, FileRaws, NextSeq, MaxOf, ReadStored, Assign, Sort, Numbered, ToFile;
    var (st1, q) := Load(st, now, LoadIo(true, true));
    if !st.queueFile.NoFile? {
      var rs := FileRaws(st.queueFile);
      var (numbered, n) := Assign(rs, NextSeq(st.seqFile, rs));
      LoadCounter(st, now, LoadIo(true, true));
      NumberedFacts(st);
      NumberedIs(st);
      NewNumbersAppear(rs, NextSeq(st.seqFile, rs));
      PruneFacts(Sort(numbered), now);
      PruneTwice(Sort(numbered), now);
      if st1.queueFile == ToFile(q) {
        CleanLoad(q, st1.seqFile, now, io);
      } else {
        SameFileLoad(st, st1.seqFile, now, io);
      }
    }
  }

  lemma NumberedIs(st: Store)
    requires !st.queueFile.NoFile?
    ensures var rs := FileRaws(st.queueFile); Numbered(st) == Sort(Assign(rs, NextSeq(st.seqFile, rs)).0)
  {
  }
}
