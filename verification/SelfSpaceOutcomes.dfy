/**
 * Exactly when each operation on the self-file space succeeds, and exactly what its prunes keep
 * (core/character_self.py), stated on files, revisions, limits and writes.
 */
module SelfSpaceOutcomes {
  import opened Wrappers
  import opened SelfSpace
  import opened SelfSpaceStore
  import opened SelfSpaceRuns
  import opened SelfSpaceInvariants

  // ---- Quotas ----

  /** With `data` written at `p` the bucket is within its three quotas. */
  ghost predicate Fits(s: Space, p: Path, data: Bytes, l: Limits) {
    var after := s.files[p := data];
    |data| <= l.maxFileBytes && |after| <= l.maxFiles && Total(after) <= l.maxTotalBytes
  }

  /** The quota check, made before the write, decides what holds after it. */
  lemma QuotaMeans(s: Space, p: Path, data: Bytes, l: Limits)
    ensures QuotaAllows(s, p, data, p in s.files, l) <==> Fits(s, p, data, l)
  {
    TotalPut(s.files, p, data);
    var after := s.files[p := data];
    assert after.Keys == s.files.Keys + {p};
    assert |after| == |after.Keys| && |s.files| == |s.files.Keys|;
    if p in s.files {
      assert after.Keys == s.files.Keys;
    }
  }

  // ---- Versions and trash items that count ----

  ghost predicate LiveVersion(v: Version, now: real, l: Limits) {
    v.createdAt == 0.0 || now - v.createdAt <= l.revisionTtl
  }

  ghost predicate LiveItem(t: TrashItem, now: real, l: Limits) {
    t.deletedAt == 0.0 || now - t.deletedAt <= l.trashTtl
  }

  /** Places of the versions from `i` on that are not past their age. */
  ghost function LiveVersions(vs: seq<Version>, i: nat, now: real, l: Limits): set<nat> {
    set k: nat | i <= k < |vs| && LiveVersion(vs[k], now, l)
  }

  ghost function LiveItems(ts: seq<TrashItem>, i: nat, now: real, l: Limits): set<nat> {
    set k: nat | i <= k < |ts| && LiveItem(ts[k], now, l)
  }

  lemma LastLiveVersions(vs: seq<Version>, i: nat, now: real, l: Limits)
    requires i < |vs|
    ensures var n := |vs| - 1;
            var front := LiveVersions(vs[..n], i, now, l);
            n !in front && LiveVersions(vs, i, now, l) == front + (if LiveVersion(vs[n], now, l) then {n} else {})
  {
    hide LiveVersion;
  }

  lemma {:induction false} FreshVersionsCount(vs: seq<Version>, now: real, l: Limits)
    ensures |FreshVersions(vs, now, l.revisionTtl)| == |LiveVersions(vs, 0, now, l)|
  {
    if vs != [] {
      hide LiveVersions;
      FreshVersionsCount(vs[..|vs| - 1], now, l);
      LastLiveVersions(vs, 0, now, l);
    }
  }

  lemma LastLiveItems(ts: seq<TrashItem>, i: nat, now: real, l: Limits)
    requires i < |ts|
    ensures var n := |ts| - 1;
            var front := LiveItems(ts[..n], i, now, l);
            n !in front && LiveItems(ts, i, now, l) == front + (if LiveItem(ts[n], now, l) then {n} else {})
  {
    hide LiveItem;
  }

  lemma {:induction false} FreshItemsCount(ts: seq<TrashItem>, now: real, l: Limits)
    ensures |FreshItems(ts, now, l.trashTtl)| == |LiveItems(ts, 0, now, l)|
  {
    if ts != [] {
      hide LiveItems;
      FreshItemsCount(ts[..|ts| - 1], now, l);
      LastLiveItems(ts, 0, now, l);
    }
  }

  /** A live version is as far from the end of the kept ones as there are live versions behind it. */
  lemma {:induction false} FreshVersionPlace(vs: seq<Version>, now: real, l: Limits, i: nat) returns (k: nat)
    requires i < |vs| && LiveVersion(vs[i], now, l)
    ensures var young := FreshVersions(vs, now, l.revisionTtl);
            k < |young| && young[k] == vs[i] && |young| - k - 1 == |LiveVersions(vs, i + 1, now, l)|
  {
    var n := |vs| - 1;
    if i == n {
      k := |FreshVersions(vs, now, l.revisionTtl)| - 1;
      assert LiveVersions(vs, i + 1, now, l) == {};
    } else {
      hide LiveVersions;
      k := FreshVersionPlace(vs[..n], now, l, i);
      LastLiveVersions(vs, i + 1, now, l);
    }
  }

  lemma {:induction false} FreshItemPlace(ts: seq<TrashItem>, now: real, l: Limits, i: nat) returns (k: nat)
    requires i < |ts| && LiveItem(ts[i], now, l)
    ensures var young := FreshItems(ts, now, l.trashTtl);
            k < |young| && young[k] == ts[i] && |young| - k - 1 == |LiveItems(ts, i + 1, now, l)|
  {
    var n := |ts| - 1;
    if i == n {
      k := |FreshItems(ts, now, l.trashTtl)| - 1;
      assert LiveItems(ts, i + 1, now, l) == {};
    } else {
      hide LiveItems;
      k := FreshItemPlace(ts[..n], now, l, i);
      LastLiveItems(ts, i + 1, now, l);
    }
  }

  lemma {:induction false} FreshItemsAreLive(ts: seq<TrashItem>, now: real, l: Limits)
    ensures forall t | t in FreshItems(ts, now, l.trashTtl) :: LiveItem(t, now, l)
  {
    if ts != [] {
      FreshItemsAreLive(ts[..|ts| - 1], now, l);
    }
  }

  lemma {:induction false} FreshVersionsAreLive(vs: seq<Version>, now: real, l: Limits)
    ensures forall v | v in FreshVersions(vs, now, l.revisionTtl) :: LiveVersion(v, now, l)
  {
    if vs != [] {
      FreshVersionsAreLive(vs[..|vs| - 1], now, l);
    }
  }

  lemma NewestHolds<T>(xs: seq<T>, k: nat, n: nat)
    requires k < |xs| && forall i, j | 0 <= i < j < |xs| :: xs[i] != xs[j]
    ensures xs[k] in Newest(xs, n) <==> |xs| - k <= n
  {
    var from := if |xs| <= n then 0 else |xs| - n;
    assert Newest(xs, n) == xs[from..];
    if k >= from {
      assert xs[from..][k - from] == xs[k];
    }
  }

  /** A prune keeps exactly the versions not past their age with fewer than `maxRevisions` such versions behind them. */
  lemma PruneKeepsVersionsExactly(r: RevState, now: real, l: Limits, bound: nat, i: nat)
    requires HistoryOk(r, bound) && i < |r.versions|
    ensures r.versions[i] in PrunedVersions(r, now, l).versions <==>
            LiveVersion(r.versions[i], now, l) && |LiveVersions(r.versions, i + 1, now, l)| < l.maxRevisions
  {
    hide SnapshotKeys, FreshVersions, LiveVersion, LiveVersions;
    var young := FreshVersions(r.versions, now, l.revisionTtl);
    FreshVersionsFacts(r.versions, now, l.revisionTtl);
    FreshVersionsAreLive(r.versions, now, l);
    if LiveVersion(r.versions[i], now, l) {
      var k := FreshVersionPlace(r.versions, now, l, i);
      NewestHolds(young, k, l.maxRevisions);
    }
  }

  /** A prune keeps exactly the trash items not past their age with fewer than `maxTrash` such items behind them. */
  lemma PruneKeepsItemsExactly(ts: seq<TrashItem>, now: real, l: Limits, i: nat)
    requires Orderly(ts) && i < |ts|
    ensures ts[i] in KeptTrash(ts, now, l) <==>
            LiveItem(ts[i], now, l) && |LiveItems(ts, i + 1, now, l)| < l.maxTrash
  {
    hide FreshItems, LiveItem, LiveItems;
    var young := FreshItems(ts, now, l.trashTtl);
    FreshItemsArePart(ts, now, l.trashTtl);
    FreshItemsAreLive(ts, now, l);
    if LiveItem(ts[i], now, l) {
      var k := FreshItemPlace(ts, now, l, i);
      NewestHolds(young, k, l.maxTrash);
    }
  }

  // ---- When operations succeed ----

  /** A limit of at least 100 versions that is used up by versions not past their age. */
  ghost predicate HistoryUsedUp(s: Space, p: Path, now: real, l: Limits) {
    l.maxRevisions >= 100 && |LiveVersions(RevsOf(s, p).versions, 0, now, l)| >= l.maxRevisions
  }

  /** A limit of at least 200 trash items that is used up by items not past their age. */
  ghost predicate TrashUsedUp(s: Space, now: real, l: Limits) {
    l.maxTrash >= 200 && |LiveItems(s.trash, 0, now, l)| >= l.maxTrash
  }

  lemma HistoryFullIff(s: Space, p: Path, now: real, l: Limits)
    ensures HistoryFull(PruneRevisions(s, p, now, l), p, l) <==> HistoryUsedUp(s, p, now, l)
  {
    hide SnapshotKeys, FreshVersions, LiveVersions;
    FreshVersionsCount(RevsOf(s, p).versions, now, l);
  }

  lemma TrashFullIff(s: Space, now: real, l: Limits)
    ensures TrashFull(PruneTrash(s, now, l), l) <==> TrashUsedUp(s, now, l)
  {
    hide FreshItems, LiveItems, Ids;
    FreshItemsCount(s.trash, now, l);
  }

  /** The writes of a replacement: the prune before it, the file, snapshot and record, and the prune behind it. */
  ghost predicate ReplaceWrites(io: Io) {
    io.save(PruneBefore) && io.fileWrite && io.save(Snapshot) && io.save(RecordState) && io.save(PruneAfter)
  }

  lemma ReplaceSucceedsIff(s: Space, p: Path, data: Bytes, l: Limits, io: Io)
    requires p in s.files
    ensures var (t, outcome) := Replace(s, p, data, l, io);
            && (outcome.Done? <==> Fits(s, p, data, l) && !HistoryUsedUp(s, p, io.now, l) && ReplaceWrites(io))
            && (outcome == Denied(QuotaExhausted) <==>
                  !Fits(s, p, data, l) || (io.save(PruneBefore) && HistoryUsedUp(s, p, io.now, l)))
            && (outcome.Denied? ==> outcome.code == QuotaExhausted || outcome.code == AtomicWriteFailed)
            && (outcome.Done? ==> t.files == s.files[p := data])
  {
    hide Fits, QuotaAllows, HistoryUsedUp, HistoryFull, PrunedVersions, Recorded;
    QuotaMeans(s, p, data, l);
    HistoryFullIff(s, p, io.now, l);
  }

  /**
   * An update succeeds if and only if the file exists, the expected revision is its current one, the new
   * bytes fit, its writes succeed, and the history is not used up, which it is only where the limit is
   * at least 100; each refusal says which of these failed.
   */
  lemma UpdateSucceedsIff(s: Space, p: Path, data: Bytes, expected: Option<int>, l: Limits, io: Io)
    ensures var (t, outcome) := Update(s, p, data, expected, l, io);
            && (outcome.Done? <==>
                  && p in s.files && expected == Some(Current(s, p))
                  && Fits(s, p, data, l) && !HistoryUsedUp(s, p, io.now, l) && ReplaceWrites(io))
            && (outcome == Denied(PathNotFound) <==> p !in s.files)
            && (outcome == Denied(RevisionConflict) <==> p in s.files && expected != Some(Current(s, p)))
            && (outcome == Denied(QuotaExhausted) ==> !Fits(s, p, data, l) || HistoryUsedUp(s, p, io.now, l))
            && (outcome.Done? ==> t.files == s.files[p := data])
  {
    hide Fits, HistoryUsedUp, Replace, Current;
    if p in s.files {
      ReplaceSucceedsIff(s, p, data, l, io);
    }
  }

  /** Below a limit of 100 versions an update is never refused for its history. */
  lemma ShortHistoryNeverRefuses(s: Space, p: Path, data: Bytes, l: Limits, io: Io)
    requires p in s.files && l.maxRevisions < 100 && Fits(s, p, data, l) && ReplaceWrites(io)
    ensures Update(s, p, data, Some(Current(s, p)), l, io).1.Done?
  {
    UpdateSucceedsIff(s, p, data, Some(Current(s, p)), l, io);
  }

  /** What appending gives: a line break in between only where both sides lack one. */
  ghost predicate IsAppended(before: Bytes, addition: Bytes, after: Bytes) {
    if before == [] || before[|before| - 1] == 10 || (addition != [] && addition[0] == 10)
    then after == before + addition
    else after == before + [10] + addition
  }

  lemma JoinedIsAppended(before: Bytes, addition: Bytes)
    ensures IsAppended(before, addition, Joined(before, addition))
  {
    assert before + [] + addition == before + addition;
  }

  /**
   * An append onto a file succeeds if and only if the file is valid text, the joined text fits, its
   * writes succeed and the history is not used up; it asks for no revision. Elsewhere it is a create.
   */
  lemma AppendSucceedsIff(s: Space, p: Path, addition: Bytes, decodable: bool, l: Limits, io: Io, after: Bytes)
    requires p in s.files ==> IsAppended(s.files[p], addition, after)
    ensures var (t, outcome) := Append(s, p, addition, decodable, l, io);
            if p in s.files then
              && (outcome.Done? <==> decodable && Fits(s, p, after, l) && !HistoryUsedUp(s, p, io.now, l) && ReplaceWrites(io))
              && (outcome == Denied(UnsupportedFileType) <==> !decodable)
              && (outcome.Done? ==> t.files == s.files[p := after])
            else (t, outcome) == Create(s, p, addition, l, io)
  {
    hide Fits, HistoryUsedUp, Replace, Create, Joined;
    if p in s.files {
      JoinedIsAppended(s.files[p], addition);
      ReplaceSucceedsIff(s, p, after, l, io);
    }
  }

  /** A create succeeds if and only if the path is free, the bytes fit and its writes succeed. */
  lemma CreateSucceedsIff(s: Space, p: Path, data: Bytes, l: Limits, io: Io)
    ensures var (t, outcome) := Create(s, p, data, l, io);
            && (outcome.Done? <==> p !in s.files && Fits(s, p, data, l) && io.fileWrite && io.save(RecordState) && io.save(PruneAfter))
            && (outcome == Denied(AlreadyExists) <==> p in s.files)
            && (outcome == Denied(QuotaExhausted) <==> p !in s.files && !Fits(s, p, data, l))
            && (outcome.Done? ==> t.files == s.files[p := data])
  {
    hide Fits, QuotaAllows, PrunedVersions, Recorded;
    QuotaMeans(s, p, data, l);
  }

  /** The writes of a move, in their order; a snapshot of the destination only where there was a file. */
  ghost predicate MoveWrites(s: Space, dst: Path, io: Io) {
    && io.fileWrite && io.fileUnlink && (dst in s.files ==> io.save(Snapshot)) && io.save(RecordState)
    && io.save(SourceSnapshot) && io.save(SourceState) && io.save(SourcePrune) && io.save(PruneAfter)
  }

  /**
   * A move succeeds if and only if the source exists at the expected revision, the destination is free
   * or may be overwritten at its expected revision, the copy fits beside the source, and its writes succeed.
   */
  lemma MoveSucceedsIff(s: Space, op: Op, l: Limits)
    requires op.MoveOp?
    ensures var outcome := Apply(s, op, l).1;
            && (outcome.Done? <==>
                  && op.p in s.files && op.expected == Some(Current(s, op.p))
                  && (op.dst in s.files ==> op.overwrite && op.dstExpected == Some(Current(s, op.dst)))
                  && Fits(s, op.dst, s.files[op.p], l) && MoveWrites(s, op.dst, op.io))
            && (outcome == Denied(PathNotFound) <==> op.p !in s.files)
            && (outcome == Denied(AlreadyExists) <==>
                  op.p in s.files && op.expected == Some(Current(s, op.p)) && op.dst in s.files && !op.overwrite)
  {
    hide Fits, QuotaAllows, TryPrune, TryRecord, Current;
    if op.p in s.files {
      QuotaMeans(s, op.dst, s.files[op.p], l);
    }
  }

  /** The writes of a delete, in their order. */
  ghost predicate DeleteWrites(io: Io) {
    && io.save(TrashPruneBefore) && io.blobWrite && io.fileUnlink && io.save(Snapshot) && io.save(RecordState)
    && io.save(TrashIndex) && io.save(TrashPruneAfter) && io.save(PruneAfter)
  }

  /**
   * A delete succeeds if and only if the file exists at the expected revision, its writes succeed, and the
   * trash is not used up, which it is only where its limit is at least 200.
   */
  lemma DeleteSucceedsIff(s: Space, op: Op, l: Limits)
    requires op.DeleteOp?
    ensures var outcome := Apply(s, op, l).1;
            && (outcome.Done? <==>
                  && op.p in s.files && op.expected == Some(Current(s, op.p))
                  && !TrashUsedUp(s, op.io.now, l) && DeleteWrites(op.io))
            && (outcome == Denied(PathNotFound) <==> op.p !in s.files)
            && (outcome == Denied(RevisionConflict) <==> op.p in s.files && op.expected != Some(Current(s, op.p)))
            && (outcome == Denied(QuotaExhausted) ==> TrashUsedUp(s, op.io.now, l))
  {
    hide TrashUsedUp, TrashFull, TryPrune, TryRecord, PruneTrash, Current;
    TrashFullIff(s, op.io.now, l);
  }

  /** A restore takes its item out of the trash: asking for it again finds nothing. */
  lemma RestoreTakesTheItem(s: Space, p: Path, revision: nat, l: Limits, io: Io)
    requires TrashOk(s, l) && Restore(s, p, Some(revision), l, io).1.Done?
    ensures var t := Restore(s, p, Some(revision), l, io).0;
            && (forall x | x in t.trash :: x.path != p || x.revision != revision)
            && |t.trash| == |s.trash| - 1 && forall x | x in s.trash && (x.path != p || x.revision != revision) :: x in t.trash
  {
    hide Orderly, Apply, WithoutItem, Ids;
    var op := RestoreOp(p, Some(revision), io);
    assert Apply(s, op, l) == Restore(s, p, Some(revision), l, io) by { ApplyRestore(s, op, l); }
    RestoreShape(s, op, l);
    var i := FindTrash(s.trash, p, revision);
    WithoutItemFacts(s.trash, i.value);
    forall x | x in s.trash && x.path == p && x.revision == revision
      ensures x == s.trash[i.value]
    {
      OneItemPerRevision(s.trash, x, s.trash[i.value]);
    }
  }

  lemma ApplyRestore(s: Space, op: Op, l: Limits)
    requires op.RestoreOp?
    ensures Apply(s, op, l) == Restore(s, op.p, op.wanted, l, op.io)
  {
    hide Restore;
  }

  lemma OneItemPerRevision(ts: seq<TrashItem>, x: TrashItem, y: TrashItem)
    requires Orderly(ts) && x in ts && y in ts && x.path == y.path && x.revision == y.revision
    ensures x == y
  {
  }
}
