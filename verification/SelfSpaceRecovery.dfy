/**
 * Recovery in the self-file space (core/character_self.py): what a run keeps, what snapshots and
 * trash blobs hold, undoing a delete, and when a move keeps its bytes.
 */
module SelfSpaceRecovery {
  import opened Wrappers
  import opened SelfSpace
  import SelfSpaceStore
  import opened SelfSpaceRuns
  import opened SelfSpaceInvariants

  // ---- Whole runs ----

  ghost predicate SpaceOk(s: Space, l: Limits) {
    (forall p :: HistoryBounded(s, l, p)) && TrashOk(s, l) && FilesFit(s.files, l)
  }

  /** Each delete of the run brings an identifier its trash does not use, and gets its trash writes saved. */
  ghost predicate TrashSafe(s: Space, ops: seq<Op>, l: Limits) {
    forall i | 0 <= i < |ops| :: TrashSound(Run(s, ops[..i], l), ops[i])
  }

  lemma TrashSafeFront(s: Space, ops: seq<Op>, l: Limits)
    requires ops != [] && TrashSafe(s, ops, l)
    ensures TrashSafe(s, ops[..|ops| - 1], l) && TrashSound(Run(s, ops[..|ops| - 1], l), ops[|ops| - 1])
  {
    hide Run, TrashSound;
    var front := ops[..|ops| - 1];
    forall i | 0 <= i < |front|
      ensures TrashSound(Run(s, front[..i], l), front[i])
    {
      assert front[..i] == ops[..i];
    }
  }

  /** Over any sequence of operations the trash stays bounded and consistent. */
  lemma {:induction false} RunKeepsTrash(s: Space, ops: seq<Op>, l: Limits)
    requires TrashOk(s, l) && TrashSafe(s, ops, l)
    ensures TrashOk(Run(s, ops, l), l)
  {
    hide Step, TrashOk, TrashSafe, TrashSound;
    if ops != [] {
      TrashSafeFront(s, ops, l);
      RunKeepsTrash(s, ops[..|ops| - 1], l);
      StepKeepsTrash(Run(s, ops[..|ops| - 1], l), ops[|ops| - 1], l);
    }
  }

  /** Over any sequence of operations with their metadata saved, histories, trash and quotas stay bounded and consistent. */
  lemma {:induction false} RunKeepsSpaceOk(s: Space, ops: seq<Op>, l: Limits)
    requires SpaceOk(s, l) && Clamped(l) && AllSaved(ops) && TrashSafe(s, ops, l)
    ensures SpaceOk(Run(s, ops, l), l)
  {
    hide Step, HistoryBounded, TrashOk, FilesFit, TrashSafe;
    RunKeepsTrash(s, ops, l);
    RunKeepsQuota(s, ops, l);
    forall p
      ensures HistoryBounded(Run(s, ops, l), l, p)
    {
      RunKeepsHistory(s, ops, l, p);
    }
  }

  lemma {:induction false} RunKeepsHistory(s: Space, ops: seq<Op>, l: Limits, p: Path)
    requires HistoryBounded(s, l, p) && Clamped(l) && AllSaved(ops)
    ensures HistoryBounded(Run(s, ops, l), l, p)
  {
    hide Step, HistoryBounded;
    if ops != [] {
      RunKeepsHistory(s, ops[..|ops| - 1], l, p);
      StepKeepsHistory(Run(s, ops[..|ops| - 1], l), ops[|ops| - 1], l, p);
    }
  }

  // ---- What a snapshot holds ----

  /** A replacing update keeps the replaced bytes in the snapshot of the new revision. */
  lemma UpdateKeepsOldBytes(s: Space, p: Path, data: Bytes, expected: Option<int>, l: Limits, io: Io)
    requires Clamped(l) && HistoryBounded(s, l, p) && Update(s, p, data, expected, l, io).1.Done?
    ensures var (t, outcome) := Update(s, p, data, expected, l, io);
            && t.files == s.files[p := data]
            && outcome.revision == Current(t, p) == Current(s, p) + 1
            && outcome.revision in RevsOf(t, p).snapshots
            && RevsOf(t, p).snapshots[outcome.revision] == s.files[p]
  {
    hide HistoryOk, QuotaAllows, HistoryFull, Recorded, PrunedVersions;
    var s1 := PruneRevisions(s, p, io.now, l);
    var r, prior := RevsOf(s1, p), Some(s.files[p]);
    PrunedKeepsHistory(RevsOf(s, p), io.now, l, l.maxRevisions + 1);
    NewVersionSurvivesItsPrune(r, prior, io.now, l, l.maxRevisions);
    RecordedKeepsHistory(r, prior, io.now, l.maxRevisions);
    PrunedKeepsHistory(Recorded(r, prior, io.now), io.now, l, l.maxRevisions + 1);
  }

  /** A successful create adds exactly that file, and continues the revisions of an earlier file of that name. */
  lemma CreateAddsOneFile(s: Space, p: Path, data: Bytes, l: Limits, io: Io)
    requires Clamped(l) && HistoryBounded(s, l, p) && Create(s, p, data, l, io).1.Done?
    ensures var (t, outcome) := Create(s, p, data, l, io);
            && p !in s.files && t.files == s.files[p := data]
            && outcome.revision == Current(t, p) == Current(s, p) + 1
  {
    hide HistoryOk, QuotaAllows, Recorded, PrunedVersions;
    RecordedKeepsHistory(RevsOf(s, p), None, io.now, BoundOf(s, l, p));
    PrunedKeepsHistory(Recorded(RevsOf(s, p), None, io.now), io.now, l, BoundOf(s, l, p) + 1);
  }

  /**
   * An append to an existing file keeps its bytes in front and the addition behind, with a line break
   * between two non-empty texts, and at most one byte more.
   */
  lemma AppendKeepsBothTexts(s: Space, p: Path, addition: Bytes, decodable: bool, l: Limits, io: Io)
    requires p in s.files && Append(s, p, addition, decodable, l, io).1.Done?
    ensures var t := Append(s, p, addition, decodable, l, io).0;
            && p in t.files && t.files == s.files[p := t.files[p]]
            && var (before, after) := (s.files[p], t.files[p]);
               && |before| + |addition| <= |after| <= |before| + |addition| + 1
               && before <= after && after[|after| - |addition|..] == addition
               && (before != [] && addition != [] ==> after[|before| - 1] == NEWLINE || after[|before|] == NEWLINE)
  {
    hide QuotaAllows, Recorded, PrunedVersions, HistoryFull;
  }

  /**
   * A move between two paths leaves the source bytes at the destination and nothing at the source,
   * and keeps the destination's old bytes in the snapshot of its new revision.
   */
  lemma MoveKeepsBytes(s: Space, op: Op, l: Limits)
    requires op.MoveOp? && op.p != op.dst && Clamped(l)
    requires HistoryBounded(s, l, op.dst) && Apply(s, op, l).1.Done?
    ensures var (t, outcome) := Apply(s, op, l);
            && t.files == s.files[op.dst := s.files[op.p]] - {op.p}
            && outcome.revision == Current(t, op.dst) == Current(s, op.dst) + 1
            && (op.dst in s.files ==> outcome.revision in RevsOf(t, op.dst).snapshots
                                      && RevsOf(t, op.dst).snapshots[outcome.revision] == s.files[op.dst])
  {
    hide HistoryOk, QuotaAllows, RevisionMatches, Recorded, PrunedVersions;
    var io, r := op.io, RevsOf(s, op.dst);
    var b := l.maxRevisions + (if op.dst in s.files then 1 else 0);
    RecordedKeepsHistory(r, Content(s, op.dst), io.now, b);
    PrunedKeepsHistory(Recorded(r, Content(s, op.dst), io.now), io.now, l, b + 1);
    if op.dst in s.files {
      NewVersionSurvivesItsPrune(r, Content(s, op.dst), io.now, l, b);
    }
  }

  /** The other half of a move: the source path gets a new revision too, whose snapshot holds the moved bytes. */
  lemma MoveRetiresSource(s: Space, op: Op, l: Limits)
    requires op.MoveOp? && op.p != op.dst && Clamped(l)
    requires HistoryBounded(s, l, op.p) && Apply(s, op, l).1.Done?
    ensures var t := Step(s, op, l);
            && Content(t, op.p) == None && Current(t, op.p) == Current(s, op.p) + 1
            && Current(t, op.p) in RevsOf(t, op.p).snapshots
            && RevsOf(t, op.p).snapshots[Current(t, op.p)] == s.files[op.p]
  {
    hide HistoryOk, QuotaAllows, RevisionMatches, Recorded, PrunedVersions;
    var io, r := op.io, RevsOf(s, op.p);
    var b := l.maxRevisions + 1;
    RecordedKeepsHistory(r, Content(s, op.p), io.now, b);
    PrunedKeepsHistory(Recorded(r, Content(s, op.p), io.now), io.now, l, b + 1);
    NewVersionSurvivesItsPrune(r, Content(s, op.p), io.now, l, b);
  }

  /** A successful move keeps the source bytes at the destination exactly when the two paths differ. */
  lemma MoveKeepsBytesIff(s: Space, op: Op, l: Limits)
    requires op.MoveOp? && Apply(s, op, l).1.Done?
    ensures Content(Step(s, op, l), op.dst) == Content(s, op.p) <==> op.p != op.dst
  {
    hide QuotaAllows, RevisionMatches, Recorded, PrunedVersions;
  }

  /** Moving a file onto itself is accepted, and removes it. */
  lemma SelfMoveLosesTheFile() returns (s: Space, op: Op, l: Limits)
    ensures op.MoveOp? && op.p == op.dst && Sound(op) && Apply(s, op, l).1.Done?
    ensures op.p in s.files && op.p !in Step(s, op, l).files
  {
    hide Recorded, PrunedVersions;
    l := Limits(10, 10, 10, 5, 86400.0, 5, 86400.0);
    s := Space(map["a" := []], map[], [], map[]);
    op := MoveOp("a", "a", Some(0), true, Some(0), Io(1.0, true, true, true, true, w => true));
    SelfSpaceStore.TotalRemove(s.files, "a");
    assert s.files - {"a"} == map[];
  }

  // ---- What the trash holds ----

  /** The bytes the trash would give back for this path and revision. */
  ghost function TrashBytes(s: Space, p: Path, revision: nat): Option<Bytes> {
    var i := FindTrash(s.trash, p, revision);
    if i.Some? && s.trash[i.value].id in s.blobs then Some(s.blobs[s.trash[i.value].id]) else None
  }

  predicate RestoreSaved(io: Io) {
    io.save(RecordState) && io.save(TrashIndex)
  }

  /** A restore succeeds exactly when the trash has the item, the path is free and the storage allows it. */
  lemma RestoreSucceedsIff(s: Space, p: Path, revision: nat, l: Limits, io: Io)
    ensures Restore(s, p, Some(revision), l, io).1.Done? <==>
            && TrashBytes(s, p, revision).Some? && p !in s.files
            && QuotaAllows(s, p, TrashBytes(s, p, revision).value, false, l) && io.fileWrite && RestoreSaved(io)
    ensures Restore(s, p, Some(revision), l, io).1.Done? ==>
            Restore(s, p, Some(revision), l, io).0.files == s.files[p := TrashBytes(s, p, revision).value]
  {
    hide Recorded, WithoutItem, QuotaAllows;
  }

  lemma FoundInOrderly(ts: seq<TrashItem>, item: TrashItem)
    requires Orderly(ts) && item in ts
    ensures var i := FindTrash(ts, item.path, item.revision); i.Some? && ts[i.value] == item
  {
    hide FindTrash;
    var k :| 0 <= k < |ts| && ts[k] == item;
  }

  /** Two consistent trashes that hold the same item give back the bytes of its blob. */
  lemma SameItemSameBytes(s: Space, t: Space, l: Limits, p: Path, revision: nat)
    requires TrashOk(s, l) && TrashOk(t, l)
    requires forall x | x in t.trash && x.path == p && x.revision == revision ::
               x in s.trash && (x.id in s.blobs && x.id in t.blobs ==> t.blobs[x.id] == s.blobs[x.id])
    ensures TrashBytes(t, p, revision).None? || TrashBytes(t, p, revision) == TrashBytes(s, p, revision)
  {
    hide FindTrash;
    var i := FindTrash(t.trash, p, revision);
    if i.Some? {
      var x := t.trash[i.value];
      assert x in t.trash && x in s.trash && x.id in Ids(s.trash);
      FoundInOrderly(s.trash, x);
    }
  }

  /** What a step adds to the trash is of a higher revision than any of its path before. */
  lemma StepItems(s: Space, op: Op, l: Limits, x: TrashItem)
    requires TrashSound(s, op) && TrashOk(s, l) && x in Step(s, op, l).trash
    ensures x in s.trash || (op.DeleteOp? && x.path == op.p && x.revision > Current(s, op.p))
  {
    hide Orderly, Apply, PruneTrash, WithTrashed, KeptTrash, WithoutItem;
    if op.DeleteOp? {
      DeleteShape(s, op, l);
      PruneDropsOnly(s, op.io.now, l);
      if op.p in s.files {
        var s3 := WithTrashed(s, op, l);
        WithTrashedFacts(s, op, l);
        PruneDropsOnly(s3, op.io.now, l);
        PruneGrows(PruneTrash(s3, op.io.now, l), op.p, op.io.now, l, op.io.save(PruneAfter), op.p);
      }
    } else if op.RestoreOp? {
      RestoreShape(s, op, l);
      if Apply(s, op, l).1.Done? {
        WithoutItemFacts(s.trash, FindTrash(s.trash, op.p, op.wanted.value).value);
      }
    } else {
      WritesLeaveTrash(s, op, l);
    }
  }

  lemma PruneDropsOnly(s: Space, now: real, l: Limits)
    requires Orderly(s.trash)
    ensures var t := PruneTrash(s, now, l);
            && (forall x | x in t.trash :: x in s.trash) && forall k | k in t.blobs :: k in s.blobs && t.blobs[k] == s.blobs[k]
  {
    hide Orderly, KeptTrash, Ids;
    KeptTrashFacts(s.trash, now, l);
  }

  /** No operation rewrites a blob. */
  lemma StepBlobs(s: Space, op: Op, l: Limits, k: nat)
    requires TrashSound(s, op) && TrashOk(s, l) && k in s.blobs && k in Step(s, op, l).blobs
    ensures Step(s, op, l).blobs[k] == s.blobs[k]
  {
    hide Orderly, Apply, PruneTrash, WithTrashed, WithoutItem;
    if op.DeleteOp? {
      DeleteShape(s, op, l);
      PruneDropsOnly(s, op.io.now, l);
      if op.p in s.files {
        var s3 := WithTrashed(s, op, l);
        WithTrashedFacts(s, op, l);
        PruneDropsOnly(s3, op.io.now, l);
        PruneGrows(PruneTrash(s3, op.io.now, l), op.p, op.io.now, l, op.io.save(PruneAfter), op.p);
      }
    } else if op.RestoreOp? {
      RestoreShape(s, op, l);
    } else {
      WritesLeaveTrash(s, op, l);
    }
  }

  /** No operation changes the bytes the trash holds for a revision already taken; it can only drop them. */
  lemma StepKeepsTrashBytes(s: Space, op: Op, l: Limits, p: Path, revision: nat)
    requires TrashSound(s, op) && TrashOk(s, l) && revision <= Current(s, p)
    ensures TrashBytes(Step(s, op, l), p, revision).None? || TrashBytes(Step(s, op, l), p, revision) == TrashBytes(s, p, revision)
  {
    hide Step, TrashBytes, TrashOk;
    var t := Step(s, op, l);
    StepKeepsTrash(s, op, l);
    forall x | x in t.trash && x.path == p && x.revision == revision
      ensures x in s.trash && (x.id in s.blobs && x.id in t.blobs ==> t.blobs[x.id] == s.blobs[x.id])
    {
      StepItems(s, op, l, x);
      if x.id in s.blobs && x.id in t.blobs {
        StepBlobs(s, op, l, x.id);
      }
    }
    SameItemSameBytes(s, t, l, p, revision);
  }

  lemma {:induction false} RunKeepsTrashBytes(s: Space, ops: seq<Op>, l: Limits, p: Path, revision: nat)
    requires TrashSafe(s, ops, l) && TrashOk(s, l) && revision <= Current(s, p)
    ensures TrashBytes(Run(s, ops, l), p, revision).None? || TrashBytes(Run(s, ops, l), p, revision) == TrashBytes(s, p, revision)
  {
    hide Step, TrashOk, TrashSafe, TrashSound, TrashBytes, Current;
    if ops != [] {
      var front, op := ops[..|ops| - 1], ops[|ops| - 1];
      TrashSafeFront(s, ops, l);
      RunKeepsTrashBytes(s, front, l, p, revision);
      RunKeepsTrash(s, front, l);
      RunRaisesRevision(s, front, l, p);
      GrowsIsMonotone(s, Run(s, front, l), p);
      StepKeepsTrashBytes(Run(s, front, l), op, l, p, revision);
    }
  }

  // ---- How long the trash keeps an item ----

  /** `item` is one of the last `n` items. */
  ghost predicate AmongLast(ts: seq<TrashItem>, item: TrashItem, n: nat) {
    exists i :: 0 <= i < |ts| && ts[i] == item && |ts| - i <= n
  }

  /** A prune keeps an unexpired item where it was from the end, within the limit. */
  lemma KeptAmongLast(ts: seq<TrashItem>, item: TrashItem, n: nat, now: real, l: Limits)
    requires AmongLast(ts, item, n) && !Expired(item, now, l.trashTtl) && n <= l.maxTrash
    ensures AmongLast(KeptTrash(ts, now, l), item, n)
  {
    hide FreshItems;
    var i :| 0 <= i < |ts| && ts[i] == item && |ts| - i <= n;
    FreshItemStays(ts, now, l.trashTtl, i);
    var young, kept := FreshItems(ts, now, l.trashTtl), KeptTrash(ts, now, l);
    var k :| 0 <= k < |young| && young[k] == item && |young| - k <= |ts| - i;
    var dropped := |young| - |kept|;
    assert kept == young[dropped..];
    assert kept[k - dropped] == item;
  }

  lemma AppendAmongLast(ts: seq<TrashItem>, item: TrashItem, n: nat, last: TrashItem)
    requires AmongLast(ts, item, n)
    ensures AmongLast(ts, item, n + 1) && AmongLast(ts + [last], item, n + 1)
  {
    var i :| 0 <= i < |ts| && ts[i] == item && |ts| - i <= n;
    assert (ts + [last])[i] == item;
  }

  lemma WithoutAmongLast(ts: seq<TrashItem>, item: TrashItem, n: nat, i: nat)
    requires AmongLast(ts, item, n) && i < |ts| && ts[i] != item
    ensures AmongLast(WithoutItem(ts, i), item, n)
  {
    var k :| 0 <= k < |ts| && ts[k] == item && |ts| - k <= n;
    assert WithoutItem(ts, i)[if k < i then k else k - 1] == item;
  }

  /** A delete moves an unexpired item at most one place away from the end. */
  lemma DeleteKeepsItem(s: Space, op: Op, l: Limits, item: TrashItem, n: nat)
    requires op.DeleteOp? && TrashSaved(op.io) && !Expired(item, op.io.now, l.trashTtl)
    requires AmongLast(s.trash, item, n) && n + 1 <= l.maxTrash
    ensures AmongLast(Step(s, op, l).trash, item, n + 1)
  {
    hide Apply, AmongLast, KeptTrash, Record, Expired;
    DeleteShape(s, op, l);
    KeptAmongLast(s.trash, item, n, op.io.now, l);
    AppendAmongLast(s.trash, item, n, item);
    AppendAmongLast(KeptTrash(s.trash, op.io.now, l), item, n, item);
    if op.p in s.files {
      var s1, s3 := PruneTrash(s, op.io.now, l), WithTrashed(s, op, l);
      TrashedTrash(s, op, l);
      var last := s3.trash[|s3.trash| - 1];
      AppendAmongLast(s1.trash, item, n, last);
      KeptAmongLast(s3.trash, item, n + 1, op.io.now, l);
    }
  }

  lemma TrashedTrash(s: Space, op: Op, l: Limits)
    requires op.DeleteOp? && op.p in s.files
    ensures var s1, s3 := PruneTrash(s, op.io.now, l), WithTrashed(s, op, l);
            && s3.trash == s1.trash + [TrashItem(op.id, op.p, Current(s3, op.p), op.io.now)]
            && Trashed(s, op, l).trash == KeptTrash(s3.trash, op.io.now, l)
  {
    hide Recorded, PrunedVersions, KeptTrash, Ids;
  }

  /** The operation leaves `item` alone: a delete does not find it expired, and a restore does not take it. */
  ghost predicate Spares(s: Space, op: Op, item: TrashItem, l: Limits) {
    && (op.DeleteOp? ==> !Expired(item, op.io.now, l.trashTtl))
    && (op.RestoreOp? && op.p == item.path && op.wanted == Some(item.revision) ==> Apply(s, op, l).1.Denied?)
  }

  ghost predicate RunSpares(s: Space, ops: seq<Op>, item: TrashItem, l: Limits) {
    forall i | 0 <= i < |ops| :: Spares(Run(s, ops[..i], l), ops[i], item, l)
  }

  lemma RunSparesFront(s: Space, ops: seq<Op>, item: TrashItem, l: Limits)
    requires ops != [] && RunSpares(s, ops, item, l)
    ensures var n := |ops| - 1; RunSpares(s, ops[..n], item, l) && Spares(Run(s, ops[..n], l), ops[n], item, l)
  {
    hide Run, Spares;
    var front := ops[..|ops| - 1];
    forall i | 0 <= i < |front|
      ensures Spares(Run(s, front[..i], l), front[i], item, l)
    {
      assert front[..i] == ops[..i];
    }
  }

  function Deletes(ops: seq<Op>): (n: nat) {
    if ops == [] then 0 else Deletes(ops[..|ops| - 1]) + (if ops[|ops| - 1].DeleteOp? then 1 else 0)
  }

  lemma StepKeepsItem(s: Space, op: Op, l: Limits, item: TrashItem, n: nat)
    requires TrashSound(s, op) && Spares(s, op, item, l) && AmongLast(s.trash, item, n)
    requires op.DeleteOp? ==> n + 1 <= l.maxTrash
    ensures AmongLast(Step(s, op, l).trash, item, if op.DeleteOp? then n + 1 else n)
  {
    hide Apply, AmongLast, WithoutItem, Expired;
    if op.DeleteOp? {
      DeleteKeepsItem(s, op, l, item, n);
    } else if op.RestoreOp? {
      RestoreShape(s, op, l);
      if Apply(s, op, l).1.Done? {
        WithoutAmongLast(s.trash, item, n, FindTrash(s.trash, op.p, op.wanted.value).value);
      }
    } else {
      WritesLeaveTrash(s, op, l);
    }
  }

  /** Over a run that spares it, an item leaves the trash only when `maxTrash` later deletes displace it. */
  lemma {:induction false} RunKeepsItem(s: Space, ops: seq<Op>, l: Limits, item: TrashItem, n: nat)
    requires TrashSafe(s, ops, l) && AmongLast(s.trash, item, n) && n + Deletes(ops) <= l.maxTrash
    requires RunSpares(s, ops, item, l)
    ensures AmongLast(Run(s, ops, l).trash, item, n + Deletes(ops))
  {
    hide Step, TrashSafe, TrashSound, AmongLast, Spares, RunSpares;
    if ops != [] {
      TrashSafeFront(s, ops, l);
      RunSparesFront(s, ops, item, l);
      RunKeepsItem(s, ops[..|ops| - 1], l, item, n);
      StepKeepsItem(Run(s, ops[..|ops| - 1], l), ops[|ops| - 1], l, item, n + Deletes(ops[..|ops| - 1]));
    }
  }

  // ---- Undoing a delete ----

  /** A successful delete leaves its bytes in the trash, in the last item, under the revision it returns. */
  lemma DeleteFillsTrash(s: Space, op: Op, l: Limits)
    requires op.DeleteOp? && FreshId(s, op) && TrashOk(s, l) && Clamped(l) && Apply(s, op, l).1.Done?
    ensures var (t, outcome) := Apply(s, op, l);
            && op.p in s.files && t.files == s.files - {op.p}
            && outcome.revision == Current(t, op.p) > Current(s, op.p)
            && AmongLast(t.trash, TrashItem(op.id, op.p, outcome.revision, op.io.now), 1)
            && TrashOk(t, l) && TrashBytes(t, op.p, outcome.revision) == Some(s.files[op.p])
  {
    hide Apply, TrashOk, WithTrashed, PruneTrash, KeptTrash, AmongLast, Current;
    DoneWasSaved(s, op, l);
    DoneIsTrashed(s, op, l);
    DeleteFiles(s, op.p, op.expected, op.id, l, op.io);
    StepRaisesRevision(s, op, l, op.p);
    TrashedIsOk(s, op, l);
    NewItemStays(s, op, l);
  }

  lemma DoneIsTrashed(s: Space, op: Op, l: Limits)
    requires op.DeleteOp? && Apply(s, op, l).1.Done?
    ensures op.p in s.files && Step(s, op, l) == Trashed(s, op, l) && Apply(s, op, l) == Delete(s, op.p, op.expected, op.id, l, op.io)
  {
    hide Trashed;
    DoneWasSaved(s, op, l);
    DeleteShape(s, op, l);
  }

  lemma NewItemStays(s: Space, op: Op, l: Limits)
    requires op.DeleteOp? && op.p in s.files && FreshId(s, op) && TrashOk(s, l) && Clamped(l)
    ensures var t := Trashed(s, op, l);
            var item := TrashItem(op.id, op.p, Current(t, op.p), op.io.now);
            && TrashOk(t, l) && AmongLast(t.trash, item, 1)
            && TrashBytes(t, op.p, item.revision) == Some(s.files[op.p])
  {
    hide Orderly, WithTrashed, PruneTrash, FindTrash;
    var now, s3 := op.io.now, WithTrashed(s, op, l);
    var s4, t := PruneTrash(s3, now, l), Trashed(s, op, l);
    WithTrashedFacts(s, op, l);
    TrashedTrash(s, op, l);
    TrashedIsOk(s, op, l);
    PrunedTrashShape(s3, now, l);
    SameRevisions(s3, s4, op.p);
    PruneGrows(s4, op.p, now, l, op.io.save(PruneAfter), op.p);
    var item := TrashItem(op.id, op.p, Current(t, op.p), now);
    assert s3.trash[|s3.trash| - 1] == item;
    assert AmongLast(s3.trash, item, 1);
    KeptAmongLast(s3.trash, item, 1, now, l);
    PruneDropsOnly(s3, now, l);
    assert item in t.trash && item.id in Ids(t.trash);
    FoundInOrderly(t.trash, item);
  }

  /**
   * Delete and restore are inverse over any run between them. If the restore of the returned revision
   * succeeds, the file has exactly the deleted bytes again. And it does succeed whenever the path is
   * free and quotas and writes allow it, as long as no delete of the run finds the item expired, fewer
   * than `maxTrash` deletes came after it, and no restore took it.
   */
  lemma DeleteRestoreRoundTrip(s: Space, op: Op, ops: seq<Op>, l: Limits, io: Io)
    requires op.DeleteOp? && FreshId(s, op) && TrashOk(s, l) && Clamped(l)
    requires TrashSafe(Step(s, op, l), ops, l)
    ensures var (t, outcome) := Apply(s, op, l);
            outcome.Done? ==>
              var u, revision := Run(t, ops, l), outcome.revision;
              var item := TrashItem(op.id, op.p, revision, op.io.now);
              var (back, again) := Restore(u, op.p, Some(revision), l, io);
              && op.p in s.files
              && (again.Done? ==> back.files == u.files[op.p := s.files[op.p]])
              && (Deletes(ops) < l.maxTrash && RunSpares(t, ops, item, l) ==>
                    && TrashBytes(u, op.p, revision) == Some(s.files[op.p])
                    && (again.Done? <==>
                          op.p !in u.files && QuotaAllows(u, op.p, s.files[op.p], false, l) && io.fileWrite && RestoreSaved(io)))
  {
    hide Apply, TrashOk, TrashSafe, TrashBytes, Restore, Run, AmongLast, RunSpares, QuotaAllows, Current;
    if Apply(s, op, l).1.Done? {
      var t, revision := Step(s, op, l), Apply(s, op, l).1.revision;
      var u, item := Run(t, ops, l), TrashItem(op.id, op.p, revision, op.io.now);
      DeleteFillsTrash(s, op, l);
      RunKeepsTrash(t, ops, l);
      RunKeepsTrashBytes(t, ops, l, op.p, revision);
      RestoreSucceedsIff(u, op.p, revision, l, io);
      if Deletes(ops) < l.maxTrash && RunSpares(t, ops, item, l) {
        RunKeepsItem(t, ops, l, item, 1);
        ItemHasBytes(u, l, item, 1 + Deletes(ops));
      }
    }
  }

  lemma ItemHasBytes(s: Space, l: Limits, item: TrashItem, n: nat)
    requires TrashOk(s, l) && AmongLast(s.trash, item, n)
    ensures TrashBytes(s, item.path, item.revision).Some?
  {
    hide Orderly;
    assert item in s.trash && item.id in Ids(s.trash);
    FoundInOrderly(s.trash, item);
  }

  /** Restoring at once succeeds whenever the storage writes do. */
  lemma ImmediateRestoreSucceeds(s: Space, op: Op, l: Limits, io: Io)
    requires op.DeleteOp? && FreshId(s, op) && TrashOk(s, l) && Clamped(l) && Apply(s, op, l).1.Done?
    requires FilesFit(s.files, l) && io.fileWrite && RestoreSaved(io)
    ensures Restore(Step(s, op, l), op.p, Some(Apply(s, op, l).1.revision), l, io).1.Done?
  {
    hide Apply, TrashOk, TrashBytes, Restore, Current, AmongLast;
    var t := Step(s, op, l);
    DeleteFillsTrash(s, op, l);
    RestoreSucceedsIff(t, op.p, Apply(s, op, l).1.revision, l, io);
    SelfSpaceStore.TotalRemove(s.files, op.p);
    RemoveShrinks(s.files, op.p);
  }
}
