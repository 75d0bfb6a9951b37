/**
 * Runs of operations on the self-file space (core/character_self.py), and what they do to revisions:
 * revisions only grow, exactly which failures give one revision two contents, and so what an update
 * or delete with an expected revision acts on.
 */
module SelfSpaceRuns {
  import opened Wrappers
  import opened SelfSpace

  datatype Op =
    | CreateOp(p: Path, data: Bytes, io: Io)
    | UpdateOp(p: Path, data: Bytes, expected: Option<int>, io: Io)
    | AppendOp(p: Path, data: Bytes, decodable: bool, io: Io)
    | MoveOp(p: Path, dst: Path, expected: Option<int>, overwrite: bool, dstExpected: Option<int>, io: Io)
    | DeleteOp(p: Path, expected: Option<int>, id: nat, io: Io)
    | RestoreOp(p: Path, wanted: Option<int>, io: Io)

  ghost function Apply(s: Space, op: Op, l: Limits): (Space, Outcome) {
    match op
    case CreateOp(p, data, io) => Create(s, p, data, l, io)
    case UpdateOp(p, data, expected, io) => Update(s, p, data, expected, l, io)
    case AppendOp(p, data, decodable, io) => Append(s, p, data, decodable, l, io)
    case MoveOp(p, dst, expected, overwrite, dstExpected, io) => Move(s, p, dst, expected, overwrite, dstExpected, l, io)
    case DeleteOp(p, expected, id, io) => Delete(s, p, expected, id, l, io)
    case RestoreOp(p, wanted, io) => Restore(s, p, wanted, l, io)
  }

  ghost function Step(s: Space, op: Op, l: Limits): Space {
    Apply(s, op, l).0
  }

  ghost function Run(s: Space, ops: seq<Op>, l: Limits): Space {
    if ops == [] then s else Step(Run(s, ops[..|ops| - 1], l), ops[|ops| - 1], l)
  }

  /** Every metadata write succeeds. */
  ghost predicate Saved(io: Io) {
    forall w: Write :: io.save(w)
  }

  /** Every metadata write of the operation succeeds, and so does undoing a half-done move. */
  ghost predicate Sound(op: Op) {
    Saved(op.io) && op.io.rollback
  }

  /** The paths an operation writes when it succeeds. */
  predicate Writes(op: Op, p: Path) {
    p == op.p || (op.MoveOp? && p == op.dst)
  }

  /** The operation returns the new revision of `p`; of a file moved onto itself it returns an older one. */
  predicate Returns(op: Op, p: Path) {
    if op.MoveOp? then p == op.dst != op.p else p == op.p
  }

  // ---- Revisions only grow ----

  /** The snapshots `t` has of revisions up to `upTo` are snapshots `r` had, with the same bytes. */
  ghost predicate SameSnapshots(r: RevState, t: RevState, upTo: nat) {
    forall k | k <= upTo && k in t.snapshots :: k in r.snapshots && t.snapshots[k] == r.snapshots[k]
  }

  /** `t` keeps or raises the revision of `s`, and rewrites no snapshot. */
  ghost predicate Grows(s: Space, t: Space, p: Path) {
    Current(t, p) >= Current(s, p) && SameSnapshots(RevsOf(s, p), RevsOf(t, p), Current(s, p))
  }

  /** Beyond that, the content differs only if the revision was raised. */
  ghost predicate Advances(s: Space, t: Space, p: Path) {
    Grows(s, t, p) && (Current(t, p) == Current(s, p) ==> Content(t, p) == Content(s, p))
  }

  lemma GrowsChain(s: Space, m: Space, t: Space, p: Path)
    requires Grows(s, m, p) && Grows(m, t, p)
    ensures Grows(s, t, p)
  {
  }

  lemma RecordGrows(s: Space, q: Path, previous: Option<Bytes>, io: Io, snapshot: Write, state: Write, p: Path)
    ensures var t := TryRecord(s, q, previous, io, snapshot, state);
            && Grows(s, t, p) && t.files == s.files && t.trash == s.trash && t.blobs == s.blobs
            && (if p == q && Recordable(previous, io, snapshot, state) then Current(t, p) > Current(s, p)
                else Current(t, p) == Current(s, p))
            && (p != q ==> RevsOf(t, p) == RevsOf(s, p))
  {
  }

  lemma PruneGrows(s: Space, q: Path, now: real, l: Limits, ok: bool, p: Path)
    ensures var t := TryPrune(s, q, now, l, ok);
            && Grows(s, t, p) && t.files == s.files && t.trash == s.trash && t.blobs == s.blobs
            && Current(t, p) == Current(s, p) && (p != q ==> RevsOf(t, p) == RevsOf(s, p))
  {
  }

  lemma PruneTrashShape(s: Space, now: real, l: Limits, ok: bool)
    ensures var t := TryPruneTrash(s, now, l, ok); t.files == s.files && t.revs == s.revs && t.blobs.Keys <= s.blobs.Keys
  {
  }

  // ---- When one revision has two contents ----

  ghost predicate CreateSplits(s: Space, p: Path, data: Bytes, l: Limits, io: Io) {
    p !in s.files && QuotaAllows(s, p, data, false, l) && io.fileWrite && !io.save(RecordState)
  }

  ghost predicate ReplaceSplits(s: Space, p: Path, data: Bytes, l: Limits, io: Io)
    requires p in s.files
  {
    && QuotaAllows(s, p, data, true, l) && io.save(PruneBefore)
    && !HistoryFull(PruneRevisions(s, p, io.now, l), p, l) && io.fileWrite
    && !Recordable(Some(s.files[p]), io, Snapshot, RecordState) && data != s.files[p]
  }

  /** A move passes every check before its first write. */
  ghost predicate MoveAllowed(s: Space, op: Op, l: Limits)
    requires op.MoveOp?
  {
    && op.p in s.files && RevisionMatches(s, op.p, op.expected)
    && (op.dst in s.files ==> op.overwrite && RevisionMatches(s, op.dst, op.dstExpected))
    && QuotaAllows(s, op.dst, s.files[op.p], op.dst in s.files, l)
  }

  /**
   * The source cannot be removed, nor the copy undone, and the copy differs from what was there; or a
   * record fails after the source was removed.
   */
  ghost predicate MoveSplits(s: Space, op: Op, l: Limits, p: Path)
    requires op.MoveOp?
  {
    var io, before := op.io, Content(s, op.dst);
    && MoveAllowed(s, op, l) && io.fileWrite
    && if !io.fileUnlink then p == op.dst && !io.rollback && before != Some(s.files[op.p])
       else if !Recordable(before, io, Snapshot, RecordState) then p == op.p || (p == op.dst && before != Some(s.files[op.p]))
       else p == op.p != op.dst && !Recordable(Some(s.files[op.p]), io, SourceSnapshot, SourceState)
  }

  ghost predicate DeleteSplits(s: Space, op: Op, l: Limits)
    requires op.DeleteOp?
  {
    var io := op.io;
    && op.p in s.files && RevisionMatches(s, op.p, op.expected)
    && io.save(TrashPruneBefore) && !TrashFull(PruneTrash(s, io.now, l), l) && io.blobWrite && io.fileUnlink
    && !Recordable(Some(s.files[op.p]), io, Snapshot, RecordState)
  }

  ghost predicate RestoreSplits(s: Space, op: Op, l: Limits)
    requires op.RestoreOp?
  {
    && op.wanted.Some? && op.p !in s.files
    && var i := FindTrash(s.trash, op.p, op.wanted.value);
       && i.Some? && s.trash[i.value].id in s.blobs
       && QuotaAllows(s, op.p, s.blobs[s.trash[i.value].id], false, l)
       && op.io.fileWrite && !op.io.save(RecordState)
  }

  /**
   * The operation changes the content of `p` without a new revision: it passes its checks and changes
   * the files, and then a revision record or the undo of a move fails.
   */
  ghost predicate SplitsAt(s: Space, op: Op, l: Limits, p: Path) {
    match op
    case CreateOp(q, data, io) => p == q && CreateSplits(s, q, data, l, io)
    case UpdateOp(q, data, expected, io) =>
      p == q && q in s.files && RevisionMatches(s, q, expected) && ReplaceSplits(s, q, data, l, io)
    case AppendOp(q, data, decodable, io) =>
      p == q && if q in s.files then decodable && ReplaceSplits(s, q, Joined(s.files[q], data), l, io)
                else CreateSplits(s, q, data, l, io)
    case MoveOp(_, _, _, _, _, _) => MoveSplits(s, op, l, p)
    case DeleteOp(q, _, _, _) => p == q && DeleteSplits(s, op, l)
    case RestoreOp(q, _, _) => p == q && RestoreSplits(s, op, l)
  }

  lemma CreateEffect(s: Space, q: Path, data: Bytes, l: Limits, io: Io, p: Path)
    ensures var (t, outcome) := Create(s, q, data, l, io);
            && Grows(s, t, p)
            && (Advances(s, t, p) <==> !(p == q && CreateSplits(s, q, data, l, io)))
            && (p == q && outcome.Done? ==> outcome.revision == Current(t, p) > Current(s, p))
  {
    hide TryRecord, TryPrune, QuotaAllows, Current, SameSnapshots;
    var written := s.(files := s.files[q := data]);
    var s2 := TryRecord(written, q, None, io, Snapshot, RecordState);
    RecordGrows(written, q, None, io, Snapshot, RecordState, p);
    PruneGrows(s2, q, io.now, l, io.save(PruneAfter), p);
    SameRevisions(s, written, p);
    SameRevisions(s, s, p);
    GrowsChain(s, written, s2, p);
    GrowsChain(s, s2, TryPrune(s2, q, io.now, l, io.save(PruneAfter)), p);
  }

  /** A change of files, trash or blobs alone moves no revision. */
  lemma SameRevisions(s: Space, t: Space, p: Path)
    requires t.revs == s.revs
    ensures Grows(s, t, p) && Current(t, p) == Current(s, p)
  {
  }

  lemma ReplaceEffect(s: Space, q: Path, data: Bytes, l: Limits, io: Io, p: Path)
    requires q in s.files
    ensures var (t, outcome) := Replace(s, q, data, l, io);
            && Grows(s, t, p)
            && (Advances(s, t, p) <==> !(p == q && ReplaceSplits(s, q, data, l, io)))
            && (p == q && outcome.Done? ==> outcome.revision == Current(t, p) > Current(s, p))
  {
    hide TryRecord, QuotaAllows, HistoryFull, Current, SameSnapshots, PruneRevisions;
    var s1 := TryPrune(s, q, io.now, l, io.save(PruneBefore));
    PruneGrows(s, q, io.now, l, io.save(PruneBefore), p);
    assert io.save(PruneBefore) ==> s1 == PruneRevisions(s, q, io.now, l);
    hide TryPrune;
    var written, previous := s1.(files := s1.files[q := data]), Some(s.files[q]);
    SameRevisions(s1, written, p);
    SameRevisions(s, s, p);
    var s2 := TryRecord(written, q, previous, io, Snapshot, RecordState);
    RecordGrows(written, q, previous, io, Snapshot, RecordState, p);
    PruneGrows(s2, q, io.now, l, io.save(PruneAfter), p);
    GrowsChain(s, s1, written, p);
    GrowsChain(s, written, s2, p);
    GrowsChain(s, s2, TryPrune(s2, q, io.now, l, io.save(PruneAfter)), p);
  }

  lemma MoveEffect(s: Space, op: Op, l: Limits, p: Path)
    requires op.MoveOp?
    ensures var (t, outcome) := Apply(s, op, l);
            && Grows(s, t, p)
            && (Advances(s, t, p) <==> !MoveSplits(s, op, l, p))
            && (Writes(op, p) && outcome.Done? ==> Current(t, p) > Current(s, p))
            && (Returns(op, p) && outcome.Done? ==> outcome.revision == Current(t, p))
  {
    hide TryRecord, TryPrune, QuotaAllows, RevisionMatches, Current, SameSnapshots;
    var io := op.io;
    SameRevisions(s, s, p);
    if MoveAllowed(s, op, l) {
      var data, before := s.files[op.p], Content(s, op.dst);
      var copied := s.(files := s.files[op.dst := data]);
      var moved := s.(files := copied.files - {op.p});
      SameRevisions(s, copied, p);
      SameRevisions(s, moved, p);
      var s2 := TryRecord(moved, op.dst, before, io, Snapshot, RecordState);
      RecordGrows(moved, op.dst, before, io, Snapshot, RecordState, p);
      var s3 := TryRecord(s2, op.p, Some(data), io, SourceSnapshot, SourceState);
      RecordGrows(s2, op.p, Some(data), io, SourceSnapshot, SourceState, p);
      var s4 := TryPrune(s3, op.p, io.now, l, io.save(SourcePrune));
      PruneGrows(s3, op.p, io.now, l, io.save(SourcePrune), p);
      PruneGrows(s4, op.dst, io.now, l, io.save(PruneAfter), p);
      GrowsChain(s, moved, s2, p);
      GrowsChain(s, s2, s3, p);
      GrowsChain(s, s3, s4, p);
      GrowsChain(s, s4, TryPrune(s4, op.dst, io.now, l, io.save(PruneAfter)), p);
    }
  }

  lemma DeleteEffect(s: Space, op: Op, l: Limits, p: Path)
    requires op.DeleteOp?
    ensures var (t, outcome) := Apply(s, op, l);
            && Grows(s, t, p)
            && (Advances(s, t, p) <==> !(p == op.p && DeleteSplits(s, op, l)))
            && (p == op.p && outcome.Done? ==> outcome.revision == Current(t, p) > Current(s, p))
  {
    hide TryRecord, TryPrune, PruneTrash, RevisionMatches, TrashFull, Current, SameSnapshots;
    var io, q := op.io, op.p;
    SameRevisions(s, s, p);
    if q in s.files {
      var s1 := TryPruneTrash(s, io.now, l, io.save(TrashPruneBefore));
      PruneTrashShape(s, io.now, l, io.save(TrashPruneBefore));
      assert io.save(TrashPruneBefore) ==> s1 == PruneTrash(s, io.now, l);
      hide TryPruneTrash;
      SameRevisions(s, s1, p);
      SameRevisions(s, s1.(blobs := s1.blobs - {op.id}), p);
      var previous := Some(s.files[q]);
      var removed := s1.(blobs := s1.blobs[op.id := s.files[q]], files := s1.files - {q});
      SameRevisions(s, removed, p);
      var s2 := TryRecord(removed, q, previous, io, Snapshot, RecordState);
      RecordGrows(removed, q, previous, io, Snapshot, RecordState, p);
      GrowsChain(s, removed, s2, p);
      var s3 := s2.(trash := s2.trash + [TrashItem(op.id, q, Current(s2, q), io.now)]);
      var s4 := TryPruneTrash(s3, io.now, l, io.save(TrashPruneAfter));
      PruneTrashShape(s3, io.now, l, io.save(TrashPruneAfter));
      SameRevisions(s2, s4, p);
      GrowsChain(s, s2, s4, p);
      PruneGrows(s4, q, io.now, l, io.save(PruneAfter), p);
      GrowsChain(s, s4, TryPrune(s4, q, io.now, l, io.save(PruneAfter)), p);
    }
  }

  lemma RestoreEffect(s: Space, op: Op, l: Limits, p: Path)
    requires op.RestoreOp?
    ensures var (t, outcome) := Apply(s, op, l);
            && Grows(s, t, p)
            && (Advances(s, t, p) <==> !(p == op.p && RestoreSplits(s, op, l)))
            && (p == op.p && outcome.Done? ==> outcome.revision == Current(t, p) > Current(s, p))
  {
    hide TryRecord, QuotaAllows, WithoutItem, Current, SameSnapshots;
    SameRevisions(s, s, p);
    if op.wanted.Some? {
      var i := FindTrash(s.trash, op.p, op.wanted.value);
      if i.Some? && s.trash[i.value].id in s.blobs {
        var id := s.trash[i.value].id;
        var written := s.(files := s.files[op.p := s.blobs[id]]);
        var s2 := TryRecord(written, op.p, None, op.io, Snapshot, RecordState);
        SameRevisions(s, written, p);
        RecordGrows(written, op.p, None, op.io, Snapshot, RecordState, p);
        GrowsChain(s, written, s2, p);
        var s3 := s2.(trash := WithoutItem(s2.trash, i.value), blobs := s2.blobs - {id});
        SameRevisions(s2, s3, p);
        GrowsChain(s, s2, s3, p);
      }
    }
  }

  lemma StepEffect(s: Space, op: Op, l: Limits, p: Path)
    ensures var (t, outcome) := Apply(s, op, l);
            && Grows(s, t, p)
            && (Advances(s, t, p) <==> !SplitsAt(s, op, l, p))
            && (Writes(op, p) && outcome.Done? ==> Current(t, p) > Current(s, p))
            && (Returns(op, p) && outcome.Done? ==> outcome.revision == Current(t, p))
  {
    hide Create, Replace, Move, Delete, Restore, CreateSplits, ReplaceSplits, MoveSplits, DeleteSplits, RestoreSplits,
      RevisionMatches, Joined, Grows;
    SameRevisions(s, s, p);
    match op
    case CreateOp(q, data, io) => CreateEffect(s, q, data, l, io, p);
    case UpdateOp(q, data, _, io) => if q in s.files { ReplaceEffect(s, q, data, l, io, p); }
    case AppendOp(q, data, _, io) =>
      if q in s.files { ReplaceEffect(s, q, Joined(s.files[q], data), l, io, p); } else { CreateEffect(s, q, data, l, io, p); }
    case MoveOp(_, _, _, _, _, _) => MoveEffect(s, op, l, p);
    case DeleteOp(_, _, _, _) => DeleteEffect(s, op, l, p);
    case RestoreOp(_, _, _) => RestoreEffect(s, op, l, p);
  }

  /** Whatever fails, no operation lowers a revision or rewrites a snapshot, and success raises what it wrote. */
  lemma StepRaisesRevision(s: Space, op: Op, l: Limits, p: Path)
    ensures var (t, outcome) := Apply(s, op, l);
            && Grows(s, t, p) && (Writes(op, p) && outcome.Done? ==> Current(t, p) > Current(s, p))
            && (Returns(op, p) && outcome.Done? ==> outcome.revision == Current(t, p))
  {
    hide *;
    StepEffect(s, op, l, p);
  }

  /** An operation keeps one content per revision of a path exactly when it does not split it. */
  lemma RevisionNamesContentIff(s: Space, op: Op, l: Limits, p: Path)
    ensures Advances(s, Step(s, op, l), p) <==> !SplitsAt(s, op, l, p)
  {
    hide Advances, SplitsAt, Apply;
    StepEffect(s, op, l, p);
  }

  /** An operation whose metadata writes and undo succeed splits nothing, nor does any that succeeds. */
  lemma SoundNeverSplits(s: Space, op: Op, l: Limits, p: Path)
    requires Sound(op) || Apply(s, op, l).1.Done?
    ensures !SplitsAt(s, op, l, p)
  {
    hide TryRecord, TryPrune, PruneRevisions, PruneTrash, QuotaAllows, HistoryFull, TrashFull, RevisionMatches, Joined, WithoutItem;
  }

  /** With its metadata writes and its undo succeeding, an operation that is refused changes no file. */
  lemma DeniedChangesNoFile(s: Space, op: Op, l: Limits)
    requires Sound(op) && Apply(s, op, l).1.Denied?
    ensures Step(s, op, l).files == s.files
  {
    hide Record, PrunedVersions, QuotaAllows, HistoryFull, TrashFull, RevisionMatches, Joined, KeptTrash, Ids;
  }

  /** A create whose record fails: the file is written before it. */
  lemma FailedRecordSplitsRevision() returns (s: Space, op: Op, l: Limits)
    ensures op.CreateOp? && op.io.rollback && !op.io.save(RecordState)
    ensures Current(Step(s, op, l), op.p) == Current(s, op.p) && Content(Step(s, op, l), op.p) != Content(s, op.p)
  {
    l := Limits(10, 10, 10, 5, 86400.0, 5, 86400.0);
    s := Space(map[], map[], [], map[]);
    op := CreateOp("a", [], Io(1.0, true, true, true, true, w => w != RecordState));
    assert Total(s.files) == 0;
  }

  /** A move that can neither remove its source nor undo its copy: every metadata write would succeed. */
  lemma FailedUndoSplitsRevision() returns (s: Space, op: Op, l: Limits)
    ensures op.MoveOp? && op.p != op.dst && Saved(op.io)
    ensures Current(Step(s, op, l), op.dst) == Current(s, op.dst) && Content(Step(s, op, l), op.dst) != Content(s, op.dst)
  {
    l := Limits(10, 10, 10, 5, 86400.0, 5, 86400.0);
    s := Space(map["a" := []], map[], [], map[]);
    op := MoveOp("a", "b", Some(0), false, None, Io(1.0, true, false, false, true, w => true));
    var p :| p in s.files && Total(s.files) == |s.files[p]| + Total(s.files - {p});
    assert s.files - {p} == map[];
  }

  // ---- Whole runs ----

  /** Along any run, whatever fails, revisions only grow and no snapshot is rewritten. */
  lemma {:induction false} RunRaisesRevision(s: Space, ops: seq<Op>, l: Limits, p: Path)
    ensures Grows(s, Run(s, ops, l), p)
  {
    hide Step, Grows;
    if ops == [] {
      SameRevisions(s, s, p);
    } else {
      var mid := Run(s, ops[..|ops| - 1], l);
      RunRaisesRevision(s, ops[..|ops| - 1], l, p);
      StepGrows(mid, ops[|ops| - 1], l, p);
      GrowsChain(s, mid, Run(s, ops, l), p);
    }
  }

  lemma StepGrows(s: Space, op: Op, l: Limits, p: Path)
    ensures Grows(s, Step(s, op, l), p)
  {
    hide Apply, Grows;
    StepRaisesRevision(s, op, l, p);
  }

  /** No operation of the run splits a revision of `p`. */
  ghost predicate NeverSplits(s: Space, ops: seq<Op>, l: Limits, p: Path) {
    forall i | 0 <= i < |ops| :: !SplitsAt(Run(s, ops[..i], l), ops[i], l, p)
  }

  lemma NeverSplitsFront(s: Space, ops: seq<Op>, l: Limits, p: Path)
    requires ops != [] && NeverSplits(s, ops, l, p)
    ensures var n := |ops| - 1; NeverSplits(s, ops[..n], l, p) && !SplitsAt(Run(s, ops[..n], l), ops[n], l, p)
  {
    hide Run, SplitsAt;
    var front := ops[..|ops| - 1];
    forall i | 0 <= i < |front|
      ensures !SplitsAt(Run(s, front[..i], l), front[i], l, p)
    {
      assert front[..i] == ops[..i];
    }
  }

  /**
   * Along any run without a split the revision of a path only grows, and while it stands still the
   * content is the same.
   */
  lemma {:induction false} RevisionNamesContent(s: Space, ops: seq<Op>, l: Limits, p: Path)
    requires NeverSplits(s, ops, l, p)
    ensures Advances(s, Run(s, ops, l), p)
  {
    hide Step, Content, Current, SplitsAt, NeverSplits, Grows;
    if ops == [] {
      SameRevisions(s, s, p);
    } else {
      var mid, op := Run(s, ops[..|ops| - 1], l), ops[|ops| - 1];
      NeverSplitsFront(s, ops, l, p);
      RevisionNamesContent(s, ops[..|ops| - 1], l, p);
      RevisionNamesContentIff(mid, op, l, p);
      GrowsChain(s, mid, Step(mid, op, l), p);
      AdvancesChain(s, mid, Step(mid, op, l), p);
    }
  }

  lemma AdvancesChain(s: Space, m: Space, t: Space, p: Path)
    requires Advances(s, m, p) && Advances(m, t, p)
    ensures Advances(s, t, p)
  {
    hide Content, SameSnapshots;
    GrowsChain(s, m, t, p);
  }

  /** An update that expects the revision a reader saw replaces exactly the content the reader saw. */
  lemma UpdateReplacesWhatWasRead(s: Space, ops: seq<Op>, l: Limits, p: Path, data: Bytes, io: Io)
    requires NeverSplits(s, ops, l, p)
    ensures var t := Run(s, ops, l);
            var op := UpdateOp(p, data, Some(Current(s, p)), io);
            var (t', outcome) := Apply(t, op, l);
            outcome.Done? ==>
              && p in s.files && Content(t, p) == Content(s, p)
              && t'.files == t.files[p := data] && outcome.revision == Current(t', p) > Current(s, p)
  {
    hide TryRecord, TryPrune, QuotaAllows, HistoryFull, Run, NeverSplits, Current;
    RevisionNamesContent(s, ops, l, p);
    var t := Run(s, ops, l);
    StepRaisesRevision(t, UpdateOp(p, data, Some(Current(s, p)), io), l, p);
    if Apply(t, UpdateOp(p, data, Some(Current(s, p)), io), l).1.Done? {
      UpdateFiles(t, p, data, Some(Current(s, p)), l, io);
    }
  }

  lemma UpdateFiles(s: Space, p: Path, data: Bytes, expected: Option<int>, l: Limits, io: Io)
    requires Update(s, p, data, expected, l, io).1.Done?
    ensures var (t, outcome) := Update(s, p, data, expected, l, io);
            && p in s.files && RevisionMatches(s, p, expected)
            && t.files == s.files[p := data]
  {
    hide QuotaAllows, HistoryFull, Recorded, PrunedVersions;
  }

  /** A delete that expects the revision a reader saw removes exactly the content the reader saw. */
  lemma DeleteRemovesWhatWasRead(s: Space, ops: seq<Op>, l: Limits, p: Path, id: nat, io: Io)
    requires NeverSplits(s, ops, l, p)
    ensures var t := Run(s, ops, l);
            var op := DeleteOp(p, Some(Current(s, p)), id, io);
            var (t', outcome) := Apply(t, op, l);
            outcome.Done? ==>
              && p in s.files && Content(t, p) == Content(s, p)
              && t'.files == t.files - {p} && outcome.revision == Current(t', p) > Current(s, p)
  {
    hide TryRecord, TryPrune, TryPruneTrash, TrashFull, Run, NeverSplits, Current;
    RevisionNamesContent(s, ops, l, p);
    var t := Run(s, ops, l);
    StepRaisesRevision(t, DeleteOp(p, Some(Current(s, p)), id, io), l, p);
    if Apply(t, DeleteOp(p, Some(Current(s, p)), id, io), l).1.Done? {
      DeleteFiles(t, p, Some(Current(s, p)), id, l, io);
    }
  }

  lemma DeleteFiles(s: Space, p: Path, expected: Option<int>, id: nat, l: Limits, io: Io)
    requires Delete(s, p, expected, id, l, io).1.Done?
    ensures var (t, outcome) := Delete(s, p, expected, id, l, io);
            && p in s.files && RevisionMatches(s, p, expected)
            && t.files == s.files - {p}
  {
    hide TrashFull, Recorded, PrunedVersions, KeptTrash, Ids;
  }

  /** Of two operations that expect the same revision of a path, the later one is refused, whatever fails between. */
  lemma SecondWriterIsRefused(s: Space, first: Op, ops: seq<Op>, second: Op, l: Limits)
    requires Apply(s, first, l).1.Done?
    requires (first.UpdateOp? || first.DeleteOp? || first.MoveOp?) && (second.UpdateOp? || second.DeleteOp? || second.MoveOp?)
    requires first.p == second.p && first.expected == second.expected
    ensures Apply(Run(Step(s, first, l), ops, l), second, l).1.Denied?
  {
    hide Run, Current, Grows;
    StepRaisesRevision(s, first, l, first.p);
    RunRaisesRevision(Step(s, first, l), ops, l, first.p);
    GrowsIsMonotone(Step(s, first, l), Run(Step(s, first, l), ops, l), first.p);
    DoneExpectedCurrent(s, first, l);
    WrongRevisionIsDenied(Run(Step(s, first, l), ops, l), second, l);
  }

  lemma GrowsIsMonotone(s: Space, t: Space, p: Path)
    requires Grows(s, t, p)
    ensures Current(t, p) >= Current(s, p)
  {
  }

  lemma DoneExpectedCurrent(s: Space, op: Op, l: Limits)
    requires (op.UpdateOp? || op.DeleteOp? || op.MoveOp?) && Apply(s, op, l).1.Done?
    ensures op.expected == Some(Current(s, op.p))
  {
    hide Replace, QuotaAllows, TryRecord, TryPrune, TryPruneTrash, TrashFull;
  }

  lemma WrongRevisionIsDenied(s: Space, op: Op, l: Limits)
    requires (op.UpdateOp? || op.DeleteOp? || op.MoveOp?) && op.expected != Some(Current(s, op.p))
    ensures Apply(s, op, l).1.Denied?
  {
  }
}
