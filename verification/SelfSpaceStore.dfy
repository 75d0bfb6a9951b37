/** The operations of core/character_self.py as they update the stored bucket, step by step. */
module SelfSpaceStore {
  import opened Wrappers
  import opened SelfSpace

  lemma {:induction false} TotalRemove(files: map<Path, Bytes>, p: Path)
    requires p in files
    ensures Total(files) == |files[p]| + Total(files - {p})
    decreases |files|
  {
    var q :| q in files && Total(files) == |files[q]| + Total(files - {q});
    if p != q {
      RemoveShrinks(files, q);
      RemoveShrinks(files, p);
      TotalRemove(files - {q}, p);
      TotalRemove(files - {p}, q);
      assert files - {q} - {p} == files - {p} - {q};
    }
  }

  lemma TotalPut(files: map<Path, Bytes>, p: Path, data: Bytes)
    ensures Total(files[p := data]) == Total(files) + |data| - (if p in files then |files[p]| else 0)
  {
    TotalRemove(files[p := data], p);
    assert files[p := data] - {p} == files - {p};
    if p in files {
      TotalRemove(files, p);
    } else {
      assert files - {p} == files;
    }
  }

  /** What recording a revision does for a reader of the history, whatever fails. */
  ghost predicate Records(s: Space, t: Space, p: Path, previous: Option<Bytes>, revision: Option<nat>) {
    && (match revision
        case None => Current(t, p) == Current(s, p)
        case Some(n) =>
          && n == Current(t, p) > Current(s, p)
          && (previous.Some? ==> n in RevsOf(t, p).snapshots && RevsOf(t, p).snapshots[n] == previous.value))
    && KeepsSnapshots(RevsOf(s, p), RevsOf(t, p), Current(s, p))
    && (forall q | q != p :: RevsOf(t, q) == RevsOf(s, q))
    && t.files == s.files && t.trash == s.trash && t.blobs == s.blobs
  }

  /** Snapshots of revisions up to `upTo` are the same in both states. */
  ghost predicate KeepsSnapshots(r: RevState, t: RevState, upTo: nat) {
    forall k | k <= upTo :: (k in t.snapshots <==> k in r.snapshots) && (k in t.snapshots ==> t.snapshots[k] == r.snapshots[k])
  }

  lemma TryRecordRecords(s: Space, p: Path, previous: Option<Bytes>, io: Io, snapshot: Write, state: Write)
    ensures var t := TryRecord(s, p, previous, io, snapshot, state);
            Records(s, t, p, previous, if Recordable(previous, io, snapshot, state) then Some(Current(t, p)) else None)
  {
  }

  class SelfBucket {
    var files: map<Path, Bytes>
    var revs: map<Path, RevState>
    var trash: seq<TrashItem>
    var blobs: map<nat, Bytes>
    const limits: Limits

    constructor (initial: Space, l: Limits)
      ensures State() == initial && limits == l
    {
      files, revs, trash, blobs := initial.files, initial.revs, initial.trash, initial.blobs;
      limits := l;
    }

    function State(): Space
      reads this
    {
      Space(files, revs, trash, blobs)
    }

    /** Number of bytes in all files. */
    method Usage() returns (total: nat)
      ensures total == Total(files)
    {
      var todo := files.Keys;
      ghost var left := files;
      total := 0;
      while todo != {}
        invariant todo == left.Keys && left.Keys <= files.Keys
        invariant forall p | p in left :: left[p] == files[p]
        invariant total + Total(left) == Total(files)
        decreases todo
      {
        var p :| p in todo;
        TotalRemove(left, p);
        total := total + |files[p]|;
        todo := todo - {p};
        left := left - {p};
      }
      assert left == map[];
    }

    method CheckWriteQuota(p: Path, data: Bytes, replacing: bool) returns (allowed: bool)
      ensures allowed == QuotaAllows(State(), p, data, replacing, limits)
    {
      if |data| > limits.maxFileBytes {
        return false;
      }
      var used := Usage();
      var extraFiles := if replacing then 0 else 1;
      var extraBytes: int := |data|;
      if replacing && p in files {
        extraBytes := extraBytes - |files[p]|;
      }
      allowed := |files| + extraFiles <= limits.maxFiles && used + extraBytes <= limits.maxTotalBytes;
    }

    /**
     * Drop versions past their age or beyond the newest `maxRevisions`: first their snapshots, and then,
     * if the state can be written, the versions. No revision moves.
     */
    method PruneVersions(p: Path, now: real, ok: bool)
      modifies this`revs
      ensures State() == TryPrune(old(State()), p, now, limits, ok)
      ensures forall q :: Current(State(), q) == Current(old(State()), q)
    {
      var state := if p in revs then revs[p] else RevState(0, [], map[]);
      var kept: seq<Version> := [];
      var i := 0;
      while i < |state.versions|
        invariant 0 <= i <= |state.versions|
        invariant kept == FreshVersions(state.versions[..i], now, limits.revisionTtl)
      {
        assert state.versions[..i + 1][..i] == state.versions[..i];
        if !Stale(state.versions[i], now, limits.revisionTtl) {
          kept := kept + [state.versions[i]];
        }
        i := i + 1;
      }
      assert state.versions[..i] == state.versions;
      kept := Newest(kept, limits.maxRevisions);
      var gone := SnapshotKeys(state.versions) - SnapshotKeys(kept);
      state := state.(snapshots := state.snapshots - gone);
      if ok {
        state := state.(versions := kept);
      }
      revs := revs[p := state];
    }

    /**
     * A new revision above the current one, with the replaced bytes in its snapshot. Whatever fails, no
     * snapshot of the current or an older revision is touched, and no other path; without the record the
     * revision stays.
     */
    method RecordRevision(p: Path, previous: Option<Bytes>, io: Io, snapshot: Write, state: Write)
      returns (revision: Option<nat>)
      modifies this`revs
      ensures State() == TryRecord(old(State()), p, previous, io, snapshot, state)
      ensures revision.Some? <==> Recordable(previous, io, snapshot, state)
      ensures Records(old(State()), State(), p, previous, revision)
    {
      hide Records;
      TryRecordRecords(State(), p, previous, io, snapshot, state);
      var r := if p in revs then revs[p] else RevState(0, [], map[]);
      var next := NextRevision(r);
      if previous.Some? {
        if !io.save(snapshot) {
          return None;
        }
        r := r.(snapshots := r.snapshots[next := previous.value]);
        revs := revs[p := r];
      }
      if !io.save(state) {
        return None;
      }
      revs := revs[p := RevState(next, r.versions + [Version(next, io.now, previous.Some?)], r.snapshots)];
      revision := Some(next);
    }

    /** Drop expired items and those beyond the newest `maxTrash`: first their blobs, then the items. */
    method PruneTrashItems(now: real, ok: bool)
      modifies this`trash, this`blobs
      ensures State() == TryPruneTrash(old(State()), now, limits, ok)
    {
      var kept: seq<TrashItem> := [];
      var i := 0;
      while i < |trash|
        invariant 0 <= i <= |trash| && trash == old(trash)
        invariant kept == FreshItems(trash[..i], now, limits.trashTtl)
      {
        assert trash[..i + 1][..i] == trash[..i];
        if !Expired(trash[i], now, limits.trashTtl) {
          kept := kept + [trash[i]];
        }
        i := i + 1;
      }
      assert trash[..i] == trash;
      kept := Newest(kept, limits.maxTrash);
      blobs := blobs - (Ids(trash) - Ids(kept));
      if ok {
        trash := kept;
      }
    }

    method CreateFile(p: Path, data: Bytes, io: Io) returns (outcome: Outcome)
      modifies this
      ensures (State(), outcome) == Create(old(State()), p, data, limits, io)
    {
      if p in files {
        return Denied(AlreadyExists);
      }
      var allowed := CheckWriteQuota(p, data, false);
      if !allowed {
        return Denied(QuotaExhausted);
      }
      if !io.fileWrite {
        return Denied(AtomicWriteFailed);
      }
      files := files[p := data];
      var revision := RecordRevision(p, None, io, Snapshot, RecordState);
      if revision.None? {
        return Denied(AtomicWriteFailed);
      }
      PruneVersions(p, io.now, io.save(PruneAfter));
      outcome := Finished(revision.value, io.save(PruneAfter));
    }

    method ReplaceFile(p: Path, data: Bytes, io: Io) returns (outcome: Outcome)
      requires p in files
      modifies this
      ensures (State(), outcome) == Replace(old(State()), p, data, limits, io)
    {
      var allowed := CheckWriteQuota(p, data, true);
      if !allowed {
        return Denied(QuotaExhausted);
      }
      var previous := files[p];
      PruneVersions(p, io.now, io.save(PruneBefore));
      if !io.save(PruneBefore) {
        return Denied(AtomicWriteFailed);
      }
      if |revs[p].versions| >= limits.maxRevisions && limits.maxRevisions >= HARD_MAX_REVISIONS {
        return Denied(QuotaExhausted);
      }
      if !io.fileWrite {
        return Denied(AtomicWriteFailed);
      }
      files := files[p := data];
      var revision := RecordRevision(p, Some(previous), io, Snapshot, RecordState);
      if revision.None? {
        return Denied(AtomicWriteFailed);
      }
      PruneVersions(p, io.now, io.save(PruneAfter));
      outcome := Finished(revision.value, io.save(PruneAfter));
    }

    method UpdateFile(p: Path, data: Bytes, expected: Option<int>, io: Io) returns (outcome: Outcome)
      modifies this
      ensures (State(), outcome) == Update(old(State()), p, data, expected, limits, io)
    {
      if p !in files {
        return Denied(PathNotFound);
      }
      if !RevisionMatches(State(), p, expected) {
        return Denied(RevisionConflict);
      }
      outcome := ReplaceFile(p, data, io);
    }

    method AppendText(p: Path, addition: Bytes, decodable: bool, io: Io) returns (outcome: Outcome)
      modifies this
      ensures (State(), outcome) == Append(old(State()), p, addition, decodable, limits, io)
    {
      if p !in files {
        outcome := CreateFile(p, addition, io);
      } else if !decodable {
        outcome := Denied(UnsupportedFileType);
      } else {
        outcome := ReplaceFile(p, Joined(files[p], addition), io);
      }
    }

    method MoveFile(src: Path, dst: Path, expected: Option<int>, overwrite: bool, dstExpected: Option<int>, io: Io)
      returns (outcome: Outcome)
      modifies this
      ensures (State(), outcome) == Move(old(State()), src, dst, expected, overwrite, dstExpected, limits, io)
    {
      if src !in files {
        return Denied(PathNotFound);
      }
      if !RevisionMatches(State(), src, expected) {
        return Denied(RevisionConflict);
      }
      var previous := Content(State(), dst);
      if previous.Some? {
        if !overwrite {
          return Denied(AlreadyExists);
        }
        if !RevisionMatches(State(), dst, dstExpected) {
          return Denied(RevisionConflict);
        }
      }
      var data := files[src];
      var allowed := CheckWriteQuota(dst, data, previous.Some?);
      if !allowed {
        return Denied(QuotaExhausted);
      }
      if !io.fileWrite {
        return Denied(AtomicWriteFailed);
      }
      files := files[dst := data];
      if !io.fileUnlink {
        if io.rollback {
          if previous.Some? {
            files := files[dst := previous.value];
            assert files == old(files);
          } else {
            files := files - {dst};
            assert files == old(files);
          }
        }
        return Denied(OsError);
      }
      files := files - {src};
      var revision := RecordRevision(dst, previous, io, Snapshot, RecordState);
      if revision.None? {
        return Denied(AtomicWriteFailed);
      }
      var retired := RecordRevision(src, Some(data), io, SourceSnapshot, SourceState);
      if retired.None? {
        return Denied(AtomicWriteFailed);
      }
      PruneVersions(src, io.now, io.save(SourcePrune));
      if !io.save(SourcePrune) {
        return Denied(AtomicWriteFailed);
      }
      PruneVersions(dst, io.now, io.save(PruneAfter));
      outcome := Finished(revision.value, io.save(PruneAfter));
    }

    method DeleteFile(p: Path, expected: Option<int>, id: nat, io: Io) returns (outcome: Outcome)
      modifies this
      ensures (State(), outcome) == Delete(old(State()), p, expected, id, limits, io)
    {
      if p !in files {
        return Denied(PathNotFound);
      }
      if !RevisionMatches(State(), p, expected) {
        return Denied(RevisionConflict);
      }
      var previous := files[p];
      PruneTrashItems(io.now, io.save(TrashPruneBefore));
      if !io.save(TrashPruneBefore) {
        return Denied(AtomicWriteFailed);
      }
      if |trash| >= limits.maxTrash && limits.maxTrash >= HARD_MAX_TRASH {
        return Denied(QuotaExhausted);
      }
      if !io.blobWrite {
        return Denied(AtomicWriteFailed);
      }
      ghost var pruned := blobs;
      blobs := blobs[id := previous];
      if !io.fileUnlink {
        blobs := blobs - {id};
        assert blobs == pruned - {id};
        return Denied(OsError);
      }
      files := files - {p};
      var revision := RecordRevision(p, Some(previous), io, Snapshot, RecordState);
      if revision.None? || !io.save(TrashIndex) {
        return Denied(AtomicWriteFailed);
      }
      trash := trash + [TrashItem(id, p, revision.value, io.now)];
      PruneTrashItems(io.now, io.save(TrashPruneAfter));
      if !io.save(TrashPruneAfter) {
        return Denied(AtomicWriteFailed);
      }
      PruneVersions(p, io.now, io.save(PruneAfter));
      outcome := Finished(revision.value, io.save(PruneAfter));
    }

    method RestoreFile(p: Path, wanted: Option<int>, io: Io) returns (outcome: Outcome)
      modifies this
      ensures (State(), outcome) == Restore(old(State()), p, wanted, limits, io)
    {
      if wanted.None? {
        return Denied(RevisionConflict);
      }
      var i := |trash|;
      assert trash[..i] == trash;
      while i > 0 && !(trash[i - 1].path == p && trash[i - 1].revision == wanted.value)
        invariant 0 <= i <= |trash|
        invariant FindTrash(trash, p, wanted.value) == FindTrash(trash[..i], p, wanted.value)
      {
        assert trash[..i][..i - 1] == trash[..i - 1];
        i := i - 1;
      }
      if i == 0 {
        return Denied(PathNotFound);
      }
      var found := i - 1;
      if p in files {
        return Denied(AlreadyExists);
      }
      var id := trash[found].id;
      if id !in blobs {
        return Denied(PathNotFound);
      }
      var data := blobs[id];
      var allowed := CheckWriteQuota(p, data, false);
      if !allowed {
        return Denied(QuotaExhausted);
      }
      if !io.fileWrite {
        return Denied(AtomicWriteFailed);
      }
      files := files[p := data];
      var revision := RecordRevision(p, None, io, Snapshot, RecordState);
      if revision.None? || !io.save(TrashIndex) {
        return Denied(AtomicWriteFailed);
      }
      trash := WithoutItem(trash, found);
      blobs := blobs - {id};
      outcome := Done(revision.value);
    }
  }
}
