/**
 * The versioned self-file space of one bucket (core/character_self.py): files with compare-and-set
 * revisions, bounded version history with snapshots, a bounded trash, and quotas. Specification
 * functions, and the operations proved against them; whole runs are in SelfSpaceRuns.
 */
module SelfSpace {
  import opened Wrappers

  type Bytes = seq<bv8>
  type Path = string

  const HARD_MAX_REVISIONS: nat := 100
  const HARD_MAX_TRASH: nat := 200
  const NEWLINE: bv8 := 10

  datatype Limits = Limits(maxFileBytes: nat, maxTotalBytes: nat, maxFiles: nat,
                           maxRevisions: nat, revisionTtl: real, maxTrash: nat, trashTtl: real)

  /** The bounds every limit is clamped to. */
  ghost predicate Clamped(l: Limits) {
    && 1 <= l.maxRevisions <= HARD_MAX_REVISIONS && 1 <= l.maxTrash <= HARD_MAX_TRASH
    && l.revisionTtl >= 86400.0 && l.trashTtl >= 86400.0
  }

  datatype Version = Version(revision: nat, createdAt: real, previousExists: bool)

  /** Revision state of one path; `snapshots` are the `<revision>.bin` files beside it. */
  datatype RevState = RevState(current: nat, versions: seq<Version>, snapshots: map<nat, Bytes>)

  datatype TrashItem = TrashItem(id: nat, path: Path, revision: nat, deletedAt: real)

  datatype Space = Space(files: map<Path, Bytes>, revs: map<Path, RevState>,
                         trash: seq<TrashItem>, blobs: map<nat, Bytes>)

  datatype Code = PathNotFound | AlreadyExists | RevisionConflict | QuotaExhausted
                | AtomicWriteFailed | OsError | UnsupportedFileType

  datatype Outcome = Done(revision: nat) | Denied(code: Code)

  /** The metadata writes of an operation, in the roles they have in it. */
  datatype Write = PruneBefore | Snapshot | RecordState | SourceSnapshot | SourceState | SourcePrune | PruneAfter
                 | TrashPruneBefore | TrashIndex | TrashPruneAfter

  /** The clock and the faults of one operation: which writes and removals of the storage succeed. */
  datatype Io = Io(now: real, fileWrite: bool, fileUnlink: bool, rollback: bool, blobWrite: bool, save: Write -> bool)

  function RevsOf(s: Space, p: Path): RevState {
    if p in s.revs then s.revs[p] else RevState(0, [], map[])
  }

  function Current(s: Space, p: Path): nat {
    RevsOf(s, p).current
  }

  function Content(s: Space, p: Path): Option<Bytes> {
    if p in s.files then Some(s.files[p]) else None
  }

  /** Sum of the file sizes. */
  ghost function Total(files: map<Path, Bytes>): nat
    decreases |files|
  {
    if files == map[] then 0
    else
      var p :| p in files;
      assert |files - {p}| < |files| by { RemoveShrinks(files, p); }
      |files[p]| + Total(files - {p})
  }

  lemma RemoveShrinks(files: map<Path, Bytes>, p: Path)
    requires p in files
    ensures |files - {p}| == |files| - 1
  {
    assert (files - {p}).Keys == files.Keys - {p};
    assert |files| == |files.Keys| && |files - {p}| == |(files - {p}).Keys|;
  }

  ghost predicate QuotaAllows(s: Space, p: Path, data: Bytes, replacing: bool, l: Limits) {
    && |data| <= l.maxFileBytes
    && |s.files| + (if replacing then 0 else 1) <= l.maxFiles
    && Total(s.files) + |data| - (if replacing && p in s.files then |s.files[p]| else 0) <= l.maxTotalBytes
  }

  // ---- Version history ----

  predicate Stale(v: Version, now: real, ttl: real) {
    v.createdAt != 0.0 && now - v.createdAt > ttl
  }

  function FreshVersions(vs: seq<Version>, now: real, ttl: real): (kept: seq<Version>)
    ensures |kept| <= |vs|
  {
    if vs == [] then []
    else FreshVersions(vs[..|vs| - 1], now, ttl) + (if Stale(vs[|vs| - 1], now, ttl) then [] else [vs[|vs| - 1]])
  }

  function Newest<T>(xs: seq<T>, n: nat): seq<T> {
    if |xs| <= n then xs else xs[|xs| - n..]
  }

  function SnapshotKeys(vs: seq<Version>): set<nat> {
    set v | v in vs && v.previousExists :: v.revision
  }

  function PrunedVersions(r: RevState, now: real, l: Limits): RevState {
    var kept := Newest(FreshVersions(r.versions, now, l.revisionTtl), l.maxRevisions);
    r.(versions := kept, snapshots := r.snapshots - (SnapshotKeys(r.versions) - SnapshotKeys(kept)))
  }

  function PruneRevisions(s: Space, p: Path, now: real, l: Limits): Space {
    s.(revs := s.revs[p := PrunedVersions(RevsOf(s, p), now, l)])
  }

  function NextRevision(r: RevState): nat {
    (if r.current > 0 then r.current else if r.versions != [] then r.versions[|r.versions| - 1].revision else 0) + 1
  }

  function Recorded(r: RevState, previous: Option<Bytes>, now: real): RevState {
    var next := NextRevision(r);
    RevState(next, r.versions + [Version(next, now, previous.Some?)],
             if previous.Some? then r.snapshots[next := previous.value] else r.snapshots)
  }

  /** A new revision of `p`, with a snapshot of the bytes it replaces. */
  function Record(s: Space, p: Path, previous: Option<Bytes>, now: real): Space {
    s.(revs := s.revs[p := Recorded(RevsOf(s, p), previous, now)])
  }

  /** The snapshot, if there are bytes to keep, and then the revision state are written. */
  predicate Recordable(previous: Option<Bytes>, io: Io, snapshot: Write, state: Write) {
    (previous.None? || io.save(snapshot)) && io.save(state)
  }

  /** A record whose state cannot be written leaves at most its snapshot file. */
  function TryRecord(s: Space, p: Path, previous: Option<Bytes>, io: Io, snapshot: Write, state: Write): Space {
    var r := RevsOf(s, p);
    if Recordable(previous, io, snapshot, state) then Record(s, p, previous, io.now)
    else if previous.Some? && io.save(snapshot)
    then s.(revs := s.revs[p := r.(snapshots := r.snapshots[NextRevision(r) := previous.value])])
    else s
  }

  /** A prune removes the snapshots first; when the state cannot be written the versions stay. */
  function TryPrune(s: Space, p: Path, now: real, l: Limits, ok: bool): Space {
    if ok then PruneRevisions(s, p, now, l)
    else s.(revs := s.revs[p := RevsOf(s, p).(snapshots := PrunedVersions(RevsOf(s, p), now, l).snapshots)])
  }

  predicate RevisionMatches(s: Space, p: Path, expected: Option<int>) {
    expected == Some(Current(s, p))
  }

  predicate HistoryFull(s: Space, p: Path, l: Limits) {
    |RevsOf(s, p).versions| >= l.maxRevisions && l.maxRevisions >= HARD_MAX_REVISIONS
  }

  // ---- Trash ----

  predicate Expired(t: TrashItem, now: real, ttl: real) {
    t.deletedAt != 0.0 && now - t.deletedAt > ttl
  }

  function FreshItems(ts: seq<TrashItem>, now: real, ttl: real): (kept: seq<TrashItem>)
    ensures |kept| <= |ts|
  {
    if ts == [] then []
    else FreshItems(ts[..|ts| - 1], now, ttl) + (if Expired(ts[|ts| - 1], now, ttl) then [] else [ts[|ts| - 1]])
  }

  function Ids(ts: seq<TrashItem>): set<nat> {
    set t | t in ts :: t.id
  }

  function KeptTrash(ts: seq<TrashItem>, now: real, l: Limits): seq<TrashItem> {
    Newest(FreshItems(ts, now, l.trashTtl), l.maxTrash)
  }

  function PruneTrash(s: Space, now: real, l: Limits): Space {
    var kept := KeptTrash(s.trash, now, l);
    s.(trash := kept, blobs := s.blobs - (Ids(s.trash) - Ids(kept)))
  }

  function TryPruneTrash(s: Space, now: real, l: Limits, ok: bool): Space {
    if ok then PruneTrash(s, now, l) else s.(blobs := PruneTrash(s, now, l).blobs)
  }

  predicate TrashFull(s: Space, l: Limits) {
    |s.trash| >= l.maxTrash && l.maxTrash >= HARD_MAX_TRASH
  }

  /** Index of the newest trash item for this path and revision. */
  function FindTrash(ts: seq<TrashItem>, p: Path, revision: int): (i: Option<nat>)
    ensures i.Some? ==> i.value < |ts| && ts[i.value].path == p && ts[i.value].revision == revision
    ensures i.None? ==> forall t | t in ts :: t.path != p || t.revision != revision
  {
    if ts == [] then None
    else if ts[|ts| - 1].path == p && ts[|ts| - 1].revision == revision then Some(|ts| - 1)
    else FindTrash(ts[..|ts| - 1], p, revision)
  }

  // ---- Operations ----

  /** The outcome of an operation whose last step is a prune. */
  function Finished(revision: nat, ok: bool): Outcome {
    if ok then Done(revision) else Denied(AtomicWriteFailed)
  }

  ghost function Create(s: Space, p: Path, data: Bytes, l: Limits, io: Io): (Space, Outcome) {
    if p in s.files then (s, Denied(AlreadyExists))
    else if !QuotaAllows(s, p, data, false, l) then (s, Denied(QuotaExhausted))
    else if !io.fileWrite then (s, Denied(AtomicWriteFailed))
    else
      var s2 := TryRecord(s.(files := s.files[p := data]), p, None, io, Snapshot, RecordState);
      if !Recordable(None, io, Snapshot, RecordState) then (s2, Denied(AtomicWriteFailed))
      else (TryPrune(s2, p, io.now, l, io.save(PruneAfter)), Finished(Current(s2, p), io.save(PruneAfter)))
  }

  /** Shared by update and append onto an existing file: replace its bytes under a new revision. */
  ghost function Replace(s: Space, p: Path, data: Bytes, l: Limits, io: Io): (Space, Outcome)
    requires p in s.files
  {
    if !QuotaAllows(s, p, data, true, l) then (s, Denied(QuotaExhausted))
    else
      var s1 := TryPrune(s, p, io.now, l, io.save(PruneBefore));
      if !io.save(PruneBefore) then (s1, Denied(AtomicWriteFailed))
      else if HistoryFull(s1, p, l) then (s1, Denied(QuotaExhausted))
      else if !io.fileWrite then (s1, Denied(AtomicWriteFailed))
      else
        var previous := Some(s.files[p]);
        var s2 := TryRecord(s1.(files := s1.files[p := data]), p, previous, io, Snapshot, RecordState);
        if !Recordable(previous, io, Snapshot, RecordState) then (s2, Denied(AtomicWriteFailed))
        else (TryPrune(s2, p, io.now, l, io.save(PruneAfter)), Finished(Current(s2, p), io.save(PruneAfter)))
  }

  ghost function Update(s: Space, p: Path, data: Bytes, expected: Option<int>, l: Limits, io: Io): (Space, Outcome) {
    if p !in s.files then (s, Denied(PathNotFound))
    else if !RevisionMatches(s, p, expected) then (s, Denied(RevisionConflict))
    else Replace(s, p, data, l, io)
  }

  function Joined(existing: Bytes, addition: Bytes): Bytes {
    var sep := if existing == [] || existing[|existing| - 1] == NEWLINE || (addition != [] && addition[0] == NEWLINE)
               then [] else [NEWLINE];
    existing + sep + addition
  }

  /** `decodable` is whether the existing bytes are valid UTF-8. */
  ghost function Append(s: Space, p: Path, addition: Bytes, decodable: bool, l: Limits, io: Io): (Space, Outcome) {
    if p !in s.files then Create(s, p, addition, l, io)
    else if !decodable then (s, Denied(UnsupportedFileType))
    else Replace(s, p, Joined(s.files[p], addition), l, io)
  }

  /** Undo of a move whose source could not be removed. */
  function MoveUndone(s: Space, written: Space, io: Io): Space {
    if io.rollback then s else written
  }

  ghost function Move(s: Space, src: Path, dst: Path, expected: Option<int>, overwrite: bool,
                      dstExpected: Option<int>, l: Limits, io: Io): (Space, Outcome)
  {
    if src !in s.files then (s, Denied(PathNotFound))
    else if !RevisionMatches(s, src, expected) then (s, Denied(RevisionConflict))
    else if dst in s.files && !overwrite then (s, Denied(AlreadyExists))
    else if dst in s.files && !RevisionMatches(s, dst, dstExpected) then (s, Denied(RevisionConflict))
    else
      var data := s.files[src];
      if !QuotaAllows(s, dst, data, dst in s.files, l) then (s, Denied(QuotaExhausted))
      else if !io.fileWrite then (s, Denied(AtomicWriteFailed))
      else
        var written := s.(files := s.files[dst := data]);
        if !io.fileUnlink then (MoveUndone(s, written, io), Denied(OsError))
        else
          var s2 := TryRecord(written.(files := written.files - {src}), dst, Content(s, dst), io, Snapshot, RecordState);
          if !Recordable(Content(s, dst), io, Snapshot, RecordState) then (s2, Denied(AtomicWriteFailed))
          else
            var s3 := TryRecord(s2, src, Some(data), io, SourceSnapshot, SourceState);
            if !Recordable(Some(data), io, SourceSnapshot, SourceState) then (s3, Denied(AtomicWriteFailed))
            else
              var s4 := TryPrune(s3, src, io.now, l, io.save(SourcePrune));
              if !io.save(SourcePrune) then (s4, Denied(AtomicWriteFailed))
              else (TryPrune(s4, dst, io.now, l, io.save(PruneAfter)), Finished(Current(s2, dst), io.save(PruneAfter)))
  }

  /** `id` is the fresh identifier of the trash item. */
  ghost function Delete(s: Space, p: Path, expected: Option<int>, id: nat, l: Limits, io: Io): (Space, Outcome) {
    if p !in s.files then (s, Denied(PathNotFound))
    else if !RevisionMatches(s, p, expected) then (s, Denied(RevisionConflict))
    else
      var s1 := TryPruneTrash(s, io.now, l, io.save(TrashPruneBefore));
      if !io.save(TrashPruneBefore) then (s1, Denied(AtomicWriteFailed))
      else if TrashFull(s1, l) then (s1, Denied(QuotaExhausted))
      else if !io.blobWrite then (s1, Denied(AtomicWriteFailed))
      else if !io.fileUnlink then (s1.(blobs := s1.blobs - {id}), Denied(OsError))
      else
        var previous := Some(s.files[p]);
        var removed := s1.(blobs := s1.blobs[id := s.files[p]], files := s1.files - {p});
        var s2 := TryRecord(removed, p, previous, io, Snapshot, RecordState);
        if !Recordable(previous, io, Snapshot, RecordState) then (s2, Denied(AtomicWriteFailed))
        else if !io.save(TrashIndex) then (s2, Denied(AtomicWriteFailed))
        else
          var s3 := s2.(trash := s2.trash + [TrashItem(id, p, Current(s2, p), io.now)]);
          var s4 := TryPruneTrash(s3, io.now, l, io.save(TrashPruneAfter));
          if !io.save(TrashPruneAfter) then (s4, Denied(AtomicWriteFailed))
          else (TryPrune(s4, p, io.now, l, io.save(PruneAfter)), Finished(Current(s2, p), io.save(PruneAfter)))
  }

  function WithoutItem(ts: seq<TrashItem>, i: nat): seq<TrashItem>
    requires i < |ts|
  {
    ts[..i] + ts[i + 1..]
  }

  ghost function Restore(s: Space, p: Path, revision: Option<int>, l: Limits, io: Io): (Space, Outcome) {
    if revision.None? then (s, Denied(RevisionConflict))
    else
      var i := FindTrash(s.trash, p, revision.value);
      if i.None? then (s, Denied(PathNotFound))
      else if p in s.files then (s, Denied(AlreadyExists))
      else
        var id := s.trash[i.value].id;
        if id !in s.blobs then (s, Denied(PathNotFound))
        else if !QuotaAllows(s, p, s.blobs[id], false, l) then (s, Denied(QuotaExhausted))
        else if !io.fileWrite then (s, Denied(AtomicWriteFailed))
        else
          var s2 := TryRecord(s.(files := s.files[p := s.blobs[id]]), p, None, io, Snapshot, RecordState);
          if !Recordable(None, io, Snapshot, RecordState) then (s2, Denied(AtomicWriteFailed))
          else if !io.save(TrashIndex) then (s2, Denied(AtomicWriteFailed))
          else (s2.(trash := WithoutItem(s2.trash, i.value), blobs := s2.blobs - {id}), Done(Current(s2, p)))
  }
}
