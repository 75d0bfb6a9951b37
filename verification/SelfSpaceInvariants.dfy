/**
 * What every operation on the self-file space keeps (core/character_self.py): bounded, ordered
 * version histories with exactly their snapshots, a bounded trash with exactly its blobs, and the
 * quotas.
 */
module SelfSpaceInvariants {
  import opened Wrappers
  import opened SelfSpace
  import opened SelfSpaceStore
  import opened SelfSpaceRuns

  // ---- Version histories ----

  ghost predicate HistoryOk(r: RevState, bound: nat) {
    && (forall i, j | 0 <= i < j < |r.versions| :: r.versions[i].revision < r.versions[j].revision)
    && (forall v | v in r.versions :: 1 <= v.revision <= r.current)
    && r.snapshots.Keys == SnapshotKeys(r.versions)
    && |r.versions| <= bound
  }

  /** The history bound of a path: one more version than the limit is possible while its file exists. */
  ghost predicate HistoryBounded(s: Space, l: Limits, p: Path) {
    HistoryOk(RevsOf(s, p), l.maxRevisions + (if p in s.files then 1 else 0))
  }

  lemma NextIsCurrentPlusOne(r: RevState, bound: nat)
    requires HistoryOk(r, bound)
    ensures NextRevision(r) == r.current + 1
  {
    hide SnapshotKeys;
    if r.versions != [] { assert r.versions[0] in r.versions; }
  }

  lemma KeysAppend(vs: seq<Version>, v: Version)
    ensures SnapshotKeys(vs + [v]) == SnapshotKeys(vs) + (if v.previousExists then {v.revision} else {})
  {
    assert forall x :: x in vs + [v] <==> x in vs || x == v;
  }

  lemma AppendedStaysOrdered(vs: seq<Version>, v: Version)
    requires forall i, j | 0 <= i < j < |vs| :: vs[i].revision < vs[j].revision
    requires 1 <= v.revision && forall x | x in vs :: 1 <= x.revision < v.revision
    ensures forall i, j | 0 <= i < j < |vs + [v]| :: (vs + [v])[i].revision < (vs + [v])[j].revision
    ensures forall x | x in vs + [v] :: 1 <= x.revision <= v.revision
  {
    assert forall i | 0 <= i < |vs| :: vs[i] in vs;
  }

  lemma RecordedIs(r: RevState, previous: Option<Bytes>, now: real, bound: nat)
    requires HistoryOk(r, bound)
    ensures var n := r.current + 1;
            Recorded(r, previous, now) == RevState(n, r.versions + [Version(n, now, previous.Some?)],
                                                   if previous.Some? then r.snapshots[n := previous.value] else r.snapshots)
  {
    NextIsCurrentPlusOne(r, bound);
  }

  lemma RecordedKeepsHistory(r: RevState, previous: Option<Bytes>, now: real, bound: nat)
    requires HistoryOk(r, bound)
    ensures var t := Recorded(r, previous, now);
            && HistoryOk(t, bound + 1)
            && t.current == r.current + 1
            && (previous.Some? ==> t.current in t.snapshots && t.snapshots[t.current] == previous.value)
            && (forall k | k in r.snapshots :: k in t.snapshots && t.snapshots[k] == r.snapshots[k])
  {
    hide SnapshotKeys, Recorded;
    var v := Version(r.current + 1, now, previous.Some?);
    RecordedIs(r, previous, now, bound);
    KeysAppend(r.versions, v);
    AppendedStaysOrdered(r.versions, v);
    SnapshotsBelow(r, bound);
  }

  lemma SnapshotsBelow(r: RevState, bound: nat)
    requires HistoryOk(r, bound)
    ensures forall k | k in r.snapshots :: k <= r.current
  {
    forall k | k in r.snapshots
      ensures k <= r.current
    {
      assert k in SnapshotKeys(r.versions);
    }
  }

  lemma {:induction false} FreshVersionsFacts(vs: seq<Version>, now: real, ttl: real)
    requires forall i, j | 0 <= i < j < |vs| :: vs[i].revision < vs[j].revision
    ensures var kept := FreshVersions(vs, now, ttl);
            && (forall i, j | 0 <= i < j < |kept| :: kept[i].revision < kept[j].revision)
            && (forall v | v in kept :: v in vs)
  {
    if vs != [] {
      var front := vs[..|vs| - 1];
      FreshVersionsFacts(front, now, ttl);
      assert forall v | v in front :: v in vs && v.revision < vs[|vs| - 1].revision;
    }
  }

  lemma PrunedKeepsHistory(r: RevState, now: real, l: Limits, bound: nat)
    requires HistoryOk(r, bound) && Clamped(l)
    ensures var t := PrunedVersions(r, now, l);
            && HistoryOk(t, l.maxRevisions) && t.current == r.current
            && forall k | k in t.snapshots :: k in r.snapshots && t.snapshots[k] == r.snapshots[k]
  {
    FreshVersionsFacts(r.versions, now, l.revisionTtl);
    var t := PrunedVersions(r, now, l);
    assert forall v | v in t.versions :: v in r.versions;
    forall k | k in SnapshotKeys(t.versions)
      ensures k in SnapshotKeys(r.versions)
    {
      var v :| v in t.versions && v.previousExists && v.revision == k;
    }
  }

  lemma LastVersionIsFresh(vs: seq<Version>, v: Version, now: real, l: Limits)
    requires v.createdAt == now && Clamped(l)
    ensures v in Newest(FreshVersions(vs + [v], now, l.revisionTtl), l.maxRevisions)
  {
    assert (vs + [v])[..|vs|] == vs;
    var young := FreshVersions(vs + [v], now, l.revisionTtl);
    assert young[|young| - 1] == v;
    var kept := Newest(young, l.maxRevisions);
    assert kept[|kept| - 1] == v;
  }

  /** The version just recorded survives the prune that follows it, with its snapshot. */
  lemma NewVersionSurvivesItsPrune(r: RevState, previous: Option<Bytes>, now: real, l: Limits, bound: nat)
    requires HistoryOk(r, bound) && Clamped(l) && previous.Some?
    ensures var t := PrunedVersions(Recorded(r, previous, now), now, l);
            t.current in t.snapshots && t.snapshots[t.current] == previous.value
  {
    hide HistoryOk, FreshVersions, Newest, NextRevision;
    RecordedKeepsHistory(r, previous, now, bound);
    NextIsCurrentPlusOne(r, bound);
    LastVersionIsFresh(r.versions, Version(r.current + 1, now, true), now, l);
  }

  lemma RecordKeepsHistory(s: Space, q: Path, previous: Option<Bytes>, now: real, p: Path, bound: nat)
    requires HistoryOk(RevsOf(s, p), bound)
    ensures HistoryOk(RevsOf(Record(s, q, previous, now), p), if p == q then bound + 1 else bound)
  {
    RecordedKeepsHistory(RevsOf(s, p), previous, now, bound);
  }

  lemma PruneKeepsHistory(s: Space, q: Path, now: real, l: Limits, p: Path, bound: nat)
    requires HistoryOk(RevsOf(s, p), bound) && Clamped(l)
    ensures HistoryOk(RevsOf(PruneRevisions(s, q, now, l), p), if p == q then l.maxRevisions else bound)
  {
    PrunedKeepsHistory(RevsOf(s, p), now, l, bound);
  }

  /** Recording and pruning a path leaves its history within the limit, others as they were. */
  lemma RecordAndPrune(s: Space, q: Path, previous: Option<Bytes>, now: real, l: Limits, p: Path, bound: nat)
    requires HistoryOk(RevsOf(s, p), bound) && Clamped(l)
    ensures HistoryOk(RevsOf(PruneRevisions(Record(s, q, previous, now), q, now, l), p),
                      if p == q then l.maxRevisions else bound)
  {
    RecordKeepsHistory(s, q, previous, now, p, bound);
    PruneKeepsHistory(Record(s, q, previous, now), q, now, l, p, if p == q then bound + 1 else bound);
  }

  lemma WeakerBound(r: RevState, bound: nat)
    ensures HistoryOk(r, bound) ==> HistoryOk(r, bound + 1)
  {
  }

  ghost function BoundOf(s: Space, l: Limits, p: Path): nat {
    l.maxRevisions + (if p in s.files then 1 else 0)
  }

  lemma RecordShape(s: Space, q: Path, previous: Option<Bytes>, now: real, p: Path)
    ensures var t := Record(s, q, previous, now);
            && t.files == s.files && t.trash == s.trash && t.blobs == s.blobs
            && (if p == q then RevsOf(t, p) == Recorded(RevsOf(s, p), previous, now) else RevsOf(t, p) == RevsOf(s, p))
  {
  }

  lemma PruneShape(s: Space, q: Path, now: real, l: Limits, p: Path)
    ensures var t := PruneRevisions(s, q, now, l);
            && t.files == s.files && t.trash == s.trash && t.blobs == s.blobs
            && (if p == q then RevsOf(t, p) == PrunedVersions(RevsOf(s, p), now, l) else RevsOf(t, p) == RevsOf(s, p))
  {
  }

  lemma RecordPruneKeeps(s: Space, written: Space, q: Path, previous: Option<Bytes>, now: real, l: Limits, p: Path)
    requires Clamped(l) && HistoryBounded(s, l, p) && RevsOf(written, p) == RevsOf(s, p)
    requires p != q ==> (p in written.files <==> p in s.files)
    ensures HistoryBounded(PruneRevisions(Record(written, q, previous, now), q, now, l), l, p)
    ensures p == q ==> HistoryOk(RevsOf(PruneRevisions(Record(written, q, previous, now), q, now, l), p), l.maxRevisions)
  {
    hide HistoryOk, Record, Recorded, PruneRevisions, PrunedVersions, RevsOf;
    var t := PruneRevisions(Record(written, q, previous, now), q, now, l);
    RecordAndPrune(written, q, previous, now, l, p, BoundOf(s, l, p));
    RecordShape(written, q, previous, now, p);
    PruneShape(Record(written, q, previous, now), q, now, l, p);
    WeakerBound(RevsOf(t, p), l.maxRevisions);
  }

  lemma CreateKeepsHistory(s: Space, q: Path, data: Bytes, l: Limits, io: Io, p: Path)
    requires Saved(io) && Clamped(l) && HistoryBounded(s, l, p)
    ensures HistoryBounded(Create(s, q, data, l, io).0, l, p)
    ensures p == q && Create(s, q, data, l, io).1.Done? ==> HistoryOk(RevsOf(Create(s, q, data, l, io).0, p), l.maxRevisions)
  {
    hide HistoryOk, Record, Recorded, PruneRevisions, PrunedVersions, QuotaAllows;
    RecordPruneKeeps(s, s.(files := s.files[q := data]), q, None, io.now, l, p);
  }

  lemma ReplaceKeepsHistory(s: Space, q: Path, data: Bytes, l: Limits, io: Io, p: Path)
    requires Saved(io) && q in s.files && Clamped(l) && HistoryBounded(s, l, p)
    ensures HistoryBounded(Replace(s, q, data, l, io).0, l, p)
    ensures p == q && Replace(s, q, data, l, io).1.Done? ==> HistoryOk(RevsOf(Replace(s, q, data, l, io).0, p), l.maxRevisions)
  {
    hide HistoryOk, Record, Recorded, PruneRevisions, PrunedVersions, QuotaAllows, HistoryFull;
    var s1 := PruneRevisions(s, q, io.now, l);
    PruneKeepsHistory(s, q, io.now, l, p, BoundOf(s, l, p));
    PruneShape(s, q, io.now, l, p);
    WeakerBound(RevsOf(s1, p), l.maxRevisions);
    RecordPruneKeeps(s1, s1.(files := s1.files[q := data]), q, Some(s.files[q]), io.now, l, p);
  }

  /** A move with both its records, before the two prunes. */
  ghost function Moved(s: Space, op: Op): Space
    requires op.MoveOp? && op.p in s.files
  {
    var data := s.files[op.p];
    var moved := s.(files := s.files[op.dst := data] - {op.p});
    Record(Record(moved, op.dst, Content(s, op.dst), op.io.now), op.p, Some(data), op.io.now)
  }

  lemma MoveShape(s: Space, op: Op, l: Limits)
    requires op.MoveOp? && Saved(op.io)
    ensures var (t, outcome) := Apply(s, op, l);
            if outcome.Denied? then t.revs == s.revs && s.files.Keys <= t.files.Keys
            else op.p in s.files && t == PruneRevisions(PruneRevisions(Moved(s, op), op.p, op.io.now, l), op.dst, op.io.now, l)
  {
    hide Record, PruneRevisions, QuotaAllows, RevisionMatches;
  }

  lemma MoveKeepsHistory(s: Space, op: Op, l: Limits, p: Path)
    requires op.MoveOp? && Saved(op.io) && Clamped(l) && HistoryBounded(s, l, p)
    ensures HistoryBounded(Step(s, op, l), l, p)
    ensures Writes(op, p) && Apply(s, op, l).1.Done? ==> HistoryOk(RevsOf(Step(s, op, l), p), l.maxRevisions)
  {
    hide HistoryOk, Record, Recorded, PruneRevisions, PrunedVersions, Apply;
    MoveShape(s, op, l);
    WeakerBound(RevsOf(s, p), l.maxRevisions);
    if Apply(s, op, l).1.Done? {
      var now, b := op.io.now, BoundOf(s, l, p);
      var data := s.files[op.p];
      var moved := s.(files := s.files[op.dst := data] - {op.p});
      var s2, s3 := Record(moved, op.dst, Content(s, op.dst), now), Moved(s, op);
      var s4 := PruneRevisions(s3, op.p, now, l);
      RecordKeepsHistory(moved, op.dst, Content(s, op.dst), now, p, b);
      var b2 := if p == op.dst then b + 1 else b;
      RecordKeepsHistory(s2, op.p, Some(data), now, p, b2);
      var b3 := if p == op.p then b2 + 1 else b2;
      PruneKeepsHistory(s3, op.p, now, l, p, b3);
      PruneKeepsHistory(s4, op.dst, now, l, p, if p == op.p then l.maxRevisions else b3);
      RecordShape(moved, op.dst, Content(s, op.dst), now, p);
      RecordShape(s2, op.p, Some(data), now, p);
      PruneShape(s3, op.p, now, l, p);
      PruneShape(s4, op.dst, now, l, p);
      WeakerBound(RevsOf(PruneRevisions(s4, op.dst, now, l), p), l.maxRevisions);
    }
  }

  lemma DeleteKeepsHistory(s: Space, op: Op, l: Limits, p: Path)
    requires op.DeleteOp? && Saved(op.io) && Clamped(l) && HistoryBounded(s, l, p)
    ensures HistoryBounded(Step(s, op, l), l, p)
    ensures p == op.p && Apply(s, op, l).1.Done? ==> HistoryOk(RevsOf(Step(s, op, l), p), l.maxRevisions)
  {
    hide HistoryOk, Record, Recorded, PruneRevisions, PrunedVersions, RevisionMatches, KeptTrash, Ids;
    var io, q := op.io, op.p;
    if q in s.files {
      var s1 := PruneTrash(s, io.now, l);
      var removed := s1.(blobs := s1.blobs[op.id := s.files[q]], files := s1.files - {q});
      var s2 := Record(removed, q, Some(s.files[q]), io.now);
      var s3 := PruneTrash(s2.(trash := s2.trash + [TrashItem(op.id, q, Current(s2, q), io.now)]), io.now, l);
      RecordPruneKeeps(s, removed, q, Some(s.files[q]), io.now, l, p);
      RecordShape(removed, q, Some(s.files[q]), io.now, p);
      PruneShape(s2, q, io.now, l, p);
      PruneShape(s3, q, io.now, l, p);
      assert RevsOf(PruneRevisions(s3, q, io.now, l), p) == RevsOf(PruneRevisions(s2, q, io.now, l), p) by {
        PruneSameHistory(s2, s3, q, io.now, l, p);
      }
    }
  }

  lemma PruneSameHistory(s: Space, t: Space, q: Path, now: real, l: Limits, p: Path)
    requires s.revs == t.revs
    ensures RevsOf(PruneRevisions(s, q, now, l), p) == RevsOf(PruneRevisions(t, q, now, l), p)
  {
  }

  lemma RestoreKeepsHistory(s: Space, op: Op, l: Limits, p: Path)
    requires op.RestoreOp? && Saved(op.io) && Clamped(l) && HistoryBounded(s, l, p)
    ensures HistoryBounded(Step(s, op, l), l, p)
  {
    hide HistoryOk, Record, Recorded, QuotaAllows, WithoutItem;
    if op.wanted.Some? {
      var i := FindTrash(s.trash, op.p, op.wanted.value);
      if i.Some? && s.trash[i.value].id in s.blobs {
        var written := s.(files := s.files[op.p := s.blobs[s.trash[i.value].id]]);
        RecordKeepsHistory(written, op.p, None, op.io.now, p, BoundOf(s, l, p));
        RecordShape(written, op.p, None, op.io.now, p);
      }
    }
  }

  /**
   * Every operation keeps the history of every path bounded, and any successful operation but a
   * restore leaves each path it wrote within the limit itself.
   */
  lemma StepKeepsHistory(s: Space, op: Op, l: Limits, p: Path)
    requires Saved(op.io) && Clamped(l) && HistoryBounded(s, l, p)
    ensures HistoryBounded(Step(s, op, l), l, p)
    ensures Writes(op, p) && !op.RestoreOp? && Apply(s, op, l).1.Done? ==> HistoryOk(RevsOf(Step(s, op, l), p), l.maxRevisions)
  {
    hide Create, Replace, Move, Delete, Restore, RevisionMatches, Joined, RevsOf, HistoryOk;
    match op
    case CreateOp(q, data, io) => CreateKeepsHistory(s, q, data, l, io, p);
    case UpdateOp(q, data, _, io) => if q in s.files { ReplaceKeepsHistory(s, q, data, l, io, p); }
    case AppendOp(q, data, _, io) =>
      if q in s.files { ReplaceKeepsHistory(s, q, Joined(s.files[q], data), l, io, p); } else { CreateKeepsHistory(s, q, data, l, io, p); }
    case MoveOp(_, _, _, _, _, _) => MoveKeepsHistory(s, op, l, p);
    case DeleteOp(_, _, _, _) => DeleteKeepsHistory(s, op, l, p);
    case RestoreOp(_, _, _) => RestoreKeepsHistory(s, op, l, p);
  }

  /** An operation that fails, or writes other paths, at most prunes the history of `p`. */
  lemma UnwrittenHistory(s: Space, op: Op, l: Limits, p: Path)
    requires Saved(op.io) && !(Writes(op, p) && Apply(s, op, l).1.Done?)
    ensures var r, t := RevsOf(s, p), RevsOf(Step(s, op, l), p); t == r || t == PrunedVersions(r, op.io.now, l)
  {
    hide Recorded, PrunedVersions, QuotaAllows, HistoryFull, TrashFull, RevisionMatches, Joined, KeptTrash, Ids, WithoutItem;
  }

  /** The last success of the run on `p`, if any, is a restore. */
  ghost predicate RestoredLast(s: Space, ops: seq<Op>, l: Limits, p: Path) {
    ops != [] &&
    var front, op := ops[..|ops| - 1], ops[|ops| - 1];
    if Writes(op, p) && Apply(Run(s, front, l), op, l).1.Done? then op.RestoreOp? else RestoredLast(s, front, l, p)
  }

  ghost predicate AllSaved(ops: seq<Op>) {
    forall op | op in ops :: Saved(op.io)
  }

  /** Over any run a history exceeds the limit, by one, only while the last success on its path is a restore. */
  lemma {:induction false} RunBoundsHistory(s: Space, ops: seq<Op>, l: Limits, p: Path)
    requires HistoryOk(RevsOf(s, p), l.maxRevisions) && Clamped(l) && AllSaved(ops)
    ensures HistoryBounded(Run(s, ops, l), l, p)
    ensures HistoryOk(RevsOf(Run(s, ops, l), p), l.maxRevisions + (if RestoredLast(s, ops, l, p) then 1 else 0))
  {
    hide Step, Apply, HistoryOk, RevsOf, PrunedVersions, Writes;
    if ops == [] {
      WeakerBound(RevsOf(s, p), l.maxRevisions);
    } else {
      var front, op := ops[..|ops| - 1], ops[|ops| - 1];
      var mid := Run(s, front, l);
      RunBoundsHistory(s, front, l, p);
      StepKeepsHistory(mid, op, l, p);
      StepIsApply(mid, op, l);
      var t := RevsOf(Step(mid, op, l), p);
      WeakerBound(t, l.maxRevisions);
      if !(Writes(op, p) && Apply(mid, op, l).1.Done?) {
        UnwrittenHistory(mid, op, l, p);
        PrunedKeepsHistory(RevsOf(mid, p), op.io.now, l, l.maxRevisions + (if RestoredLast(s, front, l, p) then 1 else 0));
      }
    }
  }

  lemma StepIsApply(s: Space, op: Op, l: Limits)
    ensures Step(s, op, l) == Apply(s, op, l).0
  {
  }

  // ---- Trash ----

  /** Identifiers are distinct, and items of one path are in the order of their revisions. */
  ghost predicate Orderly(ts: seq<TrashItem>) {
    forall i, j | 0 <= i < j < |ts| ::
      ts[i].id != ts[j].id && (ts[i].path == ts[j].path ==> ts[i].revision < ts[j].revision)
  }

  ghost predicate TrashOk(s: Space, l: Limits) {
    && Orderly(s.trash)
    && s.blobs.Keys == Ids(s.trash)
    && |s.trash| <= l.maxTrash
    && forall t | t in s.trash :: t.revision <= Current(s, t.path)
  }

  lemma {:induction false} FreshItemsArePart(ts: seq<TrashItem>, now: real, ttl: real)
    requires Orderly(ts)
    ensures Orderly(FreshItems(ts, now, ttl))
    ensures forall t | t in FreshItems(ts, now, ttl) :: t in ts
  {
    if ts != [] {
      var front, last := ts[..|ts| - 1], ts[|ts| - 1];
      FreshItemsArePart(front, now, ttl);
      forall t | t in front
        ensures t.id != last.id && (t.path == last.path ==> t.revision < last.revision)
      {
        var i :| 0 <= i < |front| && front[i] == t;
        assert ts[i] == t;
      }
    }
  }

  lemma KeptTrashFacts(ts: seq<TrashItem>, now: real, l: Limits)
    requires Orderly(ts)
    ensures Orderly(KeptTrash(ts, now, l)) && |KeptTrash(ts, now, l)| <= l.maxTrash
    ensures forall t | t in KeptTrash(ts, now, l) :: t in ts
    ensures Ids(KeptTrash(ts, now, l)) <= Ids(ts)
  {
    FreshItemsArePart(ts, now, l.trashTtl);
  }

  /** A trash item is dropped only when it expired or when `maxTrash` newer items displace it. */
  lemma {:induction false} FreshItemStays(ts: seq<TrashItem>, now: real, ttl: real, i: nat)
    requires i < |ts| && !Expired(ts[i], now, ttl)
    ensures exists k :: 0 <= k < |FreshItems(ts, now, ttl)| && FreshItems(ts, now, ttl)[k] == ts[i] &&
                        |FreshItems(ts, now, ttl)| - k <= |ts| - i
  {
    var kept := FreshItems(ts, now, ttl);
    if i == |ts| - 1 {
      assert kept[|kept| - 1] == ts[i];
    } else {
      FreshItemStays(ts[..|ts| - 1], now, ttl, i);
      var front := FreshItems(ts[..|ts| - 1], now, ttl);
      var k :| 0 <= k < |front| && front[k] == ts[i] && |front| - k <= |ts| - 1 - i;
      assert kept[k] == ts[i];
    }
  }

  lemma TrashItemStays(ts: seq<TrashItem>, now: real, l: Limits, i: nat)
    requires i < |ts| && !Expired(ts[i], now, l.trashTtl) && |ts| - i <= l.maxTrash
    ensures ts[i] in KeptTrash(ts, now, l)
  {
    FreshItemStays(ts, now, l.trashTtl, i);
    var kept := FreshItems(ts, now, l.trashTtl);
    var k :| 0 <= k < |kept| && kept[k] == ts[i] && |kept| - k <= |ts| - i;
    if |kept| > l.maxTrash {
      assert kept[|kept| - l.maxTrash..][k - (|kept| - l.maxTrash)] == ts[i];
    }
  }

  /** Whatever else changes, a trash stays consistent while it is the same and revisions only grow. */
  lemma SameTrashStaysOk(s: Space, t: Space, l: Limits)
    requires TrashOk(s, l) && t.trash == s.trash && t.blobs == s.blobs
    requires forall p :: Current(t, p) >= Current(s, p)
    ensures TrashOk(t, l)
  {
  }

  /** Pruning keeps the trash consistent and within its limit, even right after an item was added. */
  lemma PruneTrashKeepsTrash(s: Space, now: real, l: Limits)
    requires Orderly(s.trash) && s.blobs.Keys == Ids(s.trash)
    requires forall t | t in s.trash :: t.revision <= Current(s, t.path)
    ensures TrashOk(PruneTrash(s, now, l), l)
  {
    hide Orderly, KeptTrash, Ids;
    KeptTrashFacts(s.trash, now, l);
  }

  /** Adding the record of a delete to the trash keeps identifiers and revisions in order. */
  lemma AddedToTrash(s2: Space, item: TrashItem, bytes: Bytes, l: Limits)
    requires Orderly(s2.trash) && s2.blobs.Keys == Ids(s2.trash) + {item.id} && item.id !in Ids(s2.trash)
    requires forall t | t in s2.trash :: t.revision <= Current(s2, t.path) && (t.path == item.path ==> t.revision < item.revision)
    requires item.revision <= Current(s2, item.path)
    ensures var s3 := s2.(trash := s2.trash + [item]);
            Orderly(s3.trash) && s3.blobs.Keys == Ids(s3.trash)
            && forall t | t in s3.trash :: t.revision <= Current(s3, t.path)
  {
    var s3 := s2.(trash := s2.trash + [item]);
    assert forall t :: t in s3.trash <==> t in s2.trash || t == item;
    assert Ids(s3.trash) == Ids(s2.trash) + {item.id};
    forall i | 0 <= i < |s2.trash|
      ensures s2.trash[i].id != item.id
    {
      assert s2.trash[i] in s2.trash;
    }
  }

  /** The identifier of a new trash item is unused. */
  ghost predicate FreshId(s: Space, op: Op) {
    op.DeleteOp? ==> op.id !in s.blobs
  }

  /** The writes on which the trash depends: both prunes of a delete, its revision record and the index. */
  predicate TrashSaved(io: Io) {
    io.save(TrashPruneBefore) && io.save(Snapshot) && io.save(RecordState) && io.save(TrashIndex) && io.save(TrashPruneAfter)
  }

  lemma DoneWasSaved(s: Space, op: Op, l: Limits)
    requires op.DeleteOp? && Apply(s, op, l).1.Done?
    ensures TrashSaved(op.io)
  {
    hide TryRecord, TryPrune, TryPruneTrash, TrashFull, RevisionMatches;
  }

  /** The bucket of a delete with its new trash item, before the last two prunes. */
  ghost function WithTrashed(s: Space, op: Op, l: Limits): Space
    requires op.DeleteOp? && op.p in s.files
  {
    var io, q, s1 := op.io, op.p, PruneTrash(s, op.io.now, l);
    var removed := s1.(blobs := s1.blobs[op.id := s.files[q]], files := s1.files - {q});
    var s2 := Record(removed, q, Some(s.files[q]), io.now);
    s2.(trash := s2.trash + [TrashItem(op.id, q, Current(s2, q), io.now)])
  }

  ghost function Trashed(s: Space, op: Op, l: Limits): Space
    requires op.DeleteOp? && op.p in s.files
  {
    TryPrune(PruneTrash(WithTrashed(s, op, l), op.io.now, l), op.p, op.io.now, l, op.io.save(PruneAfter))
  }

  /** The bucket after a delete whose trash writes are saved: refused early, or with the new item. */
  lemma DeleteShape(s: Space, op: Op, l: Limits)
    requires op.DeleteOp? && TrashSaved(op.io)
    ensures var (t, outcome) := Apply(s, op, l);
            var s1 := PruneTrash(s, op.io.now, l);
            || ((t == s || t == s1 || t == s1.(blobs := s1.blobs - {op.id})) && outcome.Denied?)
            || (op.p in s.files && t == Trashed(s, op, l))
  {
    hide RevsOf, Recorded, PruneRevisions, RevisionMatches, TrashFull, PruneTrash;
  }

  /** The item a delete adds: fresh, and of a higher revision than any item of its path. */
  lemma WithTrashedFacts(s: Space, op: Op, l: Limits)
    requires op.DeleteOp? && op.p in s.files && FreshId(s, op) && TrashOk(s, l)
    ensures var s1, s3 := PruneTrash(s, op.io.now, l), WithTrashed(s, op, l);
            var item := TrashItem(op.id, op.p, Current(s3, op.p), op.io.now);
            && TrashOk(s1, l) && op.id !in s1.blobs
            && s3.trash == s1.trash + [item] && s3.blobs == s1.blobs[op.id := s.files[op.p]]
            && Current(s3, op.p) > Current(s, op.p)
            && Orderly(s3.trash) && s3.blobs.Keys == Ids(s3.trash)
            && forall t | t in s3.trash :: t.revision <= Current(s3, t.path)
  {
    hide Orderly, Record, RevisionMatches, PruneTrash;
    var io, q := op.io, op.p;
    var s1 := PruneTrash(s, io.now, l);
    PruneTrashKeepsTrash(s, io.now, l);
    PrunedTrashShape(s, io.now, l);
    var removed := s1.(blobs := s1.blobs[op.id := s.files[q]], files := s1.files - {q});
    var s2 := Record(removed, q, Some(s.files[q]), io.now);
    RecordShape(removed, q, Some(s.files[q]), io.now, q);
    forall t | t in s2.trash
      ensures t.revision <= Current(s2, t.path) && (t.path == q ==> t.revision < Current(s2, q))
    {
      RecordShape(removed, q, Some(s.files[q]), io.now, t.path);
    }
    AddedToTrash(s2, TrashItem(op.id, q, Current(s2, q), io.now), s.files[q], l);
  }

  lemma PrunedTrashShape(s: Space, now: real, l: Limits)
    ensures var t := PruneTrash(s, now, l); t.files == s.files && t.revs == s.revs && t.blobs.Keys <= s.blobs.Keys
  {
  }

  lemma PrunedTrashIsOk(s: Space, now: real, l: Limits)
    requires TrashOk(s, l)
    ensures TrashOk(PruneTrash(s, now, l), l)
  {
    PruneTrashKeepsTrash(s, now, l);
  }

  lemma TrashedIsOk(s: Space, op: Op, l: Limits)
    requires op.DeleteOp? && op.p in s.files && FreshId(s, op) && TrashOk(s, l)
    ensures TrashOk(Trashed(s, op, l), l)
  {
    hide Orderly, PruneTrash, WithTrashed, TryPrune;
    var s3, s4 := WithTrashed(s, op, l), PruneTrash(WithTrashed(s, op, l), op.io.now, l);
    WithTrashedFacts(s, op, l);
    PruneTrashKeepsTrash(s3, op.io.now, l);
    forall p
      ensures Current(Trashed(s, op, l), p) >= Current(s4, p)
    {
      PruneGrows(s4, op.p, op.io.now, l, op.io.save(PruneAfter), p);
    }
    PruneGrows(s4, op.p, op.io.now, l, op.io.save(PruneAfter), op.p);
    SameTrashStaysOk(s4, Trashed(s, op, l), l);
  }

  lemma DeleteKeepsTrash(s: Space, op: Op, l: Limits)
    requires op.DeleteOp? && TrashSaved(op.io) && FreshId(s, op) && TrashOk(s, l)
    ensures TrashOk(Step(s, op, l), l)
  {
    hide TrashOk, Apply, PruneTrash, Trashed;
    var s1 := PruneTrash(s, op.io.now, l);
    DeleteShape(s, op, l);
    PrunedTrashIsOk(s, op.io.now, l);
    PrunedTrashShape(s, op.io.now, l);
    assert op.id !in s1.blobs && s1.(blobs := s1.blobs - {op.id}) == s1;
    if op.p in s.files {
      TrashedIsOk(s, op, l);
    }
  }

  lemma WithoutItemFacts(ts: seq<TrashItem>, i: nat)
    requires i < |ts| && Orderly(ts)
    ensures Orderly(WithoutItem(ts, i)) && |WithoutItem(ts, i)| == |ts| - 1
    ensures forall t :: t in WithoutItem(ts, i) <==> t in ts && t != ts[i]
    ensures Ids(WithoutItem(ts, i)) == Ids(ts) - {ts[i].id}
  {
    var rest := WithoutItem(ts, i);
    forall t | t in ts && t != ts[i]
      ensures t in rest
    {
      var k :| 0 <= k < |ts| && ts[k] == t;
      assert rest[if k < i then k else k - 1] == t;
    }
    assert forall t | t in rest :: exists k :: 0 <= k < |ts| && k != i && ts[k] == t;
  }

  /** What a restore does to trash and blobs: nothing, or it takes out one item with its blob. */
  lemma RestoreShape(s: Space, op: Op, l: Limits)
    requires op.RestoreOp?
    ensures var (t, outcome) := Apply(s, op, l);
            if outcome.Denied? then t.trash == s.trash && t.blobs == s.blobs
            else
              && op.wanted.Some?
              && var i := FindTrash(s.trash, op.p, op.wanted.value);
                 && i.Some? && s.trash[i.value].id in s.blobs
                 && t.trash == WithoutItem(s.trash, i.value) && t.blobs == s.blobs - {s.trash[i.value].id}
  {
    hide RevsOf, Recorded, QuotaAllows, WithoutItem;
  }

  lemma RestoreKeepsTrash(s: Space, op: Op, l: Limits)
    requires op.RestoreOp? && TrashOk(s, l)
    ensures TrashOk(Step(s, op, l), l)
  {
    hide Orderly, Apply, WithoutItem, Current, Ids;
    var t := Step(s, op, l);
    RestoreShape(s, op, l);
    forall p
      ensures Current(t, p) >= Current(s, p)
    {
      StepRaisesRevision(s, op, l, p);
      GrowsIsMonotone(s, t, p);
    }
    if Apply(s, op, l).1.Denied? {
      SameTrashStaysOk(s, t, l);
    } else {
      WithoutItemFacts(s.trash, FindTrash(s.trash, op.p, op.wanted.value).value);
    }
  }

  /** The other operations leave trash and blobs alone. */
  lemma WritesLeaveTrash(s: Space, op: Op, l: Limits)
    requires !op.DeleteOp? && !op.RestoreOp?
    ensures Step(s, op, l).trash == s.trash && Step(s, op, l).blobs == s.blobs
  {
    hide Recorded, PrunedVersions, QuotaAllows, RevisionMatches, HistoryFull, Joined, RevsOf;
  }

  /** What the trash asks of an operation: a delete brings an unused identifier and gets its writes saved. */
  ghost predicate TrashSound(s: Space, op: Op) {
    FreshId(s, op) && (op.DeleteOp? ==> TrashSaved(op.io))
  }

  /** Every operation keeps the trash within its limit, its items and blobs in one-to-one correspondence. */
  lemma StepKeepsTrash(s: Space, op: Op, l: Limits)
    requires TrashSound(s, op) && TrashOk(s, l)
    ensures TrashOk(Step(s, op, l), l)
  {
    hide TrashOk, Step, Current;
    if op.DeleteOp? {
      DeleteKeepsTrash(s, op, l);
    } else if op.RestoreOp? {
      RestoreKeepsTrash(s, op, l);
    } else {
      WritesLeaveTrash(s, op, l);
      forall p
        ensures Current(Step(s, op, l), p) >= Current(s, p)
      {
        StepGrows(s, op, l, p);
        GrowsIsMonotone(s, Step(s, op, l), p);
      }
      SameTrashStaysOk(s, Step(s, op, l), l);
    }
  }

  // ---- Quotas ----

  ghost predicate FilesFit(files: map<Path, Bytes>, l: Limits) {
    && Total(files) <= l.maxTotalBytes
    && |files| <= l.maxFiles
    && forall p | p in files :: |files[p]| <= l.maxFileBytes
  }

  /** A write the quota check allows stays within the quotas. */
  lemma AllowedWriteFits(s: Space, p: Path, data: Bytes, l: Limits)
    requires FilesFit(s.files, l) && QuotaAllows(s, p, data, p in s.files, l)
    ensures FilesFit(s.files[p := data], l)
  {
    TotalPut(s.files, p, data);
    var files := s.files[p := data];
    if p in s.files {
      assert files.Keys == s.files.Keys && |files| == |files.Keys| && |s.files| == |s.files.Keys|;
    }
  }

  lemma RemovalFits(files: map<Path, Bytes>, p: Path, l: Limits)
    requires FilesFit(files, l)
    ensures FilesFit(files - {p}, l)
  {
    if p in files {
      TotalRemove(files, p);
      RemoveShrinks(files, p);
    } else {
      assert files - {p} == files;
    }
  }

  lemma CreateFits(s: Space, q: Path, data: Bytes, l: Limits, io: Io)
    requires FilesFit(s.files, l)
    ensures FilesFit(Create(s, q, data, l, io).0.files, l)
  {
    hide FilesFit, QuotaAllows, Recorded, PrunedVersions;
    if q !in s.files && QuotaAllows(s, q, data, false, l) {
      AllowedWriteFits(s, q, data, l);
    }
  }

  lemma ReplaceFits(s: Space, q: Path, data: Bytes, l: Limits, io: Io)
    requires FilesFit(s.files, l) && q in s.files
    ensures FilesFit(Replace(s, q, data, l, io).0.files, l)
  {
    hide FilesFit, QuotaAllows, Recorded, PrunedVersions, HistoryFull;
    if QuotaAllows(s, q, data, true, l) {
      AllowedWriteFits(s, q, data, l);
    }
  }

  lemma MoveFits(s: Space, op: Op, l: Limits)
    requires op.MoveOp? && FilesFit(s.files, l)
    ensures FilesFit(Step(s, op, l).files, l)
  {
    hide FilesFit, QuotaAllows, Recorded, PrunedVersions, RevisionMatches;
    if op.p in s.files && QuotaAllows(s, op.dst, s.files[op.p], op.dst in s.files, l) {
      AllowedWriteFits(s, op.dst, s.files[op.p], l);
      RemovalFits(s.files[op.dst := s.files[op.p]], op.p, l);
    }
  }

  lemma DeleteFits(s: Space, op: Op, l: Limits)
    requires op.DeleteOp? && FilesFit(s.files, l)
    ensures FilesFit(Step(s, op, l).files, l)
  {
    hide FilesFit, Recorded, PrunedVersions, RevisionMatches, KeptTrash, Ids;
    RemovalFits(s.files, op.p, l);
  }

  lemma RestoreFits(s: Space, op: Op, l: Limits)
    requires op.RestoreOp? && FilesFit(s.files, l)
    ensures FilesFit(Step(s, op, l).files, l)
  {
    hide FilesFit, QuotaAllows, Recorded, WithoutItem;
    if op.wanted.Some? {
      var i := FindTrash(s.trash, op.p, op.wanted.value);
      if i.Some? && op.p !in s.files && s.trash[i.value].id in s.blobs {
        var data := s.blobs[s.trash[i.value].id];
        if QuotaAllows(s, op.p, data, false, l) {
          AllowedWriteFits(s, op.p, data, l);
        }
      }
    }
  }

  /** Every operation, whatever fails, keeps total bytes, file count and file sizes within the limits. */
  lemma StepKeepsQuota(s: Space, op: Op, l: Limits)
    requires FilesFit(s.files, l)
    ensures FilesFit(Step(s, op, l).files, l)
  {
    hide Create, Replace, Move, Delete, Restore, RevisionMatches, Joined, FilesFit;
    match op
    case CreateOp(q, data, io) => CreateFits(s, q, data, l, io);
    case UpdateOp(q, data, _, io) => if q in s.files { ReplaceFits(s, q, data, l, io); }
    case AppendOp(q, data, _, io) =>
      if q in s.files { ReplaceFits(s, q, Joined(s.files[q], data), l, io); } else { CreateFits(s, q, data, l, io); }
    case MoveOp(_, _, _, _, _, _) => MoveFits(s, op, l);
    case DeleteOp(_, _, _, _) => DeleteFits(s, op, l);
    case RestoreOp(_, _, _) => RestoreFits(s, op, l);
  }

  /** Over any run, whatever fails, the quotas hold. */
  lemma {:induction false} RunKeepsQuota(s: Space, ops: seq<Op>, l: Limits)
    requires FilesFit(s.files, l)
    ensures FilesFit(Run(s, ops, l).files, l)
  {
    hide Step, FilesFit;
    if ops != [] {
      RunKeepsQuota(s, ops[..|ops| - 1], l);
      StepKeepsQuota(Run(s, ops[..|ops| - 1], l), ops[|ops| - 1], l);
    }
  }
}
