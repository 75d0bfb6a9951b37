/**
 * Conservation and recovery of cleanup operations (core/character_cleanup.py) under failure at any
 * move or manifest write.
 */
module CleanupRecovery {
  import opened Cleanup

  /** Targets have distinct keys and distinct paths. */
  ghost predicate Distinct(ts: seq<Target>) {
    forall i, j | 0 <= i < j < |ts| :: ts[i].key != ts[j].key && ts[i].path != ts[j].path
  }

  /** Before the operation every target is at its path and the archive folder is empty. */
  ghost predicate Untouched(files: Files, operation: nat, ts: seq<Target>) {
    Distinct(ts) && forall t | t in ts :: Source(t) in files && SlotOf(operation, t) !in files
  }

  ghost function Keys(ts: seq<Target>): set<string> {
    set t | t in ts :: t.key
  }

  /** `loc` is a path or slot of one of the targets. */
  ghost predicate Involved(loc: Loc, operation: nat, ts: seq<Target>) {
    exists t :: t in ts && (loc == Source(t) || loc == SlotOf(operation, t))
  }

  /**
   * Of the files `start`, the targets with keys in `out` are in their slots and all others at their
   * paths, each in exactly one of the two and with its data; every other file is as it was.
   */
  ghost predicate Arranged(start: Files, now: Files, operation: nat, ts: seq<Target>, out: set<string>) {
    && (forall t | t in ts :: Source(t) in start)
    && (forall t | t in ts ::
          if t.key in out
          then Source(t) !in now && SlotOf(operation, t) in now && now[SlotOf(operation, t)] == start[Source(t)]
          else Source(t) in now && SlotOf(operation, t) !in now && now[Source(t)] == start[Source(t)])
    && forall loc | !Involved(loc, operation, ts) ::
         (loc in now <==> loc in start) && (loc in now ==> now[loc] == start[loc])
  }

  lemma ArrangedAtStart(files: Files, operation: nat, ts: seq<Target>)
    requires Untouched(files, operation, ts)
    ensures Arranged(files, files, operation, ts, {})
  {
  }

  /** With nothing in the archive the file map is the original one. */
  lemma NothingArchived(start: Files, now: Files, operation: nat, ts: seq<Target>)
    requires Untouched(start, operation, ts) && Arranged(start, now, operation, ts, {})
    ensures now == start
  {
    forall loc
      ensures loc in now <==> loc in start
      ensures loc in now && loc in start ==> now[loc] == start[loc]
    {
      if Involved(loc, operation, ts) {
        var t :| t in ts && (loc == Source(t) || loc == SlotOf(operation, t));
      }
    }
  }

  lemma DistinctTargets(ts: seq<Target>, a: Target, b: Target)
    requires Distinct(ts) && a in ts && b in ts && (a.key == b.key || a.path == b.path)
    ensures a == b
  {
  }

  lemma MoveOut(start: Files, now: Files, operation: nat, ts: seq<Target>, out: set<string>, t: Target)
    requires Untouched(start, operation, ts) && Arranged(start, now, operation, ts, out) && t in ts && t.key !in out
    ensures Arranged(start, Move(now, Source(t), SlotOf(operation, t)), operation, ts, out + {t.key})
  {
    forall u | u in ts && (u.key == t.key || u.path == t.path) { DistinctTargets(ts, u, t); }
    assert Involved(Source(t), operation, ts) && Involved(SlotOf(operation, t), operation, ts);
  }

  lemma MoveBack(start: Files, now: Files, operation: nat, ts: seq<Target>, out: set<string>, t: Target)
    requires Untouched(start, operation, ts) && Arranged(start, now, operation, ts, out) && t in ts && t.key in out
    ensures Arranged(start, Move(now, SlotOf(operation, t), Source(t)), operation, ts, out - {t.key})
  {
    forall u | u in ts && (u.key == t.key || u.path == t.path) { DistinctTargets(ts, u, t); }
    assert Involved(Source(t), operation, ts) && Involved(SlotOf(operation, t), operation, ts);
  }

  lemma KeysSnoc(ts: seq<Target>)
    requires ts != []
    ensures Keys(ts) == Keys(ts[..|ts| - 1]) + {ts[|ts| - 1].key}
    ensures Distinct(ts) ==> ts[|ts| - 1].key !in Keys(ts[..|ts| - 1])
  {
    assert forall t :: t in ts <==> t in ts[..|ts| - 1] || t == ts[|ts| - 1];
    if Distinct(ts) {
      forall t | t in ts[..|ts| - 1]
        ensures t.key != ts[|ts| - 1].key
      {
        var i :| 0 <= i < |ts| - 1 && ts[i] == t;
      }
    }
  }

  lemma NoKeys()
    ensures Keys([]) == {}
  {
  }

  lemma DistinctFront(ts: seq<Target>, n: nat)
    requires Distinct(ts) && n <= |ts|
    ensures Distinct(ts[..n])
  {
  }

  lemma {:induction false} ForwardArranges(start: Files, operation: nat, ts: seq<Target>, n: nat)
    requires Untouched(start, operation, ts) && n <= |ts|
    ensures Arranged(start, Forward(start, operation, ts[..n]), operation, ts, Keys(ts[..n]))
  {
    hide Arranged, Move;
    if n == 0 {
      ArrangedAtStart(start, operation, ts);
      assert Keys(ts[..0]) == {};
    } else {
      var done := ts[..n];
      assert done[..n - 1] == ts[..n - 1];
      ForwardArranges(start, operation, ts, n - 1);
      KeysSnoc(done);
      MoveOut(start, Forward(start, operation, ts[..n - 1]), operation, ts, Keys(ts[..n - 1]), ts[n - 1]);
    }
  }

  /** Keys among the first `n` targets whose move back fails. */
  ghost function Stuck(ts: seq<Target>, n: nat, ok: nat -> bool): set<string>
    requires n <= |ts|
  {
    set i | 0 <= i < n && !ok(i) :: ts[i].key
  }

  lemma {:induction false} UndoArranges(start: Files, now: Files, operation: nat, ts: seq<Target>, n: nat,
                                        ok: nat -> bool, left: set<string>)
    requires Untouched(start, operation, ts) && n <= |ts|
    requires Arranged(start, now, operation, ts, Keys(ts[..n]) + left) && left !! Keys(ts[..n])
    ensures Arranged(start, Undo(now, operation, ts[..n], ok), operation, ts, Stuck(ts, n, ok) + left)
    decreases n
  {
    hide Arranged, Move;
    if n == 0 {
      assert Keys(ts[..0]) + left == Stuck(ts, 0, ok) + left;
    } else {
      var done, t := ts[..n], ts[n - 1];
      assert done[..n - 1] == ts[..n - 1] && done[n - 1] == t;
      DistinctFront(ts, n);
      KeysSnoc(done);
      if ok(n - 1) {
        MoveBack(start, now, operation, ts, Keys(done) + left, t);
        assert Keys(done) + left - {t.key} == Keys(ts[..n - 1]) + left;
        UndoArranges(start, Move(now, SlotOf(operation, t), Source(t)), operation, ts, n - 1, ok, left);
        assert Stuck(ts, n, ok) == Stuck(ts, n - 1, ok);
      } else {
        assert Keys(done) + left == Keys(ts[..n - 1]) + (left + {t.key});
        UndoArranges(start, now, operation, ts, n - 1, ok, left + {t.key});
        assert Stuck(ts, n, ok) + left == Stuck(ts, n - 1, ok) + (left + {t.key});
      }
    }
  }

  /** The keys a removal leaves in the archive. */
  ghost function LeftInArchive(ts: seq<Target>, allowed: bool, io: RemoveIo): set<string> {
    var n := MoveCount(io.move, |ts|);
    if !allowed || !io.prepare then {}
    else if n == |ts| && io.finish then Keys(ts)
    else Stuck(ts, n, io.undo)
  }

  /**
   * A removal, wherever it fails, keeps every target in exactly one of its path and its slot, and
   * touches nothing else: all are archived on success, and otherwise only those whose move back failed.
   */
  lemma RemoveConserves(a: Archive, operation: nat, ts: seq<Target>, allowed: bool, io: RemoveIo)
    requires Untouched(a.files, operation, ts)
    ensures Arranged(a.files, Remove(a, operation, ts, allowed, io).0.files, operation, ts, LeftInArchive(ts, allowed, io))
  {
    hide Arranged, Forward, Undo;
    var n := MoveCount(io.move, |ts|);
    if !allowed || !io.prepare {
      ArrangedAtStart(a.files, operation, ts);
    } else {
      ForwardArranges(a.files, operation, ts, n);
      assert ts[..|ts|] == ts;
      assert Keys(ts[..n]) + {} == Keys(ts[..n]);
      if n < |ts| || !io.finish {
        UndoArranges(a.files, Forward(a.files, operation, ts[..n]), operation, ts, n, io.undo, {});
        assert Stuck(ts, n, io.undo) + {} == Stuck(ts, n, io.undo);
      }
    }
  }

  /** An unsuccessful removal leaves the file map unchanged exactly when it undid every move it had made. */
  lemma FailedRemoveChangesNothingIff(a: Archive, operation: nat, ts: seq<Target>, allowed: bool, io: RemoveIo)
    requires Untouched(a.files, operation, ts)
    requires Remove(a, operation, ts, allowed, io).1 != Done
    ensures Remove(a, operation, ts, allowed, io).0.files == a.files <==>
            !allowed || !io.prepare || AllUndone(MoveCount(io.move, |ts|), io.undo)
  {
    hide Remove, Undo, Forward, MoveCount, Involved;
    var n, b, left := MoveCount(io.move, |ts|), Remove(a, operation, ts, allowed, io).0, LeftInArchive(ts, allowed, io);
    RemoveConserves(a, operation, ts, allowed, io);
    FailedRemoveLeaves(a, operation, ts, allowed, io);
    if left == {} {
      NothingArchived(a.files, b.files, operation, ts);
    } else {
      var k :| k in left;
      var i :| 0 <= i < n && !io.undo(i) && ts[i].key == k;
      assert ts[i] in ts && Source(ts[i]) in a.files && Source(ts[i]) !in b.files;
    }
  }

  lemma FailedRemoveLeaves(a: Archive, operation: nat, ts: seq<Target>, allowed: bool, io: RemoveIo)
    requires Remove(a, operation, ts, allowed, io).1 != Done
    ensures var n := MoveCount(io.move, |ts|);
            && LeftInArchive(ts, allowed, io) == (if !allowed || !io.prepare then {} else Stuck(ts, n, io.undo))
            && (Stuck(ts, n, io.undo) == {} <==> AllUndone(n, io.undo))
  {
    var n := MoveCount(io.move, |ts|);
    if i :| 0 <= i < n && !io.undo(i) {
      assert ts[i].key in Stuck(ts, n, io.undo);
    }
  }

  // ---- Restore ----

  lemma {:induction false} ArchivedAre(start: Files, now: Files, operation: nat, ts: seq<Target>, n: nat, out: set<string>)
    requires n <= |ts| && Distinct(ts) && Arranged(start, now, operation, ts, out)
    ensures var r := Archived(now, operation, ts[..n]);
            Distinct(r) && forall t :: t in r <==> t in ts[..n] && t.key in out
  {
    hide Involved;
    if n > 0 {
      var done, t := ts[..n], ts[n - 1];
      assert done[..n - 1] == ts[..n - 1];
      ArchivedAre(start, now, operation, ts, n - 1, out);
      assert forall u :: u in done <==> u in ts[..n - 1] || u == t;
      var front := Archived(now, operation, ts[..n - 1]);
      forall i | 0 <= i < |front|
        ensures front[i].key != t.key && front[i].path != t.path
      {
        assert front[i] in ts[..n - 1];
        var k :| 0 <= k < n - 1 && ts[k] == front[i];
      }
    }
  }

  lemma {:induction false} BackwardArranges(start: Files, now: Files, operation: nat, ts: seq<Target>, out: set<string>,
                                            rs: seq<Target>, n: nat)
    requires Untouched(start, operation, ts) && Arranged(start, now, operation, ts, out)
    requires n <= |rs| && Distinct(rs) && forall t | t in rs :: t in ts && t.key in out
    ensures Arranged(start, Backward(now, operation, rs[..n]), operation, ts, out - Keys(rs[..n]))
  {
    hide Arranged, Move, Untouched, Distinct, Keys;
    if n == 0 {
      NoKeys();
      assert rs[..0] == [] && out - Keys(rs[..0]) == out;
    } else {
      var done, t := rs[..n], rs[n - 1];
      assert done[..n - 1] == rs[..n - 1];
      BackwardArranges(start, now, operation, ts, out, rs, n - 1);
      DistinctFront(rs, n);
      KeysSnoc(done);
      MoveBack(start, Backward(now, operation, rs[..n - 1]), operation, ts, out - Keys(rs[..n - 1]), t);
      assert out - Keys(rs[..n - 1]) - {t.key} == out - Keys(done);
    }
  }

  /** Undoing a restore, even halfway, keeps the files arranged. */
  lemma {:induction false} RedoArranges(start: Files, now: Files, operation: nat, ts: seq<Target>, out: set<string>,
                                        rs: seq<Target>, n: nat, ok: nat -> bool) returns (left: set<string>)
    requires n <= |rs| && Distinct(rs) && forall t | t in rs :: t in ts && t.key in out
    requires Untouched(start, operation, ts) && Arranged(start, now, operation, ts, out - Keys(rs[..n]))
    ensures left <= out && Arranged(start, Redo(now, operation, rs[..n], ok), operation, ts, left)
    ensures AllUndone(n, ok) ==> left == out
    ensures !AllUndone(n, ok) ==> exists t :: t in rs && t.key !in left
    decreases n
  {
    hide Arranged, Move, Untouched, Distinct, Keys;
    assert rs[..0] == [];
    NoKeys();
    if n == 0 || !ok(n - 1) {
      left := out - Keys(rs[..n]);
      assert n > 0 ==> rs[n - 1] in rs && rs[n - 1].key !in left by {
        if n > 0 {
          KeysSnoc(rs[..n]);
        }
      }
    } else {
      var done, t := rs[..n], rs[n - 1];
      assert done[..n - 1] == rs[..n - 1];
      DistinctFront(rs, n);
      KeysSnoc(done);
      MoveOut(start, now, operation, ts, out - Keys(done), t);
      assert out - Keys(done) + {t.key} == out - Keys(rs[..n - 1]);
      left := RedoArranges(start, Move(now, Source(t), SlotOf(operation, t)), operation, ts, out, rs, n - 1, ok);
    }
  }

  /** The files and the manifest are as a removal of `ts`, finished or not, leaves them. */
  ghost predicate Recoverable(start: Files, a: Archive, operation: nat, ts: seq<Target>, out: set<string>) {
    && Untouched(start, operation, ts) && Arranged(start, a.files, operation, ts, out) && out <= Keys(ts)
    && operation in a.manifests && a.manifests[operation].sources == ts
    && (a.manifests[operation].status == Deleted ==> out == Keys(ts))
    && (a.manifests[operation].status == RolledBack || a.manifests[operation].status == Restored ==> out == {})
  }

  /** Whatever fails, what a removal leaves behind is recoverable once its manifest was prepared. */
  lemma RemoveIsRecoverable(a: Archive, operation: nat, ts: seq<Target>, io: RemoveIo)
    requires Untouched(a.files, operation, ts) && io.prepare
    ensures Recoverable(a.files, Remove(a, operation, ts, true, io).0, operation, ts, LeftInArchive(ts, true, io))
  {
    hide Arranged, Untouched, Undo, Forward;
    RemoveConserves(a, operation, ts, true, io);
    var n := MoveCount(io.move, |ts|);
    assert Stuck(ts, n, io.undo) <= Keys(ts) by {
      forall i | 0 <= i < n ensures ts[i].key in Keys(ts) { assert ts[i] in ts; }
    }
    if AllUndone(n, io.undo) {
      assert Stuck(ts, n, io.undo) == {};
    }
  }

  /** The targets a restore moves back are exactly those in the archive. */
  lemma ToRestoreIsArchived(start: Files, a: Archive, operation: nat, ts: seq<Target>, out: set<string>)
    requires Recoverable(start, a, operation, ts, out)
    ensures var rs := ToRestore(a, operation);
            && Distinct(rs) && (forall t :: t in rs <==> t in ts && t.key in out)
            && Keys(rs) == out
  {
    hide Arranged;
    var rs := ToRestore(a, operation);
    assert ts[..|ts|] == ts;
    ArchivedAre(start, a.files, operation, ts, |ts|, out);
    assert Distinct(ts);
    forall k | k in out
      ensures k in Keys(rs)
    {
      var t :| t in ts && t.key == k;
      assert t in rs;
    }
  }

  /** A restore, wherever it fails, keeps every target in exactly one place and touches nothing else. */
  lemma RestoreConserves(start: Files, a: Archive, operation: nat, ts: seq<Target>, out: set<string>,
                         cards: set<string>, active: bool, io: RestoreIo) returns (left: set<string>)
    requires Recoverable(start, a, operation, ts, out)
    ensures var (b, result) := Restore(a, operation, cards, active, io);
            && left <= out && Arranged(start, b.files, operation, ts, left)
            && (result == Done ==> left == {}) && (result == Conflict ==> b == a)
            && b.manifests.Keys == a.manifests.Keys && (result != Done ==> b.manifests == a.manifests)
            && (result == Failed ==>
                  if AllUndone(MoveCount(io.move, |ToRestore(a, operation)|), io.undo) then left == out
                  else exists t :: t in ts && t.key in out && t.key !in left)
  {
    hide Arranged, Untouched, RestoreConflicts, ToRestore, Backward, Redo;
    left := out;
    var m := a.manifests[operation];
    if m.status != RolledBack && m.status != Restored && !active && !RestoreConflicts(a, operation, cards) {
      var rs := ToRestore(a, operation);
      ToRestoreIsArchived(start, a, operation, ts, out);
      var n := MoveCount(io.move, |rs|);
      BackwardArranges(start, a.files, operation, ts, out, rs, n);
      assert rs[..|rs|] == rs;
      if n == |rs| && io.report {
        left := {};
        assert out - Keys(rs) == {};
      } else {
        left := RedoArranges(start, Backward(a.files, operation, rs[..n]), operation, ts, out, rs, n, io.undo);
      }
    }
  }

  /** The files are determined by where the targets are. */
  lemma ArrangedIsUnique(start: Files, x: Files, y: Files, operation: nat, ts: seq<Target>, out: set<string>)
    requires Arranged(start, x, operation, ts, out) && Arranged(start, y, operation, ts, out)
    ensures x == y
  {
    forall loc
      ensures (loc in x <==> loc in y) && (loc in x ==> x[loc] == y[loc])
    {
      if Involved(loc, operation, ts) {
        var t :| t in ts && (loc == Source(t) || loc == SlotOf(operation, t));
      }
    }
  }

  /** A failed restore that undid its moves changed nothing, and so can be tried again. */
  lemma UndoneRestoreChangesNothing(start: Files, a: Archive, operation: nat, ts: seq<Target>, out: set<string>,
                                    cards: set<string>, active: bool, io: RestoreIo)
    requires Recoverable(start, a, operation, ts, out)
    requires Restore(a, operation, cards, active, io).1 == Failed
    requires AllUndone(MoveCount(io.move, |ToRestore(a, operation)|), io.undo)
    ensures Restore(a, operation, cards, active, io).0 == a
  {
    hide Arranged, Untouched, Restore, ToRestore, MoveCount;
    var left := RestoreConserves(start, a, operation, ts, out, cards, active, io);
    ArrangedIsUnique(start, Restore(a, operation, cards, active, io).0.files, a.files, operation, ts, out);
  }

  /** While a target of a finished removal is in place, every restore is refused. */
  lemma PartlyRestoredIsRefused(start: Files, a: Archive, operation: nat, ts: seq<Target>, left: set<string>, t: Target,
                                cards: set<string>, active: bool, io: RestoreIo)
    requires Arranged(start, a.files, operation, ts, left) && t in ts && t.key !in left
    requires operation in a.manifests && a.manifests[operation] == Manifest(Deleted, ts)
    ensures Restore(a, operation, cards, active, io) == (a, Conflict)
  {
    assert t in ToRestore(a, operation) && Source(t) in a.files;
  }

  /**
   * After a failed restore of a finished removal, a restore without failures succeeds exactly when the
   * failed one undid every move it had made.
   */
  lemma FailedRestoreCanBeRetriedIff(start: Files, a: Archive, operation: nat, ts: seq<Target>, out: set<string>,
                                     cards: set<string>, active: bool, io: RestoreIo, later: RestoreIo)
    requires Recoverable(start, a, operation, ts, out) && a.manifests[operation].status == Deleted
    requires Restore(a, operation, cards, active, io).1 == Failed
    requires (forall i: nat :: later.move(i)) && later.report
    ensures var b := Restore(a, operation, cards, active, io).0;
            Restore(b, operation, cards, active, later).1 == Done <==>
            AllUndone(MoveCount(io.move, |ToRestore(a, operation)|), io.undo)
  {
    hide Arranged, Untouched, ToRestore, Backward, Redo, RestoreConflicts, AllUndone;
    var b := Restore(a, operation, cards, active, io).0;
    var left := RestoreConserves(start, a, operation, ts, out, cards, active, io);
    if AllUndone(MoveCount(io.move, |ToRestore(a, operation)|), io.undo) {
      UndoneRestoreChangesNothing(start, a, operation, ts, out, cards, active, io);
      CountIs(later.move, |ToRestore(a, operation)|, |ToRestore(a, operation)|);
    } else {
      var t :| t in ts && t.key in out && t.key !in left;
      PartlyRestoredIsRefused(start, b, operation, ts, left, t, cards, active, later);
    }
  }

  /**
   * Two removed targets, the second of which cannot be moved back into place, and the first of which
   * cannot be returned to the archive: every later restore is refused.
   */
  lemma HalfUndoneRestoreBlocksRestore() returns (a: Archive, ts: seq<Target>, io: RestoreIo)
    ensures Recoverable(a.files, Remove(a, 0, ts, true, NoFaults()).0, 0, ts, Keys(ts))
    ensures var removed := Remove(a, 0, ts, true, NoFaults()).0;
            && Restore(removed, 0, {}, false, io).1 == Failed
            && forall later: RestoreIo :: Restore(Restore(removed, 0, {}, false, io).0, 0, {}, false, later).1 == Conflict
  {
    hide Arranged, Untouched, Forward, Backward, Redo;
    var memory, live2d := Target("memory", "data/memory"), Target("live2d", "live2d/c");
    ts := [memory, live2d];
    a := Archive(map[Source(memory) := "m", Source(live2d) := "l"], map[]);
    assert Untouched(a.files, 0, ts) by { TwoUntouched(a.files, 0, memory, live2d); }
    io := RestoreIo(i => i == 0, true, i => false);
    var removed := Remove(a, 0, ts, true, NoFaults()).0;
    CountIs(NoFaults().move, 2, 2);
    RemoveIsRecoverable(a, 0, ts, NoFaults());
    ToRestoreIsArchived(a.files, removed, 0, ts, Keys(ts));
    assert ToRestore(removed, 0) == ts;
    assert !RestoreConflicts(removed, 0, {}) by {
      forall t | t in ts ensures Source(t) !in removed.files { ArchivedIsAway(a.files, removed.files, 0, ts, Keys(ts), t); }
    }
    CountIs(io.move, 2, 1);
    var left := RestoreConserves(a.files, removed, 0, ts, Keys(ts), {}, false, io);
    assert !io.undo(0);
    var t :| t in ts && t.key in Keys(ts) && t.key !in left;
    forall later: RestoreIo
      ensures Restore(Restore(removed, 0, {}, false, io).0, 0, {}, false, later).1 == Conflict
    {
      PartlyRestoredIsRefused(a.files, Restore(removed, 0, {}, false, io).0, 0, ts, left, t, {}, false, later);
    }
  }

  function NoFaults(): RemoveIo {
    RemoveIo(true, i => true, true, i => true, true)
  }

  lemma TwoUntouched(files: Files, operation: nat, x: Target, y: Target)
    requires x.key != y.key && x.path != y.path && files.Keys == {Source(x), Source(y)}
    ensures Untouched(files, operation, [x, y])
  {
  }

  lemma ArchivedIsAway(start: Files, now: Files, operation: nat, ts: seq<Target>, out: set<string>, t: Target)
    requires Arranged(start, now, operation, ts, out) && t in ts && t.key in out
    ensures Source(t) !in now
  {
  }

  /** Remove, with any failures, and then a restore that succeeds is the identity on the files. */
  lemma RemoveRestoreRoundTrip(a: Archive, operation: nat, ts: seq<Target>, io: RemoveIo,
                               cards: set<string>, active: bool, rio: RestoreIo)
    requires Untouched(a.files, operation, ts) && io.prepare
    requires Restore(Remove(a, operation, ts, true, io).0, operation, cards, active, rio).1 == Done
    ensures Restore(Remove(a, operation, ts, true, io).0, operation, cards, active, rio).0.files == a.files
  {
    hide Arranged, Untouched, Remove, Restore;
    var b := Remove(a, operation, ts, true, io).0;
    RemoveIsRecoverable(a, operation, ts, io);
    var left := RestoreConserves(a.files, b, operation, ts, LeftInArchive(ts, true, io), cards, active, rio);
    NothingArchived(a.files, Restore(b, operation, cards, active, rio).0.files, operation, ts);
  }

  /** A restore never overwrites: whatever was at a path before is there afterwards, whatever fails. */
  lemma RestoreNeverOverwrites(start: Files, a: Archive, operation: nat, ts: seq<Target>, out: set<string>,
                               cards: set<string>, active: bool, io: RestoreIo, path: string)
    requires Recoverable(start, a, operation, ts, out) && At(path) in a.files
    ensures var b := Restore(a, operation, cards, active, io).0; At(path) in b.files && b.files[At(path)] == a.files[At(path)]
  {
    hide Untouched, Restore;
    var left := RestoreConserves(start, a, operation, ts, out, cards, active, io);
    if Involved(At(path), operation, ts) {
      var t :| t in ts && At(path) == Source(t);
    }
  }

  // ---- Manifests ----

  /** What a removal records: deleted exactly on success, and after a failure whether every move was undone. */
  lemma RemoveReports(a: Archive, operation: nat, ts: seq<Target>, io: RemoveIo)
    requires io.prepare
    ensures var (b, result) := Remove(a, operation, ts, true, io);
            && operation in b.manifests && b.manifests[operation].sources == ts
            && (result == Done <==> (forall i | 0 <= i < |ts| :: io.move(i)) && io.finish)
            && b.manifests[operation].status ==
               (if result == Done then Deleted
                else if !io.report then Prepared
                else if AllUndone(MoveCount(io.move, |ts|), io.undo) then RolledBack else RollbackFailed)
            && b.manifests - {operation} == a.manifests - {operation}
  {
    hide Forward, Undo;
  }

  /** A preview that no longer holds, or a first manifest that cannot be written, leaves everything as it was. */
  lemma RefusedRemoveChangesNothing(a: Archive, operation: nat, ts: seq<Target>, allowed: bool, io: RemoveIo)
    requires !allowed || !io.prepare
    ensures Remove(a, operation, ts, allowed, io) == (a, if allowed then Failed else Conflict)
  {
  }

  /** A successful restore records it, and is refused from then on. */
  lemma RestoreReports(a: Archive, operation: nat, cards: set<string>, active: bool, io: RestoreIo, again: RestoreIo)
    requires Restore(a, operation, cards, active, io).1 == Done
    ensures var b := Restore(a, operation, cards, active, io).0;
            && operation in a.manifests && b.manifests == a.manifests[operation := Manifest(Restored, a.manifests[operation].sources)]
            && Restore(b, operation, cards, active, again) == (b, Conflict)
  {
    hide Backward, ToRestore, RestoreConflicts;
  }

  // ---- When a restore is possible ----

  ghost predicate CardPresent(files: Files, cards: set<string>) {
    exists c :: c in cards && At(c) in files
  }

  ghost predicate CardArchived(ts: seq<Target>, out: set<string>) {
    exists t: Target :: t in ts && t.key in out && "card_" <= t.key
  }

  /**
   * After a removal, with no other change, a restore without failures succeeds exactly when the
   * record is restorable, the character is idle, and it is not the case that one card file is in the
   * archive while another is in place.
   */
  lemma RestoreSucceedsIff(start: Files, a: Archive, operation: nat, ts: seq<Target>, out: set<string>,
                           cards: set<string>, active: bool, io: RestoreIo)
    requires Recoverable(start, a, operation, ts, out)
    requires (forall i: nat :: io.move(i)) && io.report
    ensures Restore(a, operation, cards, active, io).1 == Done <==>
            && a.manifests[operation].status != RolledBack && a.manifests[operation].status != Restored && !active
            && !(CardArchived(ts, out) && CardPresent(a.files, cards))
  {
    hide Untouched, ToRestore, Backward, Involved;
    ToRestoreIsArchived(start, a, operation, ts, out);
    var rs := ToRestore(a, operation);
    assert (exists t :: t in rs && IsCard(t)) <==> CardArchived(ts, out);
    CountIs(io.move, |rs|, |rs|);
  }

  /**
   * Two card files, the second of which cannot be moved and the first of which cannot be moved back:
   * the rolled-back half blocks every later restore of the other half.
   */
  lemma HalfRolledBackCardsBlockRestore() returns (a: Archive, ts: seq<Target>, io: RemoveIo, cards: set<string>)
    ensures Untouched(a.files, 0, ts) && io.prepare
    ensures forall rio: RestoreIo :: Restore(Remove(a, 0, ts, true, io).0, 0, cards, false, rio).1 == Conflict
    ensures Remove(a, 0, ts, true, io).0.files != a.files
  {
    var json, md := Target("card_user_json", "cards/c.json"), Target("card_user_md", "cards/c.md");
    ts := [json, md];
    a := Archive(map[Source(json) := "j", Source(md) := "m"], map[]);
    io := RemoveIo(true, i => i == 0, true, i => false, true);
    cards := {json.path, md.path};
    var b := Remove(a, 0, ts, true, io).0;
    assert MoveCount(io.move, 2) == 1;
    RemoveIsRecoverable(a, 0, ts, io);
    assert ts[0] == json && Stuck(ts, 1, io.undo) == {json.key};
    ToRestoreIsArchived(a.files, b, 0, ts, {json.key});
    assert json in ts && md in ts && json in ToRestore(b, 0) && IsCard(json);
    assert At(md.path) == Source(md) && md.path in cards && At(md.path) in b.files;
  }
}
