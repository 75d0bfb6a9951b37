/**
 * Recoverable removal of character data (core/character_cleanup.py): targets are moved one by one
 * into an archive folder with a manifest, rolled back on failure, and can be restored later. Any
 * move and any manifest write may fail. Specification functions and the operations proved against
 * them; the conservation proofs are in CleanupRecovery.
 */
module Cleanup {

  type Data = string

  /** A place in the file tree: a normal path, or the slot of a key in an operation's archive folder. */
  datatype Loc = At(path: string) | Slot(operation: nat, key: string)

  type Files = map<Loc, Data>

  datatype Target = Target(key: string, path: string)

  datatype Status = Prepared | Deleted | RolledBack | RollbackFailed | Restored

  datatype Manifest = Manifest(status: Status, sources: seq<Target>)

  datatype Archive = Archive(files: Files, manifests: map<nat, Manifest>)

  /** Which steps of a removal succeed: the first manifest, each move, the end, each move back, the last manifest. */
  datatype RemoveIo = RemoveIo(prepare: bool, move: nat -> bool, finish: bool, undo: nat -> bool, report: bool)

  datatype RestoreIo = RestoreIo(move: nat -> bool, report: bool, undo: nat -> bool)

  datatype Result = Done | Conflict | Failed

  function Move(files: Files, from: Loc, to: Loc): Files {
    if from in files then (files - {from})[to := files[from]] else files
  }

  function Source(t: Target): Loc {
    At(t.path)
  }

  function SlotOf(operation: nat, t: Target): Loc {
    Slot(operation, t.key)
  }

  /** The number of moves until the first that fails. */
  function MoveCount(ok: nat -> bool, n: nat): (k: nat)
    ensures k <= n && forall i | 0 <= i < k :: ok(i)
    ensures k < n ==> !ok(k)
  {
    if n == 0 then 0
    else
      var k := MoveCount(ok, n - 1);
      if k == n - 1 && ok(n - 1) then n else k
  }

  /** The targets moved into their slots, in order. */
  function Forward(files: Files, operation: nat, ts: seq<Target>): Files {
    if ts == [] then files
    else
      var last := ts[|ts| - 1];
      Move(Forward(files, operation, ts[..|ts| - 1]), Source(last), SlotOf(operation, last))
  }

  /** Every move tried in reverse, skipping those that fail. */
  function Undo(files: Files, operation: nat, ts: seq<Target>, ok: nat -> bool): Files
    decreases |ts|
  {
    if ts == [] then files
    else
      var last := ts[|ts| - 1];
      var next := if ok(|ts| - 1) then Move(files, SlotOf(operation, last), Source(last)) else files;
      Undo(next, operation, ts[..|ts| - 1], ok)
  }

  predicate AllUndone(n: nat, ok: nat -> bool) {
    forall i | 0 <= i < n :: ok(i)
  }

  /** `allowed` is whether the preview still matches and nothing blocks the removal. */
  function Remove(a: Archive, operation: nat, ts: seq<Target>, allowed: bool, io: RemoveIo): (Archive, Result) {
    if !allowed then (a, Conflict)
    else if !io.prepare then (a, Failed)
    else
      var prepared := a.(manifests := a.manifests[operation := Manifest(Prepared, ts)]);
      var n := MoveCount(io.move, |ts|);
      var moved := Forward(a.files, operation, ts[..n]);
      if n == |ts| && io.finish then
        (Archive(moved, prepared.manifests[operation := Manifest(Deleted, ts)]), Done)
      else
        var status := if AllUndone(n, io.undo) then RolledBack else RollbackFailed;
        (Archive(Undo(moved, operation, ts[..n], io.undo),
                 if io.report then prepared.manifests[operation := Manifest(status, ts)] else prepared.manifests), Failed)
  }

  /** The targets still in the archive. */
  function Archived(files: Files, operation: nat, ts: seq<Target>): seq<Target> {
    if ts == [] then []
    else Archived(files, operation, ts[..|ts| - 1]) +
         (if SlotOf(operation, ts[|ts| - 1]) in files then [ts[|ts| - 1]] else [])
  }

  /** What a restore is to move back: everything of a finished removal, else what is in the archive. */
  function ToRestore(a: Archive, operation: nat): seq<Target>
    requires operation in a.manifests
  {
    var m := a.manifests[operation];
    if m.status == Deleted then m.sources else Archived(a.files, operation, m.sources)
  }

  predicate IsCard(t: Target) {
    "card_" <= t.key
  }

  /** The targets moved out of their slots, in order. */
  function Backward(files: Files, operation: nat, ts: seq<Target>): Files {
    if ts == [] then files
    else
      var last := ts[|ts| - 1];
      Move(Backward(files, operation, ts[..|ts| - 1]), SlotOf(operation, last), Source(last))
  }

  /** Moves undone in reverse until the first that fails. */
  function Redo(files: Files, operation: nat, ts: seq<Target>, ok: nat -> bool): Files
    decreases |ts|
  {
    if ts == [] || !ok(|ts| - 1) then files
    else
      var last := ts[|ts| - 1];
      Redo(Move(files, Source(last), SlotOf(operation, last)), operation, ts[..|ts| - 1], ok)
  }

  /** A conflict the restore reports before moving anything; `cards` are the places of the character's cards. */
  predicate RestoreConflicts(a: Archive, operation: nat, cards: set<string>)
    requires operation in a.manifests
  {
    var ts := ToRestore(a, operation);
    || ((exists t :: t in ts && IsCard(t)) && exists c :: c in cards && At(c) in a.files)
    || exists t :: t in ts && Source(t) in a.files
  }

  /** `active` is whether the character is in use. */
  function Restore(a: Archive, operation: nat, cards: set<string>, active: bool, io: RestoreIo): (Archive, Result) {
    if operation !in a.manifests then (a, Failed)
    else
      var m := a.manifests[operation];
      if m.status == RolledBack || m.status == Restored || active then (a, Conflict)
      else if RestoreConflicts(a, operation, cards) then (a, Conflict)
      else
        var ts := ToRestore(a, operation);
        var n := MoveCount(io.move, |ts|);
        var moved := Backward(a.files, operation, ts[..n]);
        if n == |ts| && io.report then
          (Archive(moved, a.manifests[operation := m.(status := Restored)]), Done)
        else (a.(files := Redo(moved, operation, ts[..n], io.undo)), Failed)
  }

  class CleanupStore {
    var files: Files
    var manifests: map<nat, Manifest>

    constructor (initial: Archive)
      ensures State() == initial
    {
      files, manifests := initial.files, initial.manifests;
    }

    function State(): Archive
      reads this
    {
      Archive(files, manifests)
    }

    /** Move the targets into the archive folder until a move fails. */
    method MoveOut(operation: nat, ts: seq<Target>, ok: nat -> bool) returns (n: nat)
      modifies this`files
      ensures n == MoveCount(ok, |ts|) && files == Forward(old(files), operation, ts[..n])
    {
      hide Move, Source, SlotOf;
      n := 0;
      while n < |ts| && ok(n)
        invariant 0 <= n <= |ts| && n == MoveCount(ok, n)
        invariant forall i | 0 <= i < n :: ok(i)
        invariant files == Forward(old(files), operation, ts[..n])
      {
        assert ts[..n + 1][..n] == ts[..n];
        files := Move(files, Source(ts[n]), SlotOf(operation, ts[n]));
        n := n + 1;
      }
      CountIs(ok, |ts|, n);
    }

    /** Roll a removal back, last move first; a failed move is noted and skipped. */
    method RollBack(operation: nat, ts: seq<Target>, ok: nat -> bool) returns (failed: bool)
      modifies this`files
      ensures failed <==> !AllUndone(|ts|, ok)
      ensures files == Undo(old(files), operation, ts, ok)
    {
      hide Move, Source, SlotOf;
      failed := false;
      var k := |ts|;
      assert ts[..k] == ts;
      while k > 0
        invariant 0 <= k <= |ts|
        invariant Undo(files, operation, ts[..k], ok) == Undo(old(files), operation, ts, ok)
        invariant failed <==> exists i :: k <= i < |ts| && !ok(i)
      {
        k := k - 1;
        assert ts[..k + 1][..k] == ts[..k];
        if ok(k) {
          files := Move(files, SlotOf(operation, ts[k]), Source(ts[k]));
        } else {
          failed := true;
        }
      }
    }

    method RemoveTargets(operation: nat, ts: seq<Target>, allowed: bool, io: RemoveIo) returns (result: Result)
      modifies this
      ensures (State(), result) == Remove(old(State()), operation, ts, allowed, io)
    {
      hide Forward, Undo, MoveCount;
      if !allowed {
        return Conflict;
      }
      if !io.prepare {
        return Failed;
      }
      manifests := manifests[operation := Manifest(Prepared, ts)];
      var n := MoveOut(operation, ts, io.move);
      if n == |ts| && io.finish {
        assert ts[..n] == ts;
        manifests := manifests[operation := Manifest(Deleted, ts)];
        return Done;
      }
      var rollbackFailed := RollBack(operation, ts[..n], io.undo);
      if io.report {
        manifests := manifests[operation := Manifest(if rollbackFailed then RollbackFailed else RolledBack, ts)];
      }
      result := Failed;
    }

    /** Move targets out of the archive folder until a move fails. */
    method MoveBack(operation: nat, ts: seq<Target>, ok: nat -> bool) returns (n: nat)
      modifies this`files
      ensures n == MoveCount(ok, |ts|) && files == Backward(old(files), operation, ts[..n])
    {
      hide Move, Source, SlotOf;
      n := 0;
      while n < |ts| && ok(n)
        invariant 0 <= n <= |ts| && n == MoveCount(ok, n)
        invariant forall i | 0 <= i < n :: ok(i)
        invariant files == Backward(old(files), operation, ts[..n])
      {
        assert ts[..n + 1][..n] == ts[..n];
        files := Move(files, SlotOf(operation, ts[n]), Source(ts[n]));
        n := n + 1;
      }
      CountIs(ok, |ts|, n);
    }

    /** Undo a restore, last move first, until a move fails. */
    method ReturnToArchive(operation: nat, ts: seq<Target>, ok: nat -> bool)
      modifies this`files
      ensures files == Redo(old(files), operation, ts, ok)
    {
      hide Move, Source, SlotOf;
      var k := |ts|;
      assert ts[..k] == ts;
      while k > 0 && ok(k - 1)
        invariant 0 <= k <= |ts|
        invariant Redo(files, operation, ts[..k], ok) == Redo(old(files), operation, ts, ok)
      {
        k := k - 1;
        assert ts[..k + 1][..k] == ts[..k];
        files := Move(files, Source(ts[k]), SlotOf(operation, ts[k]));
      }
    }

    method RestoreTargets(operation: nat, cards: set<string>, active: bool, io: RestoreIo) returns (result: Result)
      modifies this
      ensures (State(), result) == Restore(old(State()), operation, cards, active, io)
    {
      hide RestoreConflicts, ToRestore, Backward, Redo, MoveCount;
      if operation !in manifests {
        return Failed;
      }
      var m := manifests[operation];
      if m.status == RolledBack || m.status == Restored || active {
        return Conflict;
      }
      if RestoreConflicts(State(), operation, cards) {
        return Conflict;
      }
      var ts := ToRestore(State(), operation);
      var n := MoveBack(operation, ts, io.move);
      if n == |ts| && io.report {
        manifests := manifests[operation := m.(status := Restored)];
        return Done;
      }
      ReturnToArchive(operation, ts[..n], io.undo);
      result := Failed;
    }
  }

  lemma {:induction false} CountIs(ok: nat -> bool, n: nat, k: nat)
    requires k <= n && (forall i | 0 <= i < k :: ok(i)) && (k < n ==> !ok(k))
    ensures MoveCount(ok, n) == k
  {
    var m := MoveCount(ok, n);
  }
}
