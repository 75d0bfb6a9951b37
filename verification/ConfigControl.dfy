/** The read, diff and write operations of admin/config_control.py over one configuration file. */
module ConfigControl {
  import opened Wrappers
  import opened ConfigTree
  import opened ConfigMerge

  /** What reading and parsing the file yields; `Falsy` is a document such as null that counts as empty. */
  datatype FileContent = Absent | Unreadable | Falsy | Document(value: Value)

  datatype Outcome = Written | LoadFailed | NotAMapping | WriteFailed | VerifyFailed

  /** What the storage does with an atomic write: refuse it, or keep text that reads back as given. */
  datatype Storage = Refuses | Keeps(readBack: FileContent)

  function LoadMapping(f: FileContent): Result<Tree, Outcome> {
    match f
    case Absent => Ok(map[])
    case Unreadable => Err(LoadFailed)
    case Falsy => Ok(map[])
    case Document(Mapping(t)) => Ok(t)
    case Document(_) => Err(NotAMapping)
  }

  /** The file reads as the mapping `t`: it holds it, or is absent or empty and `t` is too. */
  ghost predicate ReadsAs(f: FileContent, t: Tree) {
    f == Document(Mapping(t)) || ((f == Absent || f == Falsy) && t == map[])
  }

  /** A refused write leaves the file; a kept one is `Written` exactly when it reads back as what was to be stored. */
  ghost predicate Stores(before: FileContent, storage: Storage, merged: Tree, outcome: Outcome, after: FileContent) {
    match storage
    case Refuses => outcome == WriteFailed && after == before
    case Keeps(f) => after == f && (outcome == Written <==> ReadsAs(f, merged))
  }

  /** The outcome of persisting `merged`, by what the storage did. */
  function PersistOutcome(merged: Tree, storage: Storage): Outcome {
    match storage
    case Refuses => WriteFailed
    case Keeps(f) =>
      match LoadMapping(f)
      case Err(e) => e
      case Ok(t) => if t == merged then Written else VerifyFailed
  }

  function Persisted(before: FileContent, storage: Storage): FileContent {
    if storage.Keeps? then storage.readBack else before
  }

  /** `paths` are the changed paths of `b` and `u`, each behind `prefix`. */
  ghost predicate ListsChanges(paths: seq<Path>, prefix: Path, b: Value, u: Value) {
    forall p :: p in paths <==> prefix <= p && Changed(b, u, p[|prefix|..])
  }

  method ChangedPaths(before: Value, after: Value, prefix: Path) returns (paths: seq<Path>)
    ensures ListsChanges(paths, prefix, before, after)
    decreases before
  {
    paths := [];
    if before.Mapping? && after.Mapping? {
      var todo := before.entries.Keys + after.entries.Keys;
      ghost var done: set<string> := {};
      while todo != {}
        invariant todo !! done && todo + done == before.entries.Keys + after.entries.Keys
        invariant forall p :: p in paths <==>
                    prefix < p && p[|prefix|] in done && Changed(before, after, p[|prefix|..])
        decreases todo
      {
        var key :| key in todo;
        todo := todo - {key};
        var child := prefix + [key];
        var found := [child];
        if key in before.entries && key in after.entries {
          found := ChangedPaths(before.entries[key], after.entries[key], child);
        }
        forall p
          ensures p in found <==> prefix < p && p[|prefix|] == key && Changed(before, after, p[|prefix|..])
        {
          ChildChange(before, after, prefix, key, p);
        }
        paths := paths + found;
        done := done + {key};
      }
      forall p | prefix <= p && Changed(before, after, p[|prefix|..])
        ensures prefix < p && p[|prefix|] in done
      {
        assert p[|prefix|..] != [];
      }
    } else if before != after {
      paths := [prefix];
      forall p | prefix <= p && Changed(before, after, p[|prefix|..])
        ensures p == prefix
      {
        assert p == prefix + p[|prefix|..];
      }
    }
  }

  /** A changed path behind `prefix` and `key` is a changed path of the two values at `key`. */
  lemma ChildChange(b: Value, u: Value, prefix: Path, key: string, p: Path)
    requires b.Mapping? && u.Mapping? && (key in b.entries || key in u.entries)
    ensures var child := prefix + [key];
            (prefix < p && p[|prefix|] == key && Changed(b, u, p[|prefix|..])) <==>
            if key in b.entries && key in u.entries
            then child <= p && Changed(b.entries[key], u.entries[key], p[|child|..])
            else p == child
  {
    var child := prefix + [key];
    assert child <= p <==> prefix < p && p[|prefix|] == key;
    if child <= p {
      assert p[|prefix|..][1..] == p[|child|..] && p[|prefix|..][0] == key;
      assert p == child + p[|child|..];
    }
  }

  method LookUp(value: Value, path: Path) returns (found: Option<Value>)
    ensures found == ValueAt(value, path)
  {
    var current := value;
    var i := 0;
    while i < |path|
      invariant 0 <= i <= |path|
      invariant ValueAt(value, path) == ValueAt(current, path[i..])
    {
      if !current.Mapping? || path[i] !in current.entries {
        return None;
      }
      current := current.entries[path[i]];
      i := i + 1;
    }
    found := Some(current);
  }

  /** An editable snapshot that remembers the baseline it was read from. */
  class ConfigDocument {
    var entries: Tree
    var original: Tree

    constructor (value: Tree)
      ensures entries == value && original == value
    {
      entries, original := value, value;
    }
  }

  class ConfigFile {
    var content: FileContent

    constructor (initial: FileContent)
      ensures content == initial
    {
      content := initial;
    }

    /**
     * A fresh snapshot of a mapping, or of nothing where the file is absent or empty; anything else is an
     * error. Written back without an edit, the snapshot leaves any later content of the file as it is.
     */
    method Read() returns (doc: Result<ConfigDocument, Outcome>)
      ensures doc.Ok? <==> content.Absent? || content.Falsy? || (content.Document? && content.value.Mapping?)
      ensures doc.Ok? ==> fresh(doc.value) && Mapping(doc.value.entries) == if content.Document? then content.value else Mapping(map[])
      ensures doc.Ok? ==> forall c :: Merge(c, Mapping(doc.value.original), Mapping(doc.value.entries)) == c
      ensures doc.Err? ==> doc.error == if content.Unreadable? then LoadFailed else NotAMapping
    {
      forall c, t: Tree
        ensures Merge(c, Mapping(t), Mapping(t)) == c
      {
        UneditedWriteChangesNothing(c, t);
      }
      match LoadMapping(content) {
        case Err(e) => doc := Err(e);
        case Ok(t) =>
          var d := new ConfigDocument(t);
          doc := Ok(d);
      }
    }

    /** Patch the current file along the paths that differ between baseline and edit, and store it. */
    method MergeAndStore(current: Tree, baseline: Tree, updated: Tree, storage: Storage)
      returns (outcome: Outcome, merged: Tree)
      modifies this
      ensures merged == Merge(current, Mapping(baseline), Mapping(updated))
      ensures outcome == PersistOutcome(merged, storage)
      ensures content == Persisted(old(content), storage)
      ensures Stores(old(content), storage, merged, outcome, content)
    {
      var changed := ChangedPaths(Mapping(baseline), Mapping(updated), []);
      assert IsDiff(baseline, updated, changed) by {
        assert forall p: Path :: p[0..] == p;
      }
      merged := current;
      var i := 0;
      while i < |changed|
        invariant 0 <= i <= |changed|
        invariant merged == ApplyAll(current, updated, changed[..i])
      {
        merged := ApplyPath(merged, updated, changed[i]);
        i := i + 1;
        assert changed[..i][..i - 1] == changed[..i - 1];
      }
      assert changed[..i] == changed;
      PatchIsMerge(current, baseline, updated, changed);
      if storage.Refuses? {
        return WriteFailed, merged;
      }
      content := storage.readBack;
      match LoadMapping(content) {
        case Err(e) => outcome := e;
        case Ok(t) => outcome := if t == merged then Written else VerifyFailed;
      }
    }

    /** Write an edited snapshot: a three-way merge; the snapshot becomes the new baseline on success. */
    method WriteDocument(doc: ConfigDocument, storage: Storage) returns (outcome: Outcome)
      modifies this, doc
      ensures match LoadMapping(old(content))
              case Err(e) => outcome == e && content == old(content)
              case Ok(current) =>
                var merged := Merge(current, Mapping(old(doc.original)), Mapping(old(doc.entries)));
                && outcome == PersistOutcome(merged, storage)
                && content == Persisted(old(content), storage)
                && (outcome == Written ==> doc.entries == merged && doc.original == merged)
      ensures forall current | ReadsAs(old(content), current) ::
                var merged := Merge(current, Mapping(old(doc.original)), Mapping(old(doc.entries)));
                Stores(old(content), storage, merged, outcome, content) && (outcome == Written ==> doc.entries == merged == doc.original)
      ensures (forall t :: !ReadsAs(old(content), t)) ==> (outcome == LoadFailed || outcome == NotAMapping) && content == old(content)
      ensures outcome != Written ==> doc.entries == old(doc.entries) && doc.original == old(doc.original)
    {
      match LoadMapping(content) {
        case Err(e) => outcome := e;
        case Ok(current) =>
          assert ReadsAs(content, current);
          var merged;
          outcome, merged := MergeAndStore(current, doc.original, doc.entries, storage);
          if outcome == Written {
            doc.entries, doc.original := merged, merged;
          }
      }
    }

    /** Write a plain mapping: its baseline is the current file, so the file becomes that mapping. */
    method WritePlain(updated: Tree, storage: Storage) returns (outcome: Outcome)
      modifies this
      ensures match LoadMapping(old(content))
              case Err(e) => outcome == e && content == old(content)
              case Ok(_) => outcome == PersistOutcome(updated, storage) && content == Persisted(old(content), storage)
      ensures forall current | ReadsAs(old(content), current) :: Stores(old(content), storage, updated, outcome, content)
      ensures (forall t :: !ReadsAs(old(content), t)) ==> (outcome == LoadFailed || outcome == NotAMapping) && content == old(content)
    {
      match LoadMapping(content) {
        case Err(e) => outcome := e;
        case Ok(current) =>
          assert ReadsAs(content, current);
          var merged;
          MergeOntoBaseline(current, updated);
          outcome, merged := MergeAndStore(current, current, updated, storage);
      }
    }
  }
}
