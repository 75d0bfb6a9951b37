/**
 * Nested configuration mappings (admin/config_control.py): the diff of two trees into changed
 * paths, the patch of a tree along paths, and the three-way merge they amount to.
 */
module ConfigTree {
  import opened Wrappers

  /** A YAML value; lists and scalars are compared as wholes, so one opaque leaf covers them. */
  datatype Value = Scalar(text: string) | Mapping(entries: Tree)
  type Tree = map<string, Value>
  type Path = seq<string>

  function ValueAt(v: Value, p: Path): Option<Value>
    decreases |p|
  {
    if p == [] then Some(v)
    else if v.Mapping? && p[0] in v.entries then ValueAt(v.entries[p[0]], p[1..])
    else None
  }

  function Children(t: Tree, k: string): Tree {
    if k in t && t[k].Mapping? then t[k].entries else map[]
  }

  /** `t` with the value at `p` replaced or removed; missing or non-mapping parents become mappings. */
  function SetAt(t: Tree, p: Path, v: Option<Value>): Tree
    requires p != []
    decreases |p|
  {
    if |p| > 1 then t[p[0] := Mapping(SetAt(Children(t, p[0]), p[1..], v))]
    else match v
      case None => t - {p[0]}
      case Some(x) => t[p[0] := x]
  }

  function ApplyPath(target: Tree, source: Tree, p: Path): Tree {
    if p == [] then source else SetAt(target, p, ValueAt(Mapping(source), p))
  }

  function ApplyAll(target: Tree, source: Tree, paths: seq<Path>): Tree {
    if paths == [] then target
    else ApplyPath(ApplyAll(target, source, paths[..|paths| - 1]), source, paths[|paths| - 1])
  }

  /** `p` is one of the paths the diff of `b` and `u` reports. */
  ghost predicate Changed(b: Value, u: Value, p: Path)
    decreases |p|
  {
    if b.Mapping? && u.Mapping? then
      p != [] && (p[0] in b.entries || p[0] in u.entries) &&
      if p[0] in b.entries && p[0] in u.entries
      then Changed(b.entries[p[0]], u.entries[p[0]], p[1..])
      else |p| == 1
    else
      p == [] && b != u
  }

  ghost predicate ChangedTree(b: Tree, u: Tree, p: Path) {
    Changed(Mapping(b), Mapping(u), p)
  }

  /** `paths` lists exactly the changed paths, in any order. */
  ghost predicate IsDiff(b: Tree, u: Tree, paths: seq<Path>) {
    forall p :: p in paths <==> ChangedTree(b, u, p)
  }

  /**
   * The three-way merge stated key by key, without paths: an edit made between `b` and `u` wins,
   * anything else keeps the current value.
   */
  function Merge(c: Tree, b: Value, u: Value): Tree
    requires b.Mapping? && u.Mapping?
    decreases b
  {
    map k | k in c.Keys + b.entries.Keys + u.entries.Keys && MergeKey(c, b, u, k).Some? ::
      MergeKey(c, b, u, k).value
  }

  function MergeKey(c: Tree, b: Value, u: Value, k: string): Option<Value>
    requires b.Mapping? && u.Mapping?
    decreases b, 0
  {
    var current := if k in c then Some(c[k]) else None;
    if k in b.entries && k in u.entries then
      if b.entries[k] == u.entries[k] then current
      else if b.entries[k].Mapping? && u.entries[k].Mapping? then
        Some(Mapping(Merge(Children(c, k), b.entries[k], u.entries[k])))
      else Some(u.entries[k])
    else if k in u.entries then Some(u.entries[k])
    else if k in b.entries then None
    else current
  }
}
