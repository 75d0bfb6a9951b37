/** Why the path patch of admin/config_control.py is a three-way merge that loses no edit. */
module ConfigMerge {
  import opened Wrappers
  import opened ConfigTree

  /** What is visible at one path: nothing, a leaf, or the fact that a mapping is there. */
  datatype Shape = Missing | Leaf(text: string) | Branch

  function ShapeAt(v: Value, p: Path): Shape {
    ShapeOf(ValueAt(v, p))
  }

  function ShapeOf(v: Option<Value>): Shape {
    match v
    case None => Missing
    case Some(Scalar(text)) => Leaf(text)
    case Some(Mapping(_)) => Branch
  }

  ghost predicate Comparable(p: Path, q: Path) {
    p <= q || q <= p
  }

  ghost predicate Incomparable(ps: iset<Path>, qs: iset<Path>) {
    forall p, q | p in ps && q in qs :: !Comparable(p, q)
  }

  ghost function ChangedSet(b: Value, u: Value): iset<Path> {
    iset p | Changed(b, u, p)
  }

  ghost function ChangedTreeSet(b: Tree, u: Tree): iset<Path> {
    ChangedSet(Mapping(b), Mapping(u))
  }

  lemma PrefixTransitive(p: Path, q: Path, r: Path)
    requires p <= q && q <= r
    ensures p <= r
  {
  }

  // ---- Trees are determined by their shapes ----

  lemma ValueAtAppend(v: Value, p: Path, q: Path)
    ensures ValueAt(v, p + q) ==
            match ValueAt(v, p) case None => None case Some(x) => ValueAt(x, q)
    decreases |p|
  {
    if p == [] {
      assert p + q == q;
    } else if v.Mapping? && p[0] in v.entries {
      assert (p + q)[1..] == p[1..] + q;
      ValueAtAppend(v.entries[p[0]], p[1..], q);
    }
  }

  lemma ShapeAtKey(v: Value, k: string)
    ensures ShapeAt(v, [k]) == if v.Mapping? && k in v.entries then ShapeOf(Some(v.entries[k])) else Missing
  {
    if v.Mapping? && k in v.entries {
      assert ValueAt(v.entries[k], [k][1..]) == Some(v.entries[k]);
    }
  }

  lemma ShapeBelowKey(v: Value, k: string, q: Path)
    requires v.Mapping? && k in v.entries
    ensures ShapeAt(v, [k] + q) == ShapeAt(v.entries[k], q)
  {
    assert ([k] + q)[1..] == q;
  }

  lemma {:induction false} SameShapesSameTree(a: Value, b: Value)
    requires forall q :: ShapeAt(a, q) == ShapeAt(b, q)
    ensures a == b
    decreases a
  {
    assert ShapeAt(a, []) == ShapeAt(b, []);
    if a.Mapping? {
      forall k
        ensures k in a.entries <==> k in b.entries
      {
        ShapeAtKey(a, k);
        ShapeAtKey(b, k);
      }
      forall k | k in a.entries
        ensures a.entries[k] == b.entries[k]
      {
        forall q
          ensures ShapeAt(a.entries[k], q) == ShapeAt(b.entries[k], q)
        {
          ShapeBelowKey(a, k, q);
          ShapeBelowKey(b, k, q);
        }
        SameShapesSameTree(a.entries[k], b.entries[k]);
      }
    }
  }

  // ---- One path write ----

  lemma ChildrenShape(t: Tree, q: Path)
    requires |q| > 1
    ensures ShapeAt(Mapping(Children(t, q[0])), q[1..]) == ShapeAt(Mapping(t), q)
  {
    var k := q[0];
    assert q[1..] != [];
    if k in t {
      assert ValueAt(Mapping(t), q) == ValueAt(t[k], q[1..]);
      assert t[k].Mapping? ==> Mapping(Children(t, k)) == t[k];
    }
  }

  /** A write at `p` shows below `p`, makes every parent a mapping, and changes nothing else. */
  lemma {:induction false} SetAtShape(t: Tree, p: Path, v: Option<Value>, q: Path)
    requires p != []
    ensures ShapeAt(Mapping(SetAt(t, p, v)), q) ==
            if p <= q then (match v case None => Missing case Some(x) => ShapeAt(x, q[|p|..]))
            else if q < p then Branch
            else ShapeAt(Mapping(t), q)
    decreases |p|
  {
    if q == [] {
      assert q < p;
    } else if q[0] != p[0] {
      assert !Comparable(p, q);
    } else if |p| == 1 {
      assert p <= q && q[|p|..] == q[1..];
    } else {
      SetAtShape(Children(t, p[0]), p[1..], v, q[1..]);
      assert p <= q <==> p[1..] <= q[1..];
      assert q < p <==> q[1..] < p[1..];
      assert p <= q ==> q[1..][|p[1..]|..] == q[|p|..];
      if |q| > 1 {
        ChildrenShape(t, q);
      }
    }
  }

  /** Applying any one path, the empty one included, copies what the source holds at it and below. */
  lemma ApplyPathShape(t: Tree, source: Tree, p: Path, q: Path)
    ensures ShapeAt(Mapping(ApplyPath(t, source, p)), q) ==
            if p <= q then ShapeAt(Mapping(source), q) else if q < p then Branch else ShapeAt(Mapping(t), q)
  {
    if p != [] {
      SetAtShape(t, p, ValueAt(Mapping(source), p), q);
      if p <= q {
        assert p + q[|p|..] == q;
        ValueAtAppend(Mapping(source), p, q[|p|..]);
      }
    }
  }

  /** The shape a list of path writes leaves at `q`. */
  ghost function PatchedShape(t: Tree, source: Tree, paths: iset<Path>, q: Path): Shape {
    if exists p :: p in paths && p <= q then ShapeAt(Mapping(source), q)
    else if exists p :: p in paths && q < p then Branch
    else ShapeAt(Mapping(t), q)
  }

  ghost predicate PrefixFree(paths: iset<Path>) {
    [] !in paths && forall p, q | p in paths && q in paths && Comparable(p, q) :: p == q
  }

  lemma {:induction false} ApplyAllShape(t: Tree, source: Tree, paths: seq<Path>, ps: iset<Path>, q: Path)
    requires PrefixFree(ps) && forall p :: p in ps <==> p in paths
    ensures ShapeAt(Mapping(ApplyAll(t, source, paths)), q) == PatchedShape(t, source, ps, q)
  {
    if paths != [] {
      var front, last := paths[..|paths| - 1], paths[|paths| - 1];
      assert forall p :: p in paths <==> p in front || p == last;
      var fs := iset p | p in front;
      ApplyAllShape(t, source, front, fs, q);
      ApplyPathShape(ApplyAll(t, source, front), source, last, q);
      if last <= q {
        assert last in ps;
      } else if q < last {
        forall p | p in ps
          ensures !(p <= q)
        {
          if p <= q {
            PrefixTransitive(p, q, last);
            assert Comparable(p, last);
            assert false;
          }
        }
        assert last in ps;
      } else {
        assert forall p :: p in ps && Comparable(p, q) <==> p in fs && Comparable(p, q);
      }
    }
  }

  // ---- The diff ----

  /** Changed paths are pairwise incomparable, and every proper prefix is a mapping in both trees. */
  lemma {:induction false} ChangedPathsPrefixFree(b: Value, u: Value, p: Path, q: Path)
    requires Changed(b, u, p) && q < p
    ensures !Changed(b, u, q) && ShapeAt(b, q) == Branch && ShapeAt(u, q) == Branch
    decreases |p|
  {
    if q != [] {
      ChangedPathsPrefixFree(b.entries[p[0]], u.entries[p[0]], p[1..], q[1..]);
    }
  }

  lemma DiffIsPrefixFree(b: Tree, u: Tree)
    ensures PrefixFree(ChangedTreeSet(b, u))
  {
    forall p, q | p in ChangedTreeSet(b, u) && q in ChangedTreeSet(b, u) && Comparable(p, q)
      ensures p == q
    {
      if q < p { ChangedPathsPrefixFree(Mapping(b), Mapping(u), p, q); }
      if p < q { ChangedPathsPrefixFree(Mapping(b), Mapping(u), q, p); }
    }
  }

  lemma OneSidedKeyChanged(b: Value, u: Value, q: Path)
    requires b.Mapping? && u.Mapping? && q != [] && (q[0] in b.entries <==> q[0] !in u.entries)
    ensures Changed(b, u, [q[0]]) && [q[0]] <= q
  {
  }

  lemma ValueChanged(b: Value, u: Value, q: Path)
    requires b != u && !(b.Mapping? && u.Mapping?)
    ensures Changed(b, u, []) && [] <= q
  {
  }

  /** Away from every changed path the two trees agree. */
  lemma {:induction false} UnchangedShape(b: Value, u: Value, q: Path)
    requires forall p | Changed(b, u, p) :: !Comparable(p, q)
    ensures ShapeAt(b, q) == ShapeAt(u, q)
    decreases |q|
  {
    if b.Mapping? && u.Mapping? && q != [] {
      var k := q[0];
      if k in b.entries && k in u.entries {
        forall p | Changed(b.entries[k], u.entries[k], p)
          ensures !Comparable(p, q[1..])
        {
          assert ([k] + p)[1..] == p;
          assert Changed(b, u, [k] + p);
          assert p <= q[1..] ==> [k] + p <= q;
          assert q[1..] <= p ==> q <= [k] + p;
        }
        UnchangedShape(b.entries[k], u.entries[k], q[1..]);
      } else if k in b.entries || k in u.entries {
        OneSidedKeyChanged(b, u, q);
        assert false;
      }
    } else if b != u && !(b.Mapping? && u.Mapping?) {
      ValueChanged(b, u, q);
      assert false;
    }
  }

  /** Equal trees have no changed path, and trees without one are equal. */
  lemma {:induction false} NoChangeInEqual(b: Value, p: Path)
    ensures !Changed(b, b, p)
    decreases |p|
  {
    if b.Mapping? && p != [] && p[0] in b.entries {
      NoChangeInEqual(b.entries[p[0]], p[1..]);
    }
  }

  lemma NoChangeMeansEqual(b: Value, u: Value)
    requires forall p :: !Changed(b, u, p)
    ensures b == u
  {
    forall q
      ensures ShapeAt(b, q) == ShapeAt(u, q)
    {
      UnchangedShape(b, u, q);
    }
    SameShapesSameTree(b, u);
  }

  // ---- The merge ----

  lemma MergeAtKey(c: Tree, b: Value, u: Value, k: string)
    requires b.Mapping? && u.Mapping?
    ensures MergeKey(c, b, u, k) ==
            var m := Merge(c, b, u); if k in m then Some(m[k]) else None
  {
  }

  /** What the changed paths through key `k` show is what those of the two values at `k` show. */
  lemma PatchedBelow(c: Tree, b: Value, u: Value, q: Path)
    requires b.Mapping? && u.Mapping? && q != [] && q[0] in b.entries && q[0] in u.entries
    requires b.entries[q[0]] != u.entries[q[0]]
    requires b.entries[q[0]].Mapping? && u.entries[q[0]].Mapping?
    ensures var b', u' := b.entries[q[0]], u.entries[q[0]];
            PatchedShape(c, u.entries, ChangedSet(b, u), q) ==
            PatchedShape(Children(c, q[0]), u'.entries, ChangedSet(b', u'), q[1..])
  {
    var k, ps := q[0], ChangedSet(b, u);
    var b', u' := b.entries[k], u.entries[k];
    var ps' := ChangedSet(b', u');
    ChangedAbove(b, u, q);
    ChangedBelow(b, u, q);
    assert Mapping(u.entries) == u && Mapping(u'.entries) == u';
    assert ShapeAt(u, q) == ShapeAt(u', q[1..]);
    if |q| == 1 {
      if forall p :: !Changed(b', u', p) {
        NoChangeMeansEqual(b', u');
        assert false;
      }
      var p :| Changed(b', u', p);
      assert p in ps' && p != [];
      assert q[1..] < p;
    } else {
      ChildrenShape(c, q);
    }
  }

  lemma ChangedAbove(b: Value, u: Value, q: Path)
    requires b.Mapping? && u.Mapping? && q != [] && q[0] in b.entries && q[0] in u.entries
    ensures (exists p :: p in ChangedSet(b, u) && p <= q) <==>
            (exists p :: p in ChangedSet(b.entries[q[0]], u.entries[q[0]]) && p <= q[1..])
  {
    var k, ps := q[0], ChangedSet(b, u);
    var ps' := ChangedSet(b.entries[k], u.entries[k]);
    if p :| p in ps && p <= q {
      assert p[1..] in ps' && p[1..] <= q[1..];
    }
    if p :| p in ps' && p <= q[1..] {
      assert ([k] + p)[1..] == p && q == [k] + q[1..];
      assert [k] + p in ps && [k] + p <= q;
    }
  }

  lemma ChangedBelow(b: Value, u: Value, q: Path)
    requires b.Mapping? && u.Mapping? && q != [] && q[0] in b.entries && q[0] in u.entries
    ensures (exists p :: p in ChangedSet(b, u) && q < p) <==>
            (exists p :: p in ChangedSet(b.entries[q[0]], u.entries[q[0]]) && q[1..] < p)
  {
    var k, ps := q[0], ChangedSet(b, u);
    var ps' := ChangedSet(b.entries[k], u.entries[k]);
    if p :| p in ps && q < p {
      assert p[0] == k && p[1..] in ps' && q[1..] < p[1..];
    }
    if p :| p in ps' && q[1..] < p {
      assert ([k] + p)[1..] == p && q == [k] + q[1..];
      assert [k] + p in ps && q < [k] + p;
    }
  }

  /** The structural merge shows at every path what patching the changed paths shows. */
  lemma {:induction false} MergeShape(c: Tree, b: Value, u: Value, q: Path)
    requires b.Mapping? && u.Mapping?
    ensures ShapeAt(Mapping(Merge(c, b, u)), q) == PatchedShape(c, u.entries, ChangedSet(b, u), q)
    decreases |q|
  {
    var ps := ChangedSet(b, u);
    if q == [] {
      assert forall p | p in ps && p <= q :: p == [];
    } else {
      var k, m := q[0], Merge(c, b, u);
      MergeAtKey(c, b, u, k);
      if k in b.entries && k in u.entries {
        var b', u' := b.entries[k], u.entries[k];
        if b' != u' && b'.Mapping? && u'.Mapping? {
          MergeShape(Children(c, k), b', u', q[1..]);
          PatchedBelow(c, b, u, q);
        } else {
          ChangedAbove(b, u, q);
          ChangedBelow(b, u, q);
          if b' == u' {
            forall p { NoChangeInEqual(b', p); }
          } else {
            assert [] in ChangedSet(b', u');
          }
        }
      } else if k in b.entries || k in u.entries {
        OneSidedKeyChanged(b, u, q);
        assert [k] in ps;
      } else {
        assert forall p | p in ps :: p[0] != k;
      }
    }
  }

  /** Applying the changed paths, in any order, is the structural three-way merge. */
  lemma PatchIsMerge(c: Tree, b: Tree, u: Tree, paths: seq<Path>)
    requires IsDiff(b, u, paths)
    ensures ApplyAll(c, u, paths) == Merge(c, Mapping(b), Mapping(u))
  {
    DiffIsPrefixFree(b, u);
    forall q
      ensures ShapeAt(Mapping(ApplyAll(c, u, paths)), q) == ShapeAt(Mapping(Merge(c, Mapping(b), Mapping(u))), q)
    {
      ApplyAllShape(c, u, paths, ChangedTreeSet(b, u), q);
      MergeShape(c, Mapping(b), Mapping(u), q);
    }
    SameShapesSameTree(Mapping(ApplyAll(c, u, paths)), Mapping(Merge(c, Mapping(b), Mapping(u))));
  }

  /** Merging onto the baseline itself gives the edited tree. */
  lemma MergeOntoBaseline(b: Tree, u: Tree)
    ensures Merge(b, Mapping(b), Mapping(u)) == u
  {
    var ps := ChangedTreeSet(b, u);
    forall q
      ensures ShapeAt(Mapping(Merge(b, Mapping(b), Mapping(u))), q) == ShapeAt(Mapping(u), q)
    {
      MergeShape(b, Mapping(b), Mapping(u), q);
      if !exists p :: p in ps && p <= q {
        if p :| p in ps && q < p {
          ChangedPathsPrefixFree(Mapping(b), Mapping(u), p, q);
        } else {
          assert forall p | Changed(Mapping(b), Mapping(u), p) :: p in ps;
          UnchangedShape(Mapping(b), Mapping(u), q);
        }
      }
    }
    SameShapesSameTree(Mapping(Merge(b, Mapping(b), Mapping(u))), Mapping(u));
  }

  /** Diff and patch are inverse: patching the baseline, in any order of paths, gives the edited tree. */
  lemma DiffPatchRoundTrip(b: Tree, u: Tree, paths: seq<Path>)
    requires IsDiff(b, u, paths)
    ensures ApplyAll(b, u, paths) == u
  {
    PatchIsMerge(b, b, u, paths);
    MergeOntoBaseline(b, u);
  }

  /** An unedited document writes back whatever the file holds. */
  lemma UneditedWriteChangesNothing(c: Tree, b: Tree)
    ensures Merge(c, Mapping(b), Mapping(b)) == c
  {
    forall p { NoChangeInEqual(Mapping(b), p); }
    assert IsDiff(b, b, []);
    PatchIsMerge(c, b, b, []);
  }

  lemma SameShapesBelow(a: Tree, c: Tree, p: Path)
    requires forall q | p <= q :: ShapeAt(Mapping(a), q) == ShapeAt(Mapping(c), q)
    ensures ValueAt(Mapping(a), p) == ValueAt(Mapping(c), p)
  {
    var x, y := ValueAt(Mapping(a), p), ValueAt(Mapping(c), p);
    assert ShapeAt(Mapping(a), p) == ShapeAt(Mapping(c), p);
    if x.Some? {
      forall r
        ensures ShapeAt(x.value, r) == ShapeAt(y.value, r)
      {
        ValueAtAppend(Mapping(a), p, r);
        ValueAtAppend(Mapping(c), p, r);
        assert p <= p + r;
        assert ShapeAt(Mapping(a), p + r) == ShapeAt(Mapping(c), p + r);
      }
      SameShapesSameTree(x.value, y.value);
    }
  }

  lemma PrefixesComparable(p: Path, q: Path, r: Path)
    requires p <= r && q <= r
    ensures Comparable(p, q)
  {
  }

  /** Every edit arrives: at a changed path the merged tree holds the edited value. */
  lemma MergeKeepsEdits(c: Tree, b: Tree, u: Tree, p: Path)
    requires ChangedTree(b, u, p)
    ensures ValueAt(Mapping(Merge(c, Mapping(b), Mapping(u))), p) == ValueAt(Mapping(u), p)
  {
    var m := Merge(c, Mapping(b), Mapping(u));
    forall q | p <= q
      ensures ShapeAt(Mapping(m), q) == ShapeAt(Mapping(u), q)
    {
      MergeShape(c, Mapping(b), Mapping(u), q);
      assert p in ChangedTreeSet(b, u);
    }
    SameShapesBelow(m, u, p);
  }

  /** Nothing else moves: a path incomparable with every changed path keeps the value on disk. */
  lemma MergeFrame(c: Tree, b: Tree, u: Tree, q: Path)
    requires forall p | ChangedTree(b, u, p) :: !Comparable(p, q)
    ensures ValueAt(Mapping(Merge(c, Mapping(b), Mapping(u))), q) == ValueAt(Mapping(c), q)
  {
    var m := Merge(c, Mapping(b), Mapping(u));
    forall r | q <= r
      ensures ShapeAt(Mapping(m), r) == ShapeAt(Mapping(c), r)
    {
      MergeShape(c, Mapping(b), Mapping(u), r);
      forall p | p in ChangedSet(Mapping(b), Mapping(u))
        ensures !Comparable(p, r)
      {
        assert ChangedTree(b, u, p);
        if p <= r { PrefixesComparable(p, q, r); } else if r <= p { PrefixTransitive(q, r, p); }
      }
    }
    SameShapesBelow(m, c, q);
  }

  /**
   * Two documents read from one baseline with edits that do not touch each other's paths: either
   * write order leaves the same file, and both sets of edits are in it.
   */
  lemma ConcurrentEditsCommute(c: Tree, b: Tree, u: Tree, v: Tree)
    requires Incomparable(ChangedTreeSet(b, u), ChangedTreeSet(b, v))
    ensures var uv := Merge(Merge(c, Mapping(b), Mapping(u)), Mapping(b), Mapping(v));
            && uv == Merge(Merge(c, Mapping(b), Mapping(v)), Mapping(b), Mapping(u))
            && (forall p | ChangedTree(b, u, p) :: ValueAt(Mapping(uv), p) == ValueAt(Mapping(u), p))
            && (forall p | ChangedTree(b, v, p) :: ValueAt(Mapping(uv), p) == ValueAt(Mapping(v), p))
  {
    hide Changed, Merge, ValueAt, ShapeAt;
    var cu, cv := Merge(c, Mapping(b), Mapping(u)), Merge(c, Mapping(b), Mapping(v));
    var uv, vu := Merge(cu, Mapping(b), Mapping(v)), Merge(cv, Mapping(b), Mapping(u));
    forall q
      ensures ShapeAt(Mapping(uv), q) == ShapeAt(Mapping(vu), q)
    {
      MergeShape(c, Mapping(b), Mapping(u), q);
      MergeShape(c, Mapping(b), Mapping(v), q);
      MergeShape(cu, Mapping(b), Mapping(v), q);
      MergeShape(cv, Mapping(b), Mapping(u), q);
      PatchesCommute(c, cu, cv, u, v, ChangedTreeSet(b, u), ChangedTreeSet(b, v), q);
    }
    SameShapesSameTree(Mapping(uv), Mapping(vu));
    forall p | ChangedTree(b, u, p)
      ensures ValueAt(Mapping(uv), p) == ValueAt(Mapping(u), p)
    {
      MergeKeepsEdits(cv, b, u, p);
    }
    forall p | ChangedTree(b, v, p)
      ensures ValueAt(Mapping(uv), p) == ValueAt(Mapping(v), p)
    {
      MergeKeepsEdits(cu, b, v, p);
    }
  }

  /** Patching two incomparable path sets shows the same at `q` in either order. */
  lemma PatchesCommute(c: Tree, cu: Tree, cv: Tree, u: Tree, v: Tree, us: iset<Path>, vs: iset<Path>, q: Path)
    requires Incomparable(us, vs)
    requires ShapeAt(Mapping(cu), q) == PatchedShape(c, u, us, q)
    requires ShapeAt(Mapping(cv), q) == PatchedShape(c, v, vs, q)
    ensures PatchedShape(cu, v, vs, q) == PatchedShape(cv, u, us, q)
  {
    hide ShapeAt;
    if p :| p in us && p <= q {
      forall r | r in vs && Comparable(r, q)
        ensures false
      {
        if r <= q { PrefixesComparable(p, r, q); } else { PrefixTransitive(p, q, r); }
      }
    } else if r :| r in vs && r <= q {
      forall p | p in us && Comparable(p, q)
        ensures false
      {
        if p <= q { PrefixesComparable(p, r, q); } else { PrefixTransitive(r, q, p); }
      }
    }
  }
}
