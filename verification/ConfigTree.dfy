/** Configuration as trees: merging and flattening, and where the two agree. */
module ConfigTree {
  import opened Wrappers

  datatype Scalar = Str(text: string) | Int(number: int) | Bool(truth: bool)

  datatype Value = Leaf(scalar: Scalar) | Table(entries: map<string, Value>)

  const NOTHING := Table(map[])

  /** Overlay values win; two tables merge key by key. */
  function Merge(base: Value, overlay: Value): Value
    decreases overlay
  {
    if base.Table? && overlay.Table? then
      Table(map key | key in base.entries.Keys + overlay.entries.Keys ::
        if key !in overlay.entries then base.entries[key]
        else if key !in base.entries then overlay.entries[key]
        else Merge(base.entries[key], overlay.entries[key]))
    else overlay
  }

  // Merge algebra

  lemma {:induction false} MergeIsIdempotent(t: Value)
    ensures Merge(t, t) == t
  {
    if t.Table? {
      forall key | key in t.entries ensures Merge(t.entries[key], t.entries[key]) == t.entries[key] {
        MergeIsIdempotent(t.entries[key]);
      }
      assert Merge(t, t).entries == t.entries;
    }
  }

  lemma NothingIsIdentity(t: Value)
    requires t.Table?
    ensures Merge(NOTHING, t) == t && Merge(t, NOTHING) == t
  {
    assert Merge(NOTHING, t).entries == t.entries;
    assert Merge(t, NOTHING).entries == t.entries;
  }

  /** Every table of the first tree has all its keys in the second, where that has a table. */
  predicate Covered(a: Value, c: Value) {
    a.Table? && c.Table? ==>
      forall key | key in a.entries :: key in c.entries && Covered(a.entries[key], c.entries[key])
  }

  /** A merge gives back the overlay exactly if that covers the base. */
  lemma {:induction false} MergeIsOverlayExactlyIf(a: Value, c: Value)
    ensures Merge(a, c) == c <==> Covered(a, c)
  {
    if a.Table? && c.Table? {
      forall key | key in a.entries && key in c.entries
        ensures Merge(a.entries[key], c.entries[key]) == c.entries[key] <==> Covered(a.entries[key], c.entries[key])
      {
        MergeIsOverlayExactlyIf(a.entries[key], c.entries[key]);
      }
      var merged := Merge(a, c).entries;
      if Covered(a, c) {
        assert merged == c.entries;
      } else {
        var key :| key in a.entries && !(key in c.entries && Covered(a.entries[key], c.entries[key]));
        assert key in merged && (key in c.entries ==> merged[key] != c.entries[key]);
      }
    }
  }

  /** Nowhere does a scalar of the middle tree cut the first tree's table off from the last
      tree's, unless the last one has all of its keys anyway. */
  predicate Associates(a: Value, b: Value, c: Value) {
    a.Table? && c.Table? ==>
      if b.Table? then
        forall key | key in a.entries && key in b.entries && key in c.entries ::
          Associates(a.entries[key], b.entries[key], c.entries[key])
      else Covered(a, c)
  }

  /** Merging is associative exactly on such trees. */
  lemma {:induction false} MergeIsAssociativeExactlyIf(a: Value, b: Value, c: Value)
    ensures Merge(Merge(a, b), c) == Merge(a, Merge(b, c)) <==> Associates(a, b, c)
  {
    if a.Table? && b.Leaf? && c.Table? {
      MergeIsOverlayExactlyIf(a, c);
    } else if a.Table? && b.Table? && c.Table? {
      var left, right := Merge(Merge(a, b), c), Merge(a, Merge(b, c));
      forall key | key in a.entries && key in b.entries && key in c.entries
        ensures left.entries[key] == right.entries[key] <==>
          Associates(a.entries[key], b.entries[key], c.entries[key])
      {
        MergeIsAssociativeExactlyIf(a.entries[key], b.entries[key], c.entries[key]);
      }
      assert left.entries.Keys == right.entries.Keys;
      forall key | key in left.entries && !(key in a.entries && key in b.entries && key in c.entries)
        ensures left.entries[key] == right.entries[key]
      {
      }
      if Associates(a, b, c) {
        assert left.entries == right.entries;
      }
    }
  }

  /** Wherever both trees have something, both have a table or both a scalar. */
  predicate SameShape(a: Value, b: Value) {
    match (a, b)
    case (Leaf(_), Leaf(_)) => true
    case (Table(es), Table(fs)) => forall key | key in es && key in fs :: SameShape(es[key], fs[key])
    case _ => false
  }

  lemma {:induction false} SameShapesAssociate(a: Value, b: Value, c: Value)
    requires SameShape(a, b) && SameShape(b, c)
    ensures Merge(Merge(a, b), c) == Merge(a, Merge(b, c))
  {
    SameShapesMeetTheCondition(a, b, c);
    MergeIsAssociativeExactlyIf(a, b, c);
  }

  lemma {:induction false} SameShapesMeetTheCondition(a: Value, b: Value, c: Value)
    requires SameShape(a, b) && SameShape(b, c)
    ensures Associates(a, b, c)
  {
    if a.Table? {
      forall key | key in a.entries && key in b.entries && key in c.entries
        ensures Associates(a.entries[key], b.entries[key], c.entries[key])
      {
        SameShapesMeetTheCondition(a.entries[key], b.entries[key], c.entries[key]);
      }
    }
  }

  /** A table, then a scalar, then a table: the scalar is lost on one side only. */
  lemma TableScalarTable()
    ensures
      var a := Table(map["db" := Table(map["host" := Leaf(Str("a"))])]);
      var b := Table(map["db" := Leaf(Str("none"))]);
      var c := Table(map["db" := Table(map["port" := Leaf(Int(1))])]);
      Merge(Merge(a, b), c) != Merge(a, Merge(b, c))
  {
    var a1, b1, c1 := Table(map["host" := Leaf(Str("a"))]), Leaf(Str("none")), Table(map["port" := Leaf(Int(1))]);
    var a, b, c := Table(map["db" := a1]), Table(map["db" := b1]), Table(map["db" := c1]);
    assert "host" in a1.entries && "host" !in c1.entries;
    assert "db" in a.entries && "db" in b.entries && "db" in c.entries && !Associates(a1, b1, c1);
    MergeIsAssociativeExactlyIf(a, b, c);
  }

  // Flattening

  type Path = seq<string>

  /** The leaf that a path of keys leads to. */
  function LeafAt(t: Value, path: Path): Option<Scalar>
    decreases path
  {
    match t
    case Leaf(scalar) => if path == [] then Some(scalar) else None
    case Table(entries) => if path != [] && path[0] in entries then LeafAt(entries[path[0]], path[1..]) else None
  }

  function Leaves(t: Value): set<Path> {
    match t
    case Leaf(_) => {[]}
    case Table(entries) => set key, path | key in entries && path in Leaves(entries[key]) :: [key] + path
  }

  lemma {:induction false} LeavesAreWhereLeavesAre(t: Value, path: Path)
    ensures path in Leaves(t) <==> LeafAt(t, path).Some?
    decreases path
  {
    if t.Table? {
      if path != [] && path[0] in t.entries {
        LeavesAreWhereLeavesAre(t.entries[path[0]], path[1..]);
        assert path == [path[0]] + path[1..];
      }
      if path in Leaves(t) {
        var key, rest :| key in t.entries && rest in Leaves(t.entries[key]) && path == [key] + rest;
        assert path[0] == key && path[1..] == rest;
      }
    }
  }

  lemma LeavesAreAll(t: Value)
    ensures forall path :: path in Leaves(t) <==> LeafAt(t, path).Some?
  {
    forall path ensures path in Leaves(t) <==> LeafAt(t, path).Some? {
      LeavesAreWhereLeavesAre(t, path);
    }
  }

  /** All leaves with the paths to them. */
  function Flatten(t: Value): (flat: map<Path, Scalar>)
    ensures forall path :: path in flat <==> LeafAt(t, path).Some?
    ensures forall path | path in flat :: Some(flat[path]) == LeafAt(t, path)
  {
    LeavesAreAll(t);
    map path | path in Leaves(t) :: LeafAt(t, path).value
  }

  /** A scalar replaces a table only where that has no leaves, and a table never a scalar. */
  predicate Overlays(base: Value, overlay: Value) {
    match (base, overlay)
    case (Table(es), Table(fs)) => forall key | key in es && key in fs :: Overlays(es[key], fs[key])
    case (Table(_), Leaf(_)) => Leaves(base) == {}
    case (Leaf(_), Leaf(_)) => true
    case (Leaf(_), Table(_)) => false
  }

  lemma {:induction false} LeafOfMerge(base: Value, overlay: Value, path: Path)
    requires Overlays(base, overlay)
    ensures LeafAt(Merge(base, overlay), path) ==
      if LeafAt(overlay, path).Some? then LeafAt(overlay, path) else LeafAt(base, path)
    decreases path
  {
    if base.Table? && overlay.Table? {
      if path != [] && path[0] in base.entries && path[0] in overlay.entries {
        LeafOfMerge(base.entries[path[0]], overlay.entries[path[0]], path[1..]);
      }
    } else if base.Table? {
      LeavesAreWhereLeavesAre(base, path);
    }
  }

  /** Where the condition fails, some leaf of the base is lost without another in its place. */
  lemma {:induction false} LeafBetrays(base: Value, overlay: Value) returns (path: Path)
    requires !Overlays(base, overlay)
    ensures LeafAt(base, path).Some? && LeafAt(overlay, path).None? && LeafAt(Merge(base, overlay), path).None?
  {
    if base.Table? && overlay.Table? {
      var key :| key in base.entries && key in overlay.entries && !Overlays(base.entries[key], overlay.entries[key]);
      var rest := LeafBetrays(base.entries[key], overlay.entries[key]);
      path := [key] + rest;
      assert path[0] == key && path[1..] == rest;
    } else if base.Table? {
      path :| path in Leaves(base);
      LeavesAreWhereLeavesAre(base, path);
      assert LeafAt(base, []).None?;
    } else {
      path := [];
    }
  }

  /** Flattening a merge is overriding one flattening by the other, exactly on such trees. */
  lemma FlattenCommutesExactlyIf(base: Value, overlay: Value)
    ensures Flatten(Merge(base, overlay)) == Flatten(base) + Flatten(overlay) <==> Overlays(base, overlay)
  {
    var merged, overridden := Flatten(Merge(base, overlay)), Flatten(base) + Flatten(overlay);
    if Overlays(base, overlay) {
      forall path
        ensures path in merged <==> path in overridden
        ensures path in merged ==> merged[path] == overridden[path]
      {
        LeafOfMerge(base, overlay, path);
      }
      assert merged == overridden;
    } else {
      var path := LeafBetrays(base, overlay);
      assert path in overridden && path !in merged;
    }
  }
}
