/** Dotted overrides on a configuration tree: setting one leaf after another, and merging them. */
module ConfigOverrides {
  import opened Wrappers
  import opened ConfigTree

  /** An override: the keys of its dotted path, at least one, and the new scalar. */
  datatype Override = Override(path: Path, scalar: Scalar)

  /** The tables that lead to a path, without its last key. */
  predicate HasSections(t: Value, path: Path)
    decreases path
  {
    && t.Table?
    && (|path| > 1 ==> path[0] in t.entries && HasSections(t.entries[path[0]], path[1..]))
  }

  /** The tree with a scalar at a path, or nothing when a section is missing. */
  function SetPath(t: Value, path: Path, scalar: Scalar): (r: Option<Value>)
    requires path != []
    decreases path
  {
    if t.Leaf? then None
    else if |path| == 1 then Some(Table(t.entries[path[0] := Leaf(scalar)]))
    else if path[0] !in t.entries then None
    else
      match SetPath(t.entries[path[0]], path[1..], scalar)
      case None => None
      case Some(section) => Some(Table(t.entries[path[0] := section]))
  }

  ghost predicate Usable(overrides: seq<Override>) {
    forall i | 0 <= i < |overrides| :: overrides[i].path != []
  }

  function ApplyAll(t: Value, overrides: seq<Override>): Option<Value>
    requires Usable(overrides)
    decreases overrides
  {
    if overrides == [] then Some(t)
    else
      match SetPath(t, overrides[0].path, overrides[0].scalar)
      case None => None
      case Some(t') => ApplyAll(t', overrides[1..])
  }

  /** The nested form of one override, and of several. */
  function Nest(path: Path, scalar: Scalar): Value {
    if path == [] then Leaf(scalar) else Table(map[path[0] := Nest(path[1..], scalar)])
  }

  function NestAll(overrides: seq<Override>): Value {
    if overrides == [] then NOTHING else Merge(Nest(overrides[0].path, overrides[0].scalar), NestAll(overrides[1..]))
  }

  predicate Under(path: Path, longer: Path) {
    |path| < |longer| && longer[..|path|] == path
  }

  // One override

  lemma {:induction false} SetPathIsMerge(t: Value, path: Path, scalar: Scalar)
    requires path != []
    ensures SetPath(t, path, scalar) ==
      if HasSections(t, path) then Some(Merge(t, Nest(path, scalar))) else None
    decreases path
  {
    if t.Table? {
      var nest := Nest(path[1..], scalar);
      if |path| == 1 {
        assert nest == Leaf(scalar);
        assert Merge(t, Nest(path, scalar)).entries == t.entries[path[0] := Leaf(scalar)];
      } else if path[0] in t.entries {
        SetPathIsMerge(t.entries[path[0]], path[1..], scalar);
        assert Merge(t, Nest(path, scalar)).entries == t.entries[path[0] := Merge(t.entries[path[0]], nest)];
      }
    }
  }

  lemma UnderBelow(path: Path, longer: Path)
    requires path != [] && longer != []
    ensures Under(path, longer) <==> path[0] == longer[0] && Under(path[1..], longer[1..])
  {
    if |path| < |longer| {
      assert longer[..|path|] == [longer[0]] + longer[1..][..|path| - 1];
      assert path == [path[0]] + path[1..];
    }
  }

  /** After an override, the sections of another path are there if they were and the override
      did not put its scalar in their place. */
  lemma {:induction false} SectionsAfter(t: Value, path: Path, scalar: Scalar, other: Path)
    requires path != [] && other != [] && SetPath(t, path, scalar).Some?
    ensures HasSections(SetPath(t, path, scalar).value, other) <==> HasSections(t, other) && !Under(path, other)
    decreases path
  {
    UnderBelow(path, other);
    if |path| > 1 && |other| > 1 && path[0] == other[0] {
      SectionsAfter(t.entries[path[0]], path[1..], scalar, other[1..]);
    }
  }

  // Several overrides, against one merge

  function At(t: Value, path: Path): Option<Value>
    decreases path
  {
    if path == [] then Some(t)
    else if t.Table? && path[0] in t.entries then At(t.entries[path[0]], path[1..])
    else None
  }

  predicate TableAt(t: Value, path: Path) {
    At(t, path).Some? && At(t, path).value.Table?
  }

  lemma {:induction false} TableInMerge(a: Value, b: Value, path: Path)
    ensures TableAt(Merge(a, b), path) ==> TableAt(a, path) || TableAt(b, path)
    decreases path
  {
    if path != [] && a.Table? && b.Table? && path[0] in a.entries && path[0] in b.entries {
      TableInMerge(a.entries[path[0]], b.entries[path[0]], path[1..]);
    }
  }

  lemma {:induction false} TableInNest(path: Path, scalar: Scalar, prefix: Path)
    ensures TableAt(Nest(path, scalar), prefix) ==> Under(prefix, path)
    decreases path
  {
    if prefix != [] && path != [] {
      TableInNest(path[1..], scalar, prefix[1..]);
      UnderBelow(prefix, path);
    }
  }

  /** The nested form has no table where none of its overrides goes further down. */
  lemma {:induction false} NoTableInNestAll(overrides: seq<Override>, prefix: Path)
    requires prefix != [] && forall i | 0 <= i < |overrides| :: !Under(prefix, overrides[i].path)
    ensures !TableAt(NestAll(overrides), prefix)
    decreases overrides
  {
    if overrides != [] {
      var first, rest := overrides[0], overrides[1..];
      TableInMerge(Nest(first.path, first.scalar), NestAll(rest), prefix);
      TableInNest(first.path, first.scalar, prefix);
      NoTableInNestAll(rest, prefix);
    }
  }

  lemma {:induction false} NestAssociates(t: Value, path: Path, scalar: Scalar, c: Value)
    requires !TableAt(c, path)
    ensures Associates(t, Nest(path, scalar), c)
    decreases path
  {
    if path != [] && t.Table? && c.Table? && path[0] in t.entries && path[0] in c.entries {
      NestAssociates(t.entries[path[0]], path[1..], scalar, c.entries[path[0]]);
    }
  }

  /** The overrides can all be applied: their sections are there, and none is below an earlier. */
  ghost predicate Applicable(t: Value, overrides: seq<Override>) {
    && (forall i | 0 <= i < |overrides| :: HasSections(t, overrides[i].path))
    && (forall i, j | 0 <= i < j < |overrides| :: !Under(overrides[i].path, overrides[j].path))
  }

  lemma ApplicableAfterFirst(t: Value, overrides: seq<Override>)
    requires Usable(overrides) && overrides != []
    requires SetPath(t, overrides[0].path, overrides[0].scalar).Some?
    ensures Applicable(t, overrides) <==>
      Applicable(SetPath(t, overrides[0].path, overrides[0].scalar).value, overrides[1..])
  {
    var first, rest := overrides[0], overrides[1..];
    var t' := SetPath(t, first.path, first.scalar).value;
    SetPathIsMerge(t, first.path, first.scalar);
    forall i | 0 <= i < |rest|
      ensures HasSections(t', rest[i].path) <==> HasSections(t, rest[i].path) && !Under(first.path, rest[i].path)
    {
      SectionsAfter(t, first.path, first.scalar, rest[i].path);
    }
    hide SetPath, HasSections, Under, Merge, Nest;
    assert forall i | 0 <= i < |rest| :: rest[i] == overrides[i + 1];
    if Applicable(t', rest) {
      forall i, j | 0 <= i < j < |overrides| ensures !Under(overrides[i].path, overrides[j].path) {
        assert overrides[j] == rest[j - 1];
        assert i > 0 ==> overrides[i] == rest[i - 1];
      }
      forall i | 0 <= i < |overrides| ensures HasSections(t, overrides[i].path) {
        assert i > 0 ==> overrides[i] == rest[i - 1];
      }
    }
  }

  /** Applying overrides one after another is one merge of the tree with their nested form, when
      it can be done at all. */
  lemma {:induction false} OverridesAreOneMerge(t: Value, overrides: seq<Override>)
    requires t.Table? && Usable(overrides)
    ensures ApplyAll(t, overrides).Some? <==> Applicable(t, overrides)
    ensures Applicable(t, overrides) ==> ApplyAll(t, overrides) == Some(Merge(t, NestAll(overrides)))
    decreases overrides
  {
    if overrides == [] {
      NothingIsIdentity(t);
    } else {
      var first, rest := overrides[0], overrides[1..];
      SetPathIsMerge(t, first.path, first.scalar);
      if HasSections(t, first.path) {
        var nest := Nest(first.path, first.scalar);
        ApplicableAfterFirst(t, overrides);
        OverridesAreOneMerge(Merge(t, nest), rest);
        if Applicable(t, overrides) {
          forall i | 0 <= i < |rest| ensures !Under(first.path, rest[i].path) {
            assert !Under(overrides[0].path, overrides[i + 1].path);
          }
          NoTableInNestAll(rest, first.path);
          NestAssociates(t, first.path, first.scalar, NestAll(rest));
          MergeIsAssociativeExactlyIf(t, nest, NestAll(rest));
        }
      }
    }
  }

  // Order, and what is left alone

  predicate Apart(path: Path, other: Path) {
    path != other && !Under(path, other) && !Under(other, path)
  }

  lemma ApartBelow(path: Path, other: Path)
    requires path != [] && other != [] && path[0] == other[0] && Apart(path, other)
    ensures |path| > 1 && |other| > 1 && Apart(path[1..], other[1..])
  {
    assert path == [path[0]] + path[1..] && other == [other[0]] + other[1..];
    UnderBelow(path, other);
    UnderBelow(other, path);
  }

  function Then(t: Option<Value>, path: Path, scalar: Scalar): Option<Value>
    requires path != []
  {
    if t.None? then None else SetPath(t.value, path, scalar)
  }

  /** What an override puts under the first key of its path; this depends on nothing else. */
  function UnderKey(entry: Option<Value>, path: Path, scalar: Scalar): Option<Value>
    requires path != []
  {
    if |path| == 1 then Some(Leaf(scalar))
    else if entry.None? then None
    else SetPath(entry.value, path[1..], scalar)
  }

  function Entry(t: Value, key: string): Option<Value>
    requires t.Table?
  {
    if key in t.entries then Some(t.entries[key]) else None
  }

  lemma SetPathByKey(t: Value, path: Path, scalar: Scalar)
    requires path != [] && t.Table?
    ensures SetPath(t, path, scalar) ==
      match UnderKey(Entry(t, path[0]), path, scalar)
      case None => None
      case Some(entry) => Some(Table(t.entries[path[0] := entry]))
  {
  }

  lemma OtherKeysCommute(t: Value, p: Path, v: Scalar, q: Path, w: Scalar)
    requires p != [] && q != [] && p[0] != q[0] && t.Table?
    ensures Then(SetPath(t, p, v), q, w) == Then(SetPath(t, q, w), p, v)
  {
    SetPathByKey(t, p, v);
    SetPathByKey(t, q, w);
    var a, b := SetPath(t, p, v), SetPath(t, q, w);
    if a.Some? { SetPathByKey(a.value, q, w); }
    if b.Some? { SetPathByKey(b.value, p, v); }
    hide SetPath, UnderKey;
    var x, y := UnderKey(Entry(t, p[0]), p, v), UnderKey(Entry(t, q[0]), q, w);
    if x.Some? && y.Some? {
      assert t.entries[p[0] := x.value][q[0] := y.value] == t.entries[q[0] := y.value][p[0] := x.value];
    }
  }

  lemma SameKeyTwice(t: Value, p: Path, v: Scalar, q: Path, w: Scalar)
    requires |p| > 1 && |q| > 1 && p[0] == q[0] && t.Table?
    ensures Then(SetPath(t, p, v), q, w) ==
      if p[0] !in t.entries then None
      else
        match Then(SetPath(t.entries[p[0]], p[1..], v), q[1..], w)
        case None => None
        case Some(section) => Some(Table(t.entries[p[0] := section]))
  {
    SetPathByKey(t, p, v);
    var a := SetPath(t, p, v);
    if a.Some? { SetPathByKey(a.value, q, w); }
    hide SetPath;
    if p[0] in t.entries && SetPath(t.entries[p[0]], p[1..], v).Some? {
      var section := SetPath(t.entries[p[0]], p[1..], v).value;
      var x := UnderKey(Some(section), q, w);
      if x.Some? {
        assert t.entries[p[0] := section][p[0] := x.value] == t.entries[p[0] := x.value];
      }
    }
  }

  lemma {:induction false} SetPathsCommute(t: Value, p: Path, v: Scalar, q: Path, w: Scalar)
    requires p != [] && q != [] && Apart(p, q)
    ensures Then(SetPath(t, p, v), q, w) == Then(SetPath(t, q, w), p, v)
    decreases p
  {
    if t.Table? && p[0] != q[0] {
      OtherKeysCommute(t, p, v, q, w);
    } else if t.Table? {
      ApartBelow(p, q);
      SameKeyTwice(t, p, v, q, w);
      SameKeyTwice(t, q, w, p, v);
      if p[0] in t.entries {
        SetPathsCommute(t.entries[p[0]], p[1..], v, q[1..], w);
      }
    }
  }

  ghost predicate PairwiseApart(overrides: seq<Override>) {
    forall i, j | 0 <= i < j < |overrides| :: Apart(overrides[i].path, overrides[j].path)
  }

  lemma UsableParts(before: seq<Override>, o: Override, after: seq<Override>)
    requires Usable(before + [o] + after)
    ensures Usable(before) && o.path != [] && Usable(after) && Usable([o] + (before + after))
  {
    var all := before + [o] + after;
    assert forall i | 0 <= i < |before| :: before[i] == all[i];
    assert o == all[|before|];
    assert forall i | 0 <= i < |after| :: after[i] == all[|before| + 1 + i];
  }

  lemma {:induction false} BringForward(t: Value, before: seq<Override>, o: Override, after: seq<Override>)
    requires Usable(before + [o] + after)
    requires forall i | 0 <= i < |before| :: Apart(o.path, before[i].path)
    ensures Usable([o] + (before + after))
    ensures ApplyAll(t, before + [o] + after) == ApplyAll(t, [o] + (before + after))
    decreases before
  {
    UsableParts(before, o, after);
    hide SetPath;
    if before == [] {
      assert before + [o] + after == [o] + (before + after);
    } else {
      var first, rest := before[0], before[1..];
      SetPathsCommute(t, first.path, first.scalar, o.path, o.scalar);
      hide Apart;
      assert (before + [o] + after)[1..] == rest + [o] + after;
      assert ([o] + (before + after))[1..] == before + after;
      assert (before + after)[1..] == rest + after;
      assert ([o] + (rest + after))[1..] == rest + after;
      if SetPath(t, first.path, first.scalar).Some? {
        BringForward(SetPath(t, first.path, first.scalar).value, rest, o, after);
      }
    }
  }

  lemma WithoutOne<T>(b: seq<T>, j: nat)
    requires j < |b|
    ensures multiset(b) == multiset(b[..j] + b[j + 1..]) + multiset{b[j]}
  {
    assert b == b[..j] + [b[j]] + b[j + 1..];
  }

  lemma CancelOne<T>(p: multiset<T>, q: multiset<T>, x: T)
    requires p + multiset{x} == q + multiset{x}
    ensures p == q
  {
    assert p + multiset{x} - multiset{x} == p;
    assert q + multiset{x} - multiset{x} == q;
  }

  /** Where the first element of a list is found in a rearrangement, and what is left of both. */
  lemma FirstIsFound<T>(a: seq<T>, b: seq<T>) returns (j: nat)
    requires a != [] && multiset(a) == multiset(b)
    ensures j < |b| && b[j] == a[0] && multiset(a[1..]) == multiset(b[..j] + b[j + 1..])
  {
    assert a[0] in multiset(b);
    j :| 0 <= j < |b| && b[j] == a[0];
    WithoutOne(b, j);
    WithoutOne(a, 0);
    assert a[..0] + a[1..] == a[1..];
    CancelOne(multiset(a[1..]), multiset(b[..j] + b[j + 1..]), a[0]);
  }

  /** The order of overrides does not matter when none is at or below another. */
  lemma {:induction false} OrderDoesNotMatter(t: Value, a: seq<Override>, b: seq<Override>)
    requires Usable(a) && Usable(b) && PairwiseApart(a) && multiset(a) == multiset(b)
    ensures ApplyAll(t, a) == ApplyAll(t, b)
    decreases a
  {
    if a == [] {
      assert |multiset(b)| == 0;
      assert b == [];
    } else {
      var o, rest := a[0], a[1..];
      var j := FirstIsFound(a, b);
      var before, after := b[..j], b[j + 1..];
      assert b == before + [o] + after;
      hide SetPath, Apart;
      FirstIsApart(a, before, after);
      BringForward(t, before, o, after);
      var moved := [o] + (before + after);
      assert moved[1..] == before + after;
      match SetPath(t, o.path, o.scalar) {
        case Some(t') =>
          assert forall i | 0 <= i < |before + after| :: (before + after)[i] == moved[i + 1];
          assert forall i | 0 <= i < |rest| :: rest[i] == a[i + 1];
          OrderDoesNotMatter(t', rest, before + after);
        case None =>
      }
    }
  }

  lemma FirstIsApart(a: seq<Override>, before: seq<Override>, after: seq<Override>)
    requires a != [] && PairwiseApart(a) && multiset(a[1..]) == multiset(before + after)
    ensures forall i | 0 <= i < |before| :: Apart(a[0].path, before[i].path)
  {
    hide Apart;
    forall i | 0 <= i < |before| ensures Apart(a[0].path, before[i].path) {
      assert (before + after)[i] == before[i];
      assert before[i] in multiset(a[1..]);
      var k :| 0 <= k < |a[1..]| && a[1..][k] == before[i];
      assert Apart(a[0].path, a[k + 1].path);
    }
  }

  lemma {:induction false} SetPathLeavesOthers(t: Value, path: Path, scalar: Scalar, other: Path)
    requires path != [] && Apart(path, other) && SetPath(t, path, scalar).Some?
    ensures At(SetPath(t, path, scalar).value, other) == At(t, other)
    decreases path
  {
    assert path[..0] == [];
    if other != [] && path[0] == other[0] {
      ApartBelow(path, other);
      SetPathLeavesOthers(t.entries[path[0]], path[1..], scalar, other[1..]);
    }
  }

  /** Whatever is apart from every override stays as it is. */
  lemma {:induction false} OverridesTouchNothingElse(t: Value, overrides: seq<Override>, other: Path)
    requires Usable(overrides) && ApplyAll(t, overrides).Some?
    requires forall i | 0 <= i < |overrides| :: Apart(overrides[i].path, other)
    ensures At(ApplyAll(t, overrides).value, other) == At(t, other)
    decreases overrides
  {
    if overrides != [] {
      var first := overrides[0];
      SetPathLeavesOthers(t, first.path, first.scalar, other);
      OverridesTouchNothingElse(SetPath(t, first.path, first.scalar).value, overrides[1..], other);
    }
  }

  lemma {:induction false} SetPathSets(t: Value, path: Path, scalar: Scalar)
    requires path != [] && SetPath(t, path, scalar).Some?
    ensures At(SetPath(t, path, scalar).value, path) == Some(Leaf(scalar))
    decreases path
  {
    if |path| > 1 {
      SetPathSets(t.entries[path[0]], path[1..], scalar);
    } else {
      assert path[1..] == [];
    }
  }

  /** An override holds in the end when all that come later are apart from it. */
  lemma {:induction false} OverrideHolds(t: Value, overrides: seq<Override>, i: nat)
    requires Usable(overrides) && ApplyAll(t, overrides).Some? && i < |overrides|
    requires forall j | i < j < |overrides| :: Apart(overrides[j].path, overrides[i].path)
    ensures At(ApplyAll(t, overrides).value, overrides[i].path) == Some(Leaf(overrides[i].scalar))
    decreases overrides
  {
    var first, rest := overrides[0], overrides[1..];
    var t' := SetPath(t, first.path, first.scalar).value;
    assert forall j | 0 <= j < |rest| :: rest[j] == overrides[j + 1];
    hide SetPath, Apart;
    if i > 0 {
      OverrideHolds(t', rest, i - 1);
    } else {
      SetPathSets(t, first.path, first.scalar);
      OverridesTouchNothingElse(t', rest, first.path);
    }
  }
}
