/** Sets of ids, in ascending order. */
module SortedIds {
  type Id = nat

  ghost predicate Ascending(ids: seq<Id>) {
    forall i, j | 0 <= i < j < |ids| :: ids[i] < ids[j]
  }

  lemma HasLeast(s: set<Id>) returns (m: Id)
    requires s != {}
    ensures m in s && forall x | x in s :: m <= x
  {
    m :| m in s;
    var rest := s - {m};
    if rest != {} {
      var n := HasLeast(rest);
      assert s == rest + {m};
      m := if m < n then m else n;
    } else {
      assert s == {m};
    }
  }

  function Least(s: set<Id>): (m: Id)
    requires s != {}
    ensures m in s && forall x | x in s :: m <= x
  {
    assert exists m :: m in s && forall x | x in s :: m <= x by { var m := HasLeast(s); }
    var m :| m in s && forall x | x in s :: m <= x;
    m
  }

  /** The ascending arrangement of a set. */
  function Sort(s: set<Id>): seq<Id>
    decreases |s|
  {
    if s == {} then [] else [Least(s)] + Sort(s - {Least(s)})
  }

  lemma {:induction false} SortIsAscending(s: set<Id>)
    ensures Ascending(Sort(s)) && |Sort(s)| == |s|
    ensures forall x :: x in Sort(s) <==> x in s
    decreases |s|
  {
    if s != {} {
      var rest := s - {Least(s)};
      SortIsAscending(rest);
      forall i | 0 <= i < |Sort(rest)| ensures Least(s) < Sort(rest)[i] {
        assert Sort(rest)[i] in rest;
      }
    }
  }

  lemma AppendKeepsAscending(ids: seq<Id>, id: Id)
    requires Ascending(ids) && forall x | x in ids :: x < id
    ensures Ascending(ids + [id])
  {
    forall i, j | 0 <= i < j < |ids + [id]| ensures (ids + [id])[i] < (ids + [id])[j] {
      if j == |ids| { assert ids[i] in ids; }
    }
  }

  /** In an ascending list, what stands before a position is smaller. */
  lemma EarlierIsSmaller(ids: seq<Id>, i: nat, x: Id)
    requires Ascending(ids) && i < |ids| && x in ids[..i]
    ensures x < ids[i]
  {
  }

  /** An ascending list is determined by its elements. */
  lemma {:induction false} AscendingIsUnique(a: seq<Id>, b: seq<Id>)
    requires Ascending(a) && Ascending(b) && forall x :: x in a <==> x in b
    ensures a == b
  {
    if a == [] {
      assert forall i | 0 <= i < |b| :: b[i] in b;
    } else {
      assert a[0] in b && b != [] && b[0] in a;
      var i, j :| 0 <= i < |b| && b[i] == a[0] && 0 <= j < |a| && a[j] == b[0];
      assert a[0] == b[0];
      forall x ensures x in a[1..] <==> x in b[1..] {
        assert x in a[1..] <==> x in a && x != a[0];
        assert x in b[1..] <==> x in b && x != b[0];
      }
      AscendingIsUnique(a[1..], b[1..]);
      assert a == [a[0]] + a[1..] && b == [b[0]] + b[1..];
    }
  }
}
