/** The order in which query pairs are sorted, and the one sorted arrangement of a multiset. */
module Ordering {
  type Pair = (string, string)

  /** Comparison of texts by code point, as Python compares strings. */
  predicate TextLe(s: string, t: string) {
    s == "" || (t != "" && (s[0] < t[0] || (s[0] == t[0] && TextLe(s[1..], t[1..]))))
  }

  predicate PairLe(p: Pair, q: Pair) {
    if p.0 == q.0 then TextLe(p.1, q.1) else TextLe(p.0, q.0)
  }

  /** The texts first differ at this position, where the first one has the smaller character. */
  predicate SmallerAt(s: string, t: string, i: nat) {
    i < |s| && i < |t| && s[..i] == t[..i] && s[i] < t[i]
  }

  lemma SmallerAfterFirst(s: string, t: string, i: nat)
    requires s != "" && t != ""
    ensures SmallerAt(s, t, i + 1) <==> s[0] == t[0] && SmallerAt(s[1..], t[1..], i)
  {
    if i + 1 < |s| && i + 1 < |t| {
      assert s[..i + 1] == [s[0]] + s[1..][..i] && t[..i + 1] == [t[0]] + t[1..][..i];
    }
  }

  /** A text comes before another if it is the start of it, or smaller where they first differ. */
  lemma {:induction false} TextLeIsByFirstDifference(s: string, t: string)
    ensures TextLe(s, t) <==> s <= t || exists i: nat :: SmallerAt(s, t, i)
  {
    if s != "" && t != "" {
      TextLeIsByFirstDifference(s[1..], t[1..]);
      assert s == [s[0]] + s[1..] && t == [t[0]] + t[1..];
      assert SmallerAt(s, t, 0) <==> s[0] < t[0];
      hide SmallerAt;
      if i: nat :| SmallerAt(s[1..], t[1..], i) {
        SmallerAfterFirst(s, t, i);
      }
      if i: nat :| SmallerAt(s, t, i) {
        if i > 0 { SmallerAfterFirst(s, t, i - 1); }
      }
    }
  }

  lemma {:induction false} TextLeReflexive(s: string)
    ensures TextLe(s, s)
  {
    if s != "" { TextLeReflexive(s[1..]); }
  }

  lemma {:induction false} TextLeTotal(s: string, t: string)
    ensures TextLe(s, t) || TextLe(t, s)
  {
    if s != "" && t != "" { TextLeTotal(s[1..], t[1..]); }
  }

  lemma {:induction false} TextLeAntisymmetric(s: string, t: string)
    requires TextLe(s, t) && TextLe(t, s)
    ensures s == t
  {
    if s != "" && t != "" {
      TextLeAntisymmetric(s[1..], t[1..]);
      assert s == [s[0]] + s[1..] && t == [t[0]] + t[1..];
    }
  }

  lemma {:induction false} TextLeTransitive(s: string, t: string, u: string)
    requires TextLe(s, t) && TextLe(t, u)
    ensures TextLe(s, u)
  {
    if s != "" && s[0] == t[0] == u[0] { TextLeTransitive(s[1..], t[1..], u[1..]); }
  }

  /** PairLe is a total order. */
  lemma PairLeOrder(p: Pair, q: Pair, r: Pair)
    ensures PairLe(p, p)
    ensures PairLe(p, q) || PairLe(q, p)
    ensures PairLe(p, q) && PairLe(q, p) ==> p == q
    ensures PairLe(p, q) && PairLe(q, r) ==> PairLe(p, r)
  {
    TextLeReflexive(p.1);
    TextLeTotal(p.0, q.0);
    TextLeTotal(p.1, q.1);
    if TextLe(p.0, q.0) && TextLe(q.0, p.0) { TextLeAntisymmetric(p.0, q.0); }
    if TextLe(p.1, q.1) && TextLe(q.1, p.1) { TextLeAntisymmetric(p.1, q.1); }
    if TextLe(p.0, q.0) && TextLe(q.0, r.0) { TextLeTransitive(p.0, q.0, r.0); }
    if TextLe(p.1, q.1) && TextLe(q.1, r.1) { TextLeTransitive(p.1, q.1, r.1); }
    if TextLe(q.0, r.0) && TextLe(r.0, q.0) { TextLeAntisymmetric(q.0, r.0); }
  }

  ghost predicate Ordered(pairs: seq<Pair>) {
    forall i, j | 0 <= i < j < |pairs| :: PairLe(pairs[i], pairs[j])
  }

  function Insert(p: Pair, pairs: seq<Pair>): seq<Pair> {
    if pairs == [] || PairLe(p, pairs[0]) then [p] + pairs
    else [pairs[0]] + Insert(p, pairs[1..])
  }

  function Sorted(pairs: seq<Pair>): seq<Pair> {
    if pairs == [] then [] else Insert(pairs[0], Sorted(pairs[1..]))
  }

  lemma {:induction false} InsertKeeps(p: Pair, pairs: seq<Pair>)
    ensures multiset(Insert(p, pairs)) == multiset{p} + multiset(pairs)
    ensures Ordered(pairs) ==> Ordered(Insert(p, pairs))
  {
    if pairs == [] || PairLe(p, pairs[0]) {
      forall q | q in pairs ensures Ordered(pairs) && pairs != [] && PairLe(p, pairs[0]) ==> PairLe(p, q) {
        PairLeOrder(p, pairs[0], q);
        PairLeOrder(q, q, q);
      }
      hide PairLe;
    } else {
      InsertKeeps(p, pairs[1..]);
      PairLeOrder(p, pairs[0], p);
      assert pairs == [pairs[0]] + pairs[1..];
      hide PairLe;
      var tail := Insert(p, pairs[1..]);
      forall q | q in tail ensures Ordered(pairs) ==> PairLe(pairs[0], q) {
        assert q in multiset(tail);
        assert q == p || q in pairs[1..];
      }
    }
  }

  /** Sorting orders the pairs and loses or adds none. */
  lemma {:induction false} SortedIsOrdered(pairs: seq<Pair>)
    ensures Ordered(Sorted(pairs)) && multiset(Sorted(pairs)) == multiset(pairs)
  {
    if pairs != [] {
      SortedIsOrdered(pairs[1..]);
      InsertKeeps(pairs[0], Sorted(pairs[1..]));
      assert pairs == [pairs[0]] + pairs[1..];
    }
  }

  lemma FirstIsLeast(a: seq<Pair>, p: Pair)
    requires Ordered(a) && p in a
    ensures PairLe(a[0], p)
  {
    PairLeOrder(p, p, p);
  }

  lemma RestIsOrdered(a: seq<Pair>)
    requires Ordered(a) && a != []
    ensures Ordered(a[1..]) && multiset(a[1..]) == multiset(a) - multiset{a[0]}
  {
    hide PairLe;
    assert a == [a[0]] + a[1..];
  }

  /** A multiset has only one ordered arrangement. */
  lemma {:induction false} OrderedIsUnique(a: seq<Pair>, b: seq<Pair>)
    requires Ordered(a) && Ordered(b) && multiset(a) == multiset(b)
    ensures a == b
  {
    assert |multiset(a)| == |a| && |multiset(b)| == |b|;
    hide Ordered, PairLe;
    if a != [] {
      assert a[0] in multiset(b) && b[0] in multiset(a);
      FirstIsLeast(a, b[0]);
      FirstIsLeast(b, a[0]);
      PairLeOrder(a[0], b[0], a[0]);
      RestIsOrdered(a);
      RestIsOrdered(b);
      OrderedIsUnique(a[1..], b[1..]);
      assert a == [a[0]] + a[1..] && b == [b[0]] + b[1..];
    }
  }
}
