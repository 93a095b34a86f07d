/** Cursor walks: over a table that changes between fetches, and over one that does not. */
module TodoPaging {
  import opened Wrappers
  import opened SortedIds
  import opened TodoTable

  /** What one page contains and what it leaves for later. */
  lemma PageCovers(rows: Rows, lastId: Option<Id>, limit: nat, ownerFilter: Option<Id>)
    requires limit > 0
    ensures var ids, next := PageIds(rows, lastId, limit, ownerFilter), NextLastId(rows, lastId, limit, ownerFilter);
      var matching := Matching(rows, ownerFilter, lastId);
      && Ascending(ids) && |ids| <= limit
      && (forall id | id in ids :: id in matching)
      && (forall id | id in matching :: id in ids || (next.Some? && next.value < id))
      && (next.Some? ==> ids != [] && next.value == ids[|ids| - 1] && |ids| == limit < |matching|)
      && (next.None? ==> ids == Sort(matching))
  {
    var matching := Matching(rows, ownerFilter, lastId);
    SortIsAscending(matching);
    PageIdsMatch(rows, lastId, limit, ownerFilter);
    var ids, next := PageIds(rows, lastId, limit, ownerFilter), NextLastId(rows, lastId, limit, ownerFilter);
    forall id | id in matching ensures id in ids || (next.Some? && next.value < id) {
      assert id in Sort(matching);
      var k :| 0 <= k < |Sort(matching)| && Sort(matching)[k] == id;
      if k < |ids| { assert ids[k] == id; }
    }
  }

  // A table that changes

  /** One fetch of a walk: the table at that moment, and the limit asked for. */
  datatype Fetch = Fetch(rows: Rows, limit: nat)

  ghost predicate Limits(fetches: seq<Fetch>) {
    forall i | 0 <= i < |fetches| :: fetches[i].limit > 0
  }

  /** The ids emitted by a walk that passes each page's cursor on to the next fetch, and stops
      at a page without one. */
  function WalkIds(fetches: seq<Fetch>, cursor: Option<Id>, ownerFilter: Option<Id>): seq<Id> {
    if fetches == [] then []
    else
      var f := fetches[0];
      var next := NextLastId(f.rows, cursor, f.limit, ownerFilter);
      PageIds(f.rows, cursor, f.limit, ownerFilter) +
      (if next.None? then [] else WalkIds(fetches[1..], next, ownerFilter))
  }

  /** Whether the walk reached a page without a cursor. */
  predicate WalkEnds(fetches: seq<Fetch>, cursor: Option<Id>, ownerFilter: Option<Id>) {
    fetches != [] &&
    var f := fetches[0];
    var next := NextLastId(f.rows, cursor, f.limit, ownerFilter);
    next.None? || WalkEnds(fetches[1..], next, ownerFilter)
  }

  predicate Above(id: Id, cursor: Option<Id>) {
    cursor.None? || cursor.value < id
  }

  /** Present in the table and in scope at every fetch. */
  ghost predicate Steady(fetches: seq<Fetch>, id: Id, ownerFilter: Option<Id>) {
    forall i | 0 <= i < |fetches| :: id in fetches[i].rows && InScope(fetches[i].rows[id], ownerFilter)
  }

  lemma AscendingConcat(a: seq<Id>, b: seq<Id>)
    requires Ascending(a) && Ascending(b) && a != []
    requires forall x | x in b :: a[|a| - 1] < x
    ensures Ascending(a + b)
  {
    forall i, j | 0 <= i < j < |a + b| ensures (a + b)[i] < (a + b)[j] {
      if i < |a| <= j { assert b[j - |a|] in b && a[i] <= a[|a| - 1]; }
    }
  }

  lemma {:induction false} WalkAscends(fetches: seq<Fetch>, cursor: Option<Id>, ownerFilter: Option<Id>)
    requires Limits(fetches)
    ensures Ascending(WalkIds(fetches, cursor, ownerFilter))
    ensures forall id | id in WalkIds(fetches, cursor, ownerFilter) :: Above(id, cursor)
  {
    if fetches != [] {
      var f := fetches[0];
      PageCovers(f.rows, cursor, f.limit, ownerFilter);
      hide PageIds, NextLastId, Sort, Ascending;
      var ids, next := PageIds(f.rows, cursor, f.limit, ownerFilter), NextLastId(f.rows, cursor, f.limit, ownerFilter);
      if next.Some? {
        var rest := WalkIds(fetches[1..], next, ownerFilter);
        WalkAscends(fetches[1..], next, ownerFilter);
        AscendingConcat(ids, rest);
        assert next.value in ids;
      } else {
        assert ids + [] == ids;
      }
    }
  }

  /** Emitted at some fetch means in scope there. */
  ghost predicate Seen(fetches: seq<Fetch>, id: Id, ownerFilter: Option<Id>) {
    exists i :: 0 <= i < |fetches| && id in fetches[i].rows && InScope(fetches[i].rows[id], ownerFilter)
  }

  lemma {:induction false} WalkEmitsSeen(fetches: seq<Fetch>, cursor: Option<Id>, ownerFilter: Option<Id>, id: Id)
    requires Limits(fetches) && id in WalkIds(fetches, cursor, ownerFilter)
    ensures Seen(fetches, id, ownerFilter)
  {
    var f := fetches[0];
    PageCovers(f.rows, cursor, f.limit, ownerFilter);
    hide PageIds, NextLastId, Sort, Ascending;
    var next := NextLastId(f.rows, cursor, f.limit, ownerFilter);
    if id in PageIds(f.rows, cursor, f.limit, ownerFilter) {
      assert id in Matching(f.rows, ownerFilter, cursor);
    } else {
      WalkEmitsSeen(fetches[1..], next, ownerFilter, id);
      var i :| 0 <= i < |fetches[1..]| && id in fetches[1..][i].rows && InScope(fetches[1..][i].rows[id], ownerFilter);
      assert fetches[i + 1] == fetches[1..][i];
    }
  }

  lemma {:induction false} WalkFindsSteady(fetches: seq<Fetch>, cursor: Option<Id>, ownerFilter: Option<Id>, id: Id)
    requires Limits(fetches) && WalkEnds(fetches, cursor, ownerFilter)
    requires Steady(fetches, id, ownerFilter) && Above(id, cursor)
    ensures id in WalkIds(fetches, cursor, ownerFilter)
  {
    var f := fetches[0];
    PageCovers(f.rows, cursor, f.limit, ownerFilter);
    hide PageIds, NextLastId, Sort, Ascending;
    var next := NextLastId(f.rows, cursor, f.limit, ownerFilter);
    assert id in Matching(f.rows, ownerFilter, cursor);
    if id !in PageIds(f.rows, cursor, f.limit, ownerFilter) {
      assert WalkEnds(fetches[1..], next, ownerFilter);
      WalkFindsSteady(fetches[1..], next, ownerFilter, id);
    }
  }

  lemma {:induction false} AscendingCountsOnce(ids: seq<Id>, id: Id)
    requires Ascending(ids)
    ensures multiset(ids)[id] == if id in ids then 1 else 0
  {
    if ids != [] {
      AscendingCountsOnce(ids[1..], id);
      assert ids == [ids[0]] + ids[1..];
      if id == ids[0] { assert id !in ids[1..]; }
    }
  }

  /** Whatever happens to the table between fetches, the walk emits strictly increasing ids, none
      twice, each in scope at some fetch; if it ends, every id in scope throughout comes exactly once. */
  lemma WalkOverChangingTable(fetches: seq<Fetch>, ownerFilter: Option<Id>)
    requires Limits(fetches)
    ensures Ascending(WalkIds(fetches, None, ownerFilter))
    ensures forall id :: multiset(WalkIds(fetches, None, ownerFilter))[id] <= 1
    ensures forall id | id in WalkIds(fetches, None, ownerFilter) :: Seen(fetches, id, ownerFilter)
    ensures WalkEnds(fetches, None, ownerFilter) ==>
      forall id | Steady(fetches, id, ownerFilter) :: multiset(WalkIds(fetches, None, ownerFilter))[id] == 1
  {
    hide WalkIds, WalkEnds, Seen, Steady, Ascending;
    var ids := WalkIds(fetches, None, ownerFilter);
    WalkAscends(fetches, None, ownerFilter);
    forall id ensures multiset(ids)[id] == if id in ids then 1 else 0 {
      AscendingCountsOnce(ids, id);
    }
    forall id | id in ids ensures Seen(fetches, id, ownerFilter) {
      WalkEmitsSeen(fetches, None, ownerFilter, id);
    }
    if WalkEnds(fetches, None, ownerFilter) {
      forall id | Steady(fetches, id, ownerFilter) ensures id in ids {
        WalkFindsSteady(fetches, None, ownerFilter, id);
      }
    }
  }

  // A table that stays

  /** The cursor after a page leaves exactly the ids the page did not contain. */
  lemma RestAfterPage(rows: Rows, cursor: Option<Id>, limit: nat, ownerFilter: Option<Id>)
    requires limit > 0 && NextLastId(rows, cursor, limit, ownerFilter).Some?
    ensures var next := NextLastId(rows, cursor, limit, ownerFilter);
      && |Matching(rows, ownerFilter, next)| == |Matching(rows, ownerFilter, cursor)| - limit
      && Sort(Matching(rows, ownerFilter, cursor)) ==
         PageIds(rows, cursor, limit, ownerFilter) + Sort(Matching(rows, ownerFilter, next))
  {
    PageCovers(rows, cursor, limit, ownerFilter);
    hide PageIds, NextLastId;
    var ids, next := PageIds(rows, cursor, limit, ownerFilter), NextLastId(rows, cursor, limit, ownerFilter);
    var before, after := Matching(rows, ownerFilter, cursor), Matching(rows, ownerFilter, next);
    SortIsAscending(before);
    SortIsAscending(after);
    assert next.value in ids;
    forall id ensures id in ids + Sort(after) <==> id in Sort(before) {
      assert id in after ==> id in before;
      assert id in ids ==> id <= next.value;
    }
    forall j | 0 <= j < |Sort(after)| ensures next.value < Sort(after)[j] {
      assert Sort(after)[j] in Sort(after);
    }
    AscendingIsUnique(ids + Sort(after), Sort(before));
  }

  /** The pages of a walk over a fixed table; the in-scope ids above the cursor run out. */
  function FixedWalk(rows: Rows, cursor: Option<Id>, limit: nat, ownerFilter: Option<Id>): (pages: seq<seq<Id>>)
    requires limit > 0
    decreases |Matching(rows, ownerFilter, cursor)|
  {
    var next := NextLastId(rows, cursor, limit, ownerFilter);
    if next.None? then [PageIds(rows, cursor, limit, ownerFilter)]
    else
      RestAfterPage(rows, cursor, limit, ownerFilter);
      [PageIds(rows, cursor, limit, ownerFilter)] + FixedWalk(rows, next, limit, ownerFilter)
  }

  function Flattened(pages: seq<seq<Id>>): seq<Id> {
    if pages == [] then [] else pages[0] + Flattened(pages[1..])
  }

  /** On a fixed table the walk returns the sorted in-scope ids, each once. */
  lemma {:induction false} FixedWalkIsExact(rows: Rows, cursor: Option<Id>, limit: nat, ownerFilter: Option<Id>)
    requires limit > 0
    ensures Flattened(FixedWalk(rows, cursor, limit, ownerFilter)) == Sort(Matching(rows, ownerFilter, cursor))
    decreases |Matching(rows, ownerFilter, cursor)|
  {
    PageCovers(rows, cursor, limit, ownerFilter);
    hide PageIds, NextLastId, Sort, Matching, Ascending;
    var ids, next := PageIds(rows, cursor, limit, ownerFilter), NextLastId(rows, cursor, limit, ownerFilter);
    if next.None? {
      var none: seq<seq<Id>> := [];
      assert [ids][1..] == none && ids + [] == ids;
    } else {
      RestAfterPage(rows, cursor, limit, ownerFilter);
      FixedWalkIsExact(rows, next, limit, ownerFilter);
      var rest := FixedWalk(rows, next, limit, ownerFilter);
      assert ([ids] + rest)[1..] == rest;
    }
  }

  /** `pages` is `n / limit` rounded up, but one for no ids at all. */
  ghost predicate RoundedUp(pages: nat, n: nat, limit: nat) {
    if n == 0 then pages == 1 else (pages - 1) * limit < n <= pages * limit
  }

  lemma OnePageMore(pages: nat, n: nat, limit: nat)
    requires n > 0 && RoundedUp(pages, n, limit)
    ensures RoundedUp(pages + 1, n + limit, limit)
  {
    assert (pages + 1) * limit == pages * limit + limit;
    assert (pages + 1 - 1) * limit == (pages - 1) * limit + limit;
  }

  /** It takes as few pages as the limit allows. */
  lemma {:induction false} FixedWalkPageCount(rows: Rows, cursor: Option<Id>, limit: nat, ownerFilter: Option<Id>)
    requires limit > 0
    ensures RoundedUp(|FixedWalk(rows, cursor, limit, ownerFilter)|, |Matching(rows, ownerFilter, cursor)|, limit)
    decreases |Matching(rows, ownerFilter, cursor)|
  {
    WalkGoesOn(rows, cursor, limit, ownerFilter);
    hide PageIds, NextLastId, Sort, Matching, FixedWalk;
    var next := NextLastId(rows, cursor, limit, ownerFilter);
    if next.Some? {
      FixedWalkPageCount(rows, next, limit, ownerFilter);
      OnePageMore(|FixedWalk(rows, next, limit, ownerFilter)|, |Matching(rows, ownerFilter, next)|, limit);
    }
  }

  /** A page without a cursor is the last and takes what is left; one with a cursor takes `limit`. */
  lemma WalkGoesOn(rows: Rows, cursor: Option<Id>, limit: nat, ownerFilter: Option<Id>)
    requires limit > 0
    ensures var next, n := NextLastId(rows, cursor, limit, ownerFilter), |Matching(rows, ownerFilter, cursor)|;
      if next.None? then
        |FixedWalk(rows, cursor, limit, ownerFilter)| == 1 && n <= limit
      else
        && |FixedWalk(rows, cursor, limit, ownerFilter)| == 1 + |FixedWalk(rows, next, limit, ownerFilter)|
        && n == limit + |Matching(rows, ownerFilter, next)| && |Matching(rows, ownerFilter, next)| > 0
  {
    PageCovers(rows, cursor, limit, ownerFilter);
    SortIsAscending(Matching(rows, ownerFilter, cursor));
    if NextLastId(rows, cursor, limit, ownerFilter).Some? {
      RestAfterPage(rows, cursor, limit, ownerFilter);
    }
    hide PageIds, NextLastId, Sort, Matching, Ascending;
  }

  /** A fixed table is the changing-table walk with the same rows at every fetch. */
  lemma {:induction false} FixedWalkIsAWalk(rows: Rows, cursor: Option<Id>, limit: nat, ownerFilter: Option<Id>)
    requires limit > 0
    ensures var pages := FixedWalk(rows, cursor, limit, ownerFilter);
      var fetches := seq(|pages|, _ => Fetch(rows, limit));
      WalkEnds(fetches, cursor, ownerFilter) && WalkIds(fetches, cursor, ownerFilter) == Flattened(pages)
    decreases |Matching(rows, ownerFilter, cursor)|
  {
    hide PageIds, NextLastId, Sort, Matching;
    var ids, next := PageIds(rows, cursor, limit, ownerFilter), NextLastId(rows, cursor, limit, ownerFilter);
    var pages := FixedWalk(rows, cursor, limit, ownerFilter);
    var fetches := seq(|pages|, _ => Fetch(rows, limit));
    if next.None? {
      var none: seq<seq<Id>> := [];
      assert pages == [ids] && [ids][1..] == none;
    } else {
      RestAfterPage(rows, cursor, limit, ownerFilter);
      FixedWalkIsAWalk(rows, next, limit, ownerFilter);
      var rest := FixedWalk(rows, next, limit, ownerFilter);
      assert pages[1..] == rest;
      assert fetches[1..] == seq(|rest|, _ => Fetch(rows, limit));
    }
  }
}
