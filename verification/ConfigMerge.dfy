/** The merge of two nested dictionaries into a new one. */
module ConfigMerge {
  import opened ConfigTree
  import opened ConfigDicts

  // What the loop has merged so far, on values

  /** The merge where the overlay's keys still to come are left out. */
  function PartMerged(base: map<string, Value>, overlay: map<string, Value>, keys: set<string>): map<string, Value> {
    map k | k in base.Keys + (overlay.Keys - keys) ::
      if k in keys || k !in overlay then base[k]
      else if k !in base then overlay[k]
      else Merge(base[k], overlay[k])
  }

  lemma MergedAtLast(base: map<string, Value>, overlay: map<string, Value>)
    ensures Table(PartMerged(base, overlay, {})) == Merge(Table(base), Table(overlay))
  {
    assert PartMerged(base, overlay, {}) == Merge(Table(base), Table(overlay)).entries;
  }

  lemma OneKeyMore(base: map<string, Value>, overlay: map<string, Value>, keys: set<string>, key: string)
    requires key in keys && keys <= overlay.Keys
    ensures PartMerged(base, overlay, keys - {key}) ==
      PartMerged(base, overlay, keys)[key := if key in base then Merge(base[key], overlay[key]) else overlay[key]]
  {
  }

  // Which dictionaries it holds, on sets

  function Part<T>(held: map<string, set<T>>, key: string): set<T> {
    if key in held then held[key] else {}
  }

  ghost predicate Separate<T>(held: map<string, set<T>>) {
    forall k, other | k in held && other in held && k != other :: held[k] !! held[other]
  }

  /** What is held under each key is the base's or the overlay's under that key, or newly made. */
  ghost predicate Within<T>(held: map<string, set<T>>, made: set<T>, base: map<string, set<T>>,
                            overlay: map<string, set<T>>) {
    forall k | k in held :: held[k] <= made + Part(base, k) + Part(overlay, k)
  }

  ghost predicate Inside<T>(held: map<string, set<T>>, all: set<T>) {
    forall k | k in held :: held[k] <= all
  }

  lemma OneHeldMore<T>(held: map<string, set<T>>, made: set<T>, base: map<string, set<T>>, overlay: map<string, set<T>>,
                       b: set<T>, o: set<T>, key: string, h: set<T>, more: set<T>)
    requires Separate(held) && Separate(base) && Separate(overlay)
    requires Within(held, made, base, overlay) && Inside(base, b) && Inside(overlay, o)
    requires b !! o && made !! b + o && more !! made + b + o
    requires h <= more + Part(base, key) + Part(overlay, key)
    ensures Separate(held[key := h]) && Within(held[key := h], made + more, base, overlay)
  {
    forall k | k in held && k != key ensures held[k] !! h {
      assert held[k] <= made + Part(base, k) + Part(overlay, k);
      assert Part(base, k) !! Part(base, key) && Part(overlay, k) !! Part(overlay, key);
      assert Part(base, k) <= b && Part(base, key) <= b && Part(overlay, k) <= o && Part(overlay, key) <= o;
    }
  }

  // And both, of entries in memory

  /** An entry that shows a value and holds a set of dictionaries; with `tree`, as a tree. */
  ghost predicate Good(e: Entry, v: Value, held: set<Dict>, tree: bool)
    reads if e.Sub? then {e.dict} + e.dict.Repr else {}
  {
    match e
    case Item(scalar) => v == Leaf(scalar) && held == {}
    case Sub(d) => d.Valid() && v == d.View() && held == d.Repr && (tree ==> d.Tree())
  }

  /** Entries that show values key by key, out of a set of dictionaries. */
  ghost predicate AllGood(entries: map<string, Entry>, shown: map<string, Value>, held: map<string, set<Dict>>,
                          all: set<Dict>, tree: bool)
    reads all
  {
    && entries.Keys == shown.Keys == held.Keys
    && forall k | k in entries ::
      && (entries[k].Sub? ==> entries[k].dict in all && entries[k].dict.Repr <= all)
      && Good(entries[k], shown[k], held[k], tree)
  }

  lemma OneGoodMore(entries: map<string, Entry>, shown: map<string, Value>, held: map<string, set<Dict>>,
                    all: set<Dict>, tree: bool, key: string, e: Entry, v: Value, h: set<Dict>)
    requires AllGood(entries, shown, held, all, tree) && Good(e, v, h, tree)
    ensures AllGood(entries[key := e], shown[key := v], held[key := h], all + h, tree)
  {
  }

  ghost function Held(d: Dict): map<string, set<Dict>>
    requires d.Valid()
    reads d, d.Repr
  {
    map k | k in d.entries :: match d.entries[k] case Item(_) => {} case Sub(sub) => sub.Repr
  }

  lemma EntriesAreGood(d: Dict, tree: bool)
    requires d.Valid() && (tree ==> d.Tree())
    ensures AllGood(d.entries, d.View().entries, Held(d), d.Repr, tree)
    ensures Inside(Held(d), d.Repr) && forall k | k in Held(d) :: Held(d)[k] < d.Repr
    ensures tree ==> Separate(Held(d))
  {
    forall k | k in d.entries
      ensures Good(d.entries[k], d.View().entries[k], Held(d)[k], tree) && Held(d)[k] < d.Repr
    {
    }
  }

  /** Where the loop stands, as to values: what is still to be merged is the base's. */
  ghost predicate Partly(base: map<string, Entry>, a: map<string, Value>, b: map<string, Value>, keys: set<string>,
                         entries: map<string, Entry>, held: map<string, set<Dict>>, all: set<Dict>, tree: bool)
    reads all
  {
    && AllGood(entries, PartMerged(a, b, keys), held, all, tree)
    && (forall k | k in keys :: (k in entries <==> k in base) && (k in entries ==> entries[k] == base[k]))
  }

  /** And as to memory: everything held is the base's, the overlay's, or newly made; of trees, each
      dictionary under one key only. */
  ghost predicate Founded<T>(inBase: map<string, set<T>>, inOverlay: map<string, set<T>>, b: set<T>, o: set<T>,
                             held: map<string, set<T>>, made: set<T>, all: set<T>, tree: bool)
  {
    && all <= made + b + o && made !! b + o
    && (tree ==> Separate(held) && Within(held, made, inBase, inOverlay))
  }

  /** What the two dictionaries given hold; with `tree`, as trees that share nothing. */
  ghost predicate Given<T>(inBase: map<string, set<T>>, inOverlay: map<string, set<T>>, b: set<T>, o: set<T>,
                           tree: bool)
  {
    && Inside(inBase, b) && Inside(inOverlay, o)
    && (forall k | k in inOverlay :: inOverlay[k] < o)
    && (tree ==> Separate(inBase) && Separate(inOverlay) && b !! o)
  }

  lemma PartlyGoesOn(base: map<string, Entry>, a: map<string, Value>, b: map<string, Value>, keys: set<string>,
                     entries: map<string, Entry>, held: map<string, set<Dict>>, all: set<Dict>, tree: bool, key: string,
                     e: Entry, v: Value, h: set<Dict>)
    requires Partly(base, a, b, keys, entries, held, all, tree)
    requires key in keys && keys <= b.Keys && v == if key in a then Merge(a[key], b[key]) else b[key]
    requires Good(e, v, h, tree)
    ensures Partly(base, a, b, keys - {key}, entries[key := e], held[key := h], all + h, tree)
  {
    OneKeyMore(a, b, keys, key);
    hide Good, AllGood, PartMerged, Merge;
    OneGoodMore(entries, PartMerged(a, b, keys), held, all, tree, key, e, v, h);
  }

  lemma FoundedGoesOn<T>(inBase: map<string, set<T>>, inOverlay: map<string, set<T>>, b: set<T>, o: set<T>,
                         held: map<string, set<T>>, made: set<T>, all: set<T>, tree: bool, key: string, h: set<T>,
                         more: set<T>)
    requires Given(inBase, inOverlay, b, o, tree) && Founded(inBase, inOverlay, b, o, held, made, all, tree)
    requires more !! made + b + o
    requires h <= more + Part(inBase, key) + Part(inOverlay, key)
    ensures Founded(inBase, inOverlay, b, o, held[key := h], made + more, all + h, tree)
  {
    hide Separate, Within;
    if tree {
      OneHeldMore(held, made, inBase, inOverlay, b, o, key, h, more);
    }
  }

  method Assembled(entries: map<string, Entry>, ghost shown: map<string, Value>, ghost held: map<string, set<Dict>>,
                   ghost all: set<Dict>, ghost tree: bool)
    returns (result: Dict)
    requires AllGood(entries, shown, held, all, tree) && (tree ==> Separate(held))
    ensures fresh(result) && result.Valid() && result.View() == Table(shown) && result.Repr == {result} + all
    ensures tree ==> result.Tree()
  {
    result := new Dict.From(entries, all);
    assert result.View().entries == shown;
  }

  lemma NothingMerged(base: map<string, Value>, overlay: map<string, Value>)
    ensures PartMerged(base, overlay, overlay.Keys) == base
  {
  }

  lemma WithinAtFirst<T>(base: map<string, set<T>>, overlay: map<string, set<T>>)
    ensures Within(base, {}, base, overlay)
  {
  }

  /** The loop over the overlay's keys, in any order. */
  method MergedEntries(base: Dict, overlay: Dict, ghost a: map<string, Value>, ghost b: map<string, Value>,
                       ghost inBase: map<string, set<Dict>>, ghost inOverlay: map<string, set<Dict>>, ghost tree: bool)
    returns (entries: map<string, Entry>, ghost held: map<string, set<Dict>>, ghost all: set<Dict>)
    requires AllGood(base.entries, a, inBase, base.Repr, tree)
    requires AllGood(overlay.entries, b, inOverlay, overlay.Repr, tree)
    requires Given(inBase, inOverlay, base.Repr, overlay.Repr, tree)
    ensures AllGood(entries, PartMerged(a, b, {}), held, all, tree) && (tree ==> Separate(held))
    ensures fresh(all - base.Repr - overlay.Repr)
    decreases overlay.Repr, 1
  {
    entries := base.entries;
    var keys := overlay.entries.Keys;
    ghost var made: set<Dict> := {};
    held, all := inBase, base.Repr;
    NothingMerged(a, b);
    WithinAtFirst(inBase, inOverlay);
    assert Founded(inBase, inOverlay, base.Repr, overlay.Repr, held, made, all, tree);
    hide Good, AllGood, PartMerged, Merge, Founded, Given, Separate;
    while keys != {}
      invariant keys <= b.Keys && fresh(made)
      invariant Partly(base.entries, a, b, keys, entries, held, all, tree)
      invariant Founded(inBase, inOverlay, base.Repr, overlay.Repr, held, made, all, tree)
      decreases keys
    {
      var key :| key in keys;
      var entry;
      ghost var h, more;
      entry, h, more := MergeKey(base, overlay, a, b, inBase, inOverlay, tree, key);
      PartlyGoesOn(base.entries, a, b, keys, entries, held, all, tree, key, entry,
                   if key in a then Merge(a[key], b[key]) else b[key], h);
      FoundedGoesOn(inBase, inOverlay, base.Repr, overlay.Repr, held, made, all, tree, key, h, more);
      held, made, all := held[key := h], made + more, all + h;
      entries := entries[key := entry];
      keys := keys - {key};
    }
  }

  /** What the loop puts under one key. */
  method MergeKey(base: Dict, overlay: Dict, ghost a: map<string, Value>, ghost b: map<string, Value>,
                  ghost inBase: map<string, set<Dict>>, ghost inOverlay: map<string, set<Dict>>, ghost tree: bool,
                  key: string)
    returns (entry: Entry, ghost held: set<Dict>, ghost more: set<Dict>)
    requires AllGood(base.entries, a, inBase, base.Repr, tree)
    requires AllGood(overlay.entries, b, inOverlay, overlay.Repr, tree)
    requires Given(inBase, inOverlay, base.Repr, overlay.Repr, tree) && key in overlay.entries
    ensures Good(entry, if key in a then Merge(a[key], b[key]) else b[key], held, tree)
    ensures fresh(more) && held <= more + Part(inBase, key) + Part(inOverlay, key)
    decreases overlay.Repr, 0
  {
    var value := overlay.entries[key];
    if key in base.entries && base.entries[key].Sub? && value.Sub? {
      hide Dict.Valid, Dict.Tree, Dict.View, Merge;
      var merged := DeepMerge(base.entries[key].dict, value.dict);
      return Sub(merged), merged.Repr, merged.Repr - inBase[key] - inOverlay[key];
    }
    return value, inOverlay[key], {};
  }

  lemma BothAreGiven(base: Dict, overlay: Dict, tree: bool)
    returns (a: map<string, Value>, b: map<string, Value>,
             inBase: map<string, set<Dict>>, inOverlay: map<string, set<Dict>>)
    requires base.Valid() && overlay.Valid()
    requires tree ==> base.Tree() && overlay.Tree() && base.Repr !! overlay.Repr
    ensures AllGood(base.entries, a, inBase, base.Repr, tree)
    ensures AllGood(overlay.entries, b, inOverlay, overlay.Repr, tree)
    ensures Given(inBase, inOverlay, base.Repr, overlay.Repr, tree)
    ensures Table(PartMerged(a, b, {})) == Merge(base.View(), overlay.View())
  {
    EntriesAreGood(base, tree);
    EntriesAreGood(overlay, tree);
    a, b, inBase, inOverlay := base.View().entries, overlay.View().entries, Held(base), Held(overlay);
    MergedAtLast(a, b);
    hide Good, Separate, Inside, AllGood, PartMerged, Merge;
  }

  /** Builds a new dictionary; those given, which may share parts or be one, stay as they are. Parts
      that were not merged are shared with it. Trees that share nothing give a tree. */
  method DeepMerge(base: Dict, overlay: Dict) returns (result: Dict)
    requires base.Valid() && overlay.Valid()
    ensures fresh(result) && result.Valid() && fresh(result.Repr - base.Repr - overlay.Repr)
    ensures result.View() == Merge(base.View(), overlay.View())
    ensures base.Tree() && overlay.Tree() && base.Repr !! overlay.Repr ==> result.Tree()
    decreases overlay.Repr, 2
  {
    hide *;
    ghost var tree := base.Tree() && overlay.Tree() && base.Repr !! overlay.Repr;
    ghost var a, b, inBase, inOverlay := BothAreGiven(base, overlay, tree);
    var entries, held, all := MergedEntries(base, overlay, a, b, inBase, inOverlay, tree);
    result := Assembled(entries, PartMerged(a, b, {}), held, all, tree);
  }
}
