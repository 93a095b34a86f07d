/** Settings as the environment they are printed as: names from key paths, in the order of the keys. */
module ConfigFlatten {
  import opened Wrappers
  import opened ConfigTree
  import opened Text

  /** A dictionary with the order of its keys. */
  datatype Node = Plain(scalar: Scalar) | Mapping(items: Items)

  datatype Items = NoItems | Item(key: string, node: Node, rest: Items)

  function Keys(items: Items): set<string> {
    match items
    case NoItems => {}
    case Item(key, _, rest) => {key} + Keys(rest)
  }

  function Lookup(items: Items, key: string): Node
    requires key in Keys(items)
  {
    if items.key == key then items.node else Lookup(items.rest, key)
  }

  /** No dictionary has a key twice. */
  predicate WellKeyed(node: Node) {
    node.Mapping? ==> WellKeyedItems(node.items)
  }

  predicate WellKeyedItems(items: Items) {
    match items
    case NoItems => true
    case Item(key, node, rest) => key !in Keys(rest) && WellKeyed(node) && WellKeyedItems(rest)
  }

  /** The tree, without the order. */
  function AsTree(node: Node): Value {
    match node
    case Plain(scalar) => Leaf(scalar)
    case Mapping(items) => Table(AsEntries(items))
  }

  function AsEntries(items: Items): (entries: map<string, Value>)
    ensures entries.Keys == Keys(items)
  {
    match items
    case NoItems => map[]
    case Item(key, node, rest) => AsEntries(rest)[key := AsTree(node)]
  }

  // Merging, with the order

  /** `result[key] = node`: in its place, or at the end. */
  function Put(items: Items, key: string, node: Node): Items {
    match items
    case NoItems => Item(key, node, NoItems)
    case Item(k, n, rest) => if k == key then Item(k, node, rest) else Item(k, n, Put(rest, key, node))
  }

  function MergeNodes(base: Node, overlay: Node): Node
    decreases overlay
  {
    if base.Mapping? && overlay.Mapping? then Mapping(MergeItems(base.items, overlay.items)) else overlay
  }

  /** The loop over the overlay's items, from the result so far. */
  function MergeItems(result: Items, overlay: Items): Items
    decreases overlay
  {
    match overlay
    case NoItems => result
    case Item(key, value, rest) =>
      MergeItems(Put(result, key, if key in Keys(result) then MergeNodes(Lookup(result, key), value) else value), rest)
  }

  lemma {:induction false} PutPuts(items: Items, key: string, node: Node)
    requires WellKeyedItems(items) && WellKeyed(node)
    ensures Keys(Put(items, key, node)) == Keys(items) + {key} && WellKeyedItems(Put(items, key, node))
    ensures AsEntries(Put(items, key, node)) == AsEntries(items)[key := AsTree(node)]
  {
    hide WellKeyed, AsTree;
    if items.Item? && items.key != key {
      PutPuts(items.rest, key, node);
    }
  }

  lemma {:induction false} LookupLooksUp(items: Items, key: string)
    requires WellKeyedItems(items) && key in Keys(items)
    ensures AsTree(Lookup(items, key)) == AsEntries(items)[key] && WellKeyed(Lookup(items, key))
  {
    if items.key != key {
      LookupLooksUp(items.rest, key);
    }
  }

  /** Without the order, it is the merge of trees. */
  lemma {:induction false} MergedAsTree(base: Node, overlay: Node)
    requires WellKeyed(base) && WellKeyed(overlay)
    ensures WellKeyed(MergeNodes(base, overlay))
    ensures AsTree(MergeNodes(base, overlay)) == Merge(AsTree(base), AsTree(overlay))
    decreases overlay
  {
    if base.Mapping? && overlay.Mapping? {
      MergedAsEntries(base.items, overlay.items);
    }
  }

  /** One key of the overlay can be merged before the others. */
  lemma MergeOneMore(base: map<string, Value>, rest: map<string, Value>, key: string, value: Value)
    requires key !in rest
    ensures var merged := if key in base then Merge(base[key], value) else value;
      Merge(Table(base[key := merged]), Table(rest)) == Merge(Table(base), Table(rest[key := value]))
  {
    var merged := if key in base then Merge(base[key], value) else value;
    var early, late := Merge(Table(base[key := merged]), Table(rest)), Merge(Table(base), Table(rest[key := value]));
    assert early.entries == late.entries;
  }

  lemma {:induction false} MergedAsEntries(result: Items, overlay: Items)
    requires WellKeyedItems(result) && WellKeyedItems(overlay)
    ensures WellKeyedItems(MergeItems(result, overlay))
    ensures Table(AsEntries(MergeItems(result, overlay))) == Merge(Table(AsEntries(result)), Table(AsEntries(overlay)))
    decreases overlay
  {
    match overlay {
      case NoItems =>
        NothingIsIdentity(Table(AsEntries(result)));
      case Item(key, value, rest) =>
        var node := if key in Keys(result) then MergeNodes(Lookup(result, key), value) else value;
        if key in Keys(result) {
          LookupLooksUp(result, key);
          MergedAsTree(Lookup(result, key), value);
        }
        PutPuts(result, key, node);
        MergedAsEntries(Put(result, key, node), rest);
        MergeOneMore(AsEntries(result), AsEntries(rest), key, AsTree(value));
    }
  }

  // Walking

  function FieldPathToEnvName(fieldPath: string): string {
    Replace(Upper(fieldPath), '.', "_")
  }

  function FormatEnvValue(scalar: Scalar): string {
    match scalar
    case Bool(truth) => if truth then "true" else "false"
    case Int(number) => IntText(number)
    case Str(text) => text
  }

  /** A key below a prefix; an empty prefix adds no dot. */
  function Below(prefix: string, key: string): string {
    if prefix != "" then prefix + "." + key else key
  }

  type Pair = (string, string)

  function Walk(prefix: string, node: Node): seq<Pair>
    decreases node
  {
    match node
    case Plain(scalar) => [(FieldPathToEnvName(prefix), FormatEnvValue(scalar))]
    case Mapping(items) => WalkItems(prefix, items)
  }

  function WalkItems(prefix: string, items: Items): seq<Pair>
    decreases items
  {
    match items
    case NoItems => []
    case Item(key, node, rest) => Walk(Below(prefix, key), node) + WalkItems(prefix, rest)
  }

  function EnvPairs(settings: Node): seq<Pair> {
    Walk("", settings)
  }

  function Followed(items: Items, more: Items): Items {
    match items
    case NoItems => more
    case Item(key, node, rest) => Item(key, node, Followed(rest, more))
  }

  /** Items are printed one after the other, a scalar as its name and its value. */
  lemma {:induction false} PrintedInOrder(prefix: string, items: Items, more: Items)
    ensures WalkItems(prefix, Followed(items, more)) == WalkItems(prefix, items) + WalkItems(prefix, more)
    ensures forall key: string, scalar :: key != "" && prefix == "" ==>
      WalkItems(prefix, Item(key, Plain(scalar), NoItems)) == [(FieldPathToEnvName(key), FormatEnvValue(scalar))]
  {
    hide FieldPathToEnvName, FormatEnvValue;
    match items {
      case NoItems =>
      case Item(key, node, rest) => PrintedInOrder(prefix, rest, more);
    }
    forall key: string, scalar | key != "" && prefix == ""
      ensures WalkItems(prefix, Item(key, Plain(scalar), NoItems)) ==
        [(FieldPathToEnvName(key), FormatEnvValue(scalar))]
    {
      assert Walk(Below(prefix, key), Plain(scalar)) == [(FieldPathToEnvName(key), FormatEnvValue(scalar))];
    }
  }

  /** What the pairs set, read from first to last. */
  function Environment(pairs: seq<Pair>): map<string, string> {
    if pairs == [] then map[]
    else Environment(pairs[..|pairs| - 1])[pairs[|pairs| - 1].0 := pairs[|pairs| - 1].1]
  }

  /** The name a leaf gets from its path. */
  function NameFrom(prefix: string, path: Path): string
    decreases path
  {
    if path == [] then FieldPathToEnvName(prefix) else NameFrom(Below(prefix, path[0]), path[1..])
  }

  function EnvName(path: Path): string {
    NameFrom("", path)
  }

  lemma {:induction false} PairIsLeaf(prefix: string, node: Node, i: nat) returns (path: Path)
    requires WellKeyed(node) && i < |Walk(prefix, node)|
    ensures LeafAt(AsTree(node), path).Some?
    ensures Walk(prefix, node)[i] == (NameFrom(prefix, path), FormatEnvValue(LeafAt(AsTree(node), path).value))
    decreases node
  {
    if node.Plain? {
      path := [];
    } else {
      path := ItemPairIsLeaf(prefix, node.items, i);
    }
  }

  lemma {:induction false} ItemPairIsLeaf(prefix: string, items: Items, i: nat) returns (path: Path)
    requires WellKeyedItems(items) && i < |WalkItems(prefix, items)|
    ensures LeafAt(Table(AsEntries(items)), path).Some?
    ensures WalkItems(prefix, items)[i] ==
      (NameFrom(prefix, path), FormatEnvValue(LeafAt(Table(AsEntries(items)), path).value))
    decreases items
  {
    var first := Walk(Below(prefix, items.key), items.node);
    if i < |first| {
      var below := PairIsLeaf(Below(prefix, items.key), items.node, i);
      path := [items.key] + below;
      assert path[1..] == below;
    } else {
      path := ItemPairIsLeaf(prefix, items.rest, i - |first|);
      assert path != [] && path[0] in Keys(items.rest);
    }
  }

  lemma {:induction false} LeafIsPair(prefix: string, node: Node, path: Path) returns (i: nat)
    requires WellKeyed(node) && LeafAt(AsTree(node), path).Some?
    ensures i < |Walk(prefix, node)|
    ensures Walk(prefix, node)[i] == (NameFrom(prefix, path), FormatEnvValue(LeafAt(AsTree(node), path).value))
    decreases node
  {
    if node.Plain? {
      i := 0;
    } else {
      i := LeafIsItemPair(prefix, node.items, path);
    }
  }

  lemma {:induction false} LeafIsItemPair(prefix: string, items: Items, path: Path) returns (i: nat)
    requires WellKeyedItems(items) && LeafAt(Table(AsEntries(items)), path).Some?
    ensures i < |WalkItems(prefix, items)|
    ensures WalkItems(prefix, items)[i] ==
      (NameFrom(prefix, path), FormatEnvValue(LeafAt(Table(AsEntries(items)), path).value))
    decreases items
  {
    var first := Walk(Below(prefix, items.key), items.node);
    if path[0] == items.key {
      i := LeafIsPair(Below(prefix, items.key), items.node, path[1..]);
    } else {
      i := LeafIsItemPair(prefix, items.rest, path);
      i := |first| + i;
    }
  }

  lemma {:induction false} SetByPair(pairs: seq<Pair>, i: nat)
    requires i < |pairs|
    ensures pairs[i].0 in Environment(pairs)
  {
    if i < |pairs| - 1 {
      SetByPair(pairs[..|pairs| - 1], i);
    }
  }

  lemma {:induction false} PairThatSet(pairs: seq<Pair>, name: string) returns (i: nat)
    requires name in Environment(pairs)
    ensures i < |pairs| && pairs[i] == (name, Environment(pairs)[name])
  {
    if pairs[|pairs| - 1].0 == name {
      i := |pairs| - 1;
    } else {
      i := PairThatSet(pairs[..|pairs| - 1], name);
    }
  }

  // The environment of a merge

  /** No two of these paths get one name. */
  predicate NamesApart(paths: set<Path>) {
    forall p, q | p in paths && q in paths :: EnvName(p) == EnvName(q) ==> p == q
  }

  /** Every name in the environment is a leaf's, with its value. */
  lemma NameHasLeaf(node: Node, name: string) returns (path: Path)
    requires WellKeyed(node) && name in Environment(EnvPairs(node))
    ensures path in Leaves(AsTree(node)) && LeafAt(AsTree(node), path).Some? && EnvName(path) == name
    ensures Environment(EnvPairs(node))[name] == FormatEnvValue(LeafAt(AsTree(node), path).value)
  {
    var i := PairThatSet(EnvPairs(node), name);
    path := PairIsLeaf("", node, i);
    LeavesAreWhereLeavesAre(AsTree(node), path);
  }

  /** With names apart, every leaf is in the environment, with its own value. */
  lemma LeafIsInEnvironment(node: Node, paths: set<Path>, path: Path)
    requires WellKeyed(node) && NamesApart(paths) && Leaves(AsTree(node)) <= paths
    requires LeafAt(AsTree(node), path).Some?
    ensures path in Leaves(AsTree(node)) && EnvName(path) in Environment(EnvPairs(node))
    ensures Environment(EnvPairs(node))[EnvName(path)] == FormatEnvValue(LeafAt(AsTree(node), path).value)
  {
    LeavesAreWhereLeavesAre(AsTree(node), path);
    var i := LeafIsPair("", node, path);
    SetByPair(EnvPairs(node), i);
    var other := NameHasLeaf(node, EnvName(path));
    assert other == path;
  }

  /** A merge has no leaves but those of the two trees. */
  lemma LeavesOfMerge(base: Value, overlay: Value, path: Path)
    requires path in Leaves(Merge(base, overlay))
    ensures path in Leaves(base) + Leaves(overlay)
  {
    LeafFromEither(base, overlay, path);
    LeavesAreWhereLeavesAre(Merge(base, overlay), path);
    LeavesAreWhereLeavesAre(base, path);
    LeavesAreWhereLeavesAre(overlay, path);
  }

  lemma {:induction false} LeafFromEither(base: Value, overlay: Value, path: Path)
    ensures LeafAt(Merge(base, overlay), path).Some? ==> LeafAt(base, path).Some? || LeafAt(overlay, path).Some?
    decreases path
  {
    if base.Table? && overlay.Table? && path != [] && path[0] in base.entries && path[0] in overlay.entries {
      LeafFromEither(base.entries[path[0]], overlay.entries[path[0]], path[1..]);
    }
  }

  /** Where names are apart, printing a merge sets what printing the base and then the overlay
      sets, exactly if no scalar replaces a table with leaves and no table a scalar. */
  lemma EnvironmentsOverrideExactlyIf(base: Node, overlay: Node)
    requires WellKeyed(base) && WellKeyed(overlay)
    requires NamesApart(Leaves(AsTree(base)) + Leaves(AsTree(overlay)))
    ensures Overlays(AsTree(base), AsTree(overlay)) <==>
      Environment(EnvPairs(MergeNodes(base, overlay))) == Environment(EnvPairs(base)) + Environment(EnvPairs(overlay))
  {
    var a, b, m := AsTree(base), AsTree(overlay), AsTree(MergeNodes(base, overlay));
    MergedAsTree(base, overlay);
    forall path | path in Leaves(m) ensures path in Leaves(a) + Leaves(b) {
      LeavesOfMerge(a, b, path);
    }
    hide Walk, Merge, Leaves, LeafAt, Environment, AsTree, EnvName, Overlays;
    if Overlays(a, b) {
      OverlaidEnvironments(base, overlay);
    } else {
      var path := LeafBetrays(a, b);
      LostNameShows(base, overlay, path);
    }
  }

  lemma LostNameShows(base: Node, overlay: Node, path: Path)
    requires WellKeyed(base) && WellKeyed(overlay)
    requires NamesApart(Leaves(AsTree(base)) + Leaves(AsTree(overlay)))
    requires WellKeyed(MergeNodes(base, overlay))
    requires Leaves(AsTree(MergeNodes(base, overlay))) <= Leaves(AsTree(base)) + Leaves(AsTree(overlay))
    requires LeafAt(AsTree(base), path).Some? && LeafAt(AsTree(MergeNodes(base, overlay)), path).None?
    ensures EnvName(path) in Environment(EnvPairs(base))
    ensures EnvName(path) !in Environment(EnvPairs(MergeNodes(base, overlay)))
  {
    var paths := Leaves(AsTree(base)) + Leaves(AsTree(overlay));
    LeafIsInEnvironment(base, paths, path);
    if EnvName(path) in Environment(EnvPairs(MergeNodes(base, overlay))) {
      var other := NameHasLeaf(MergeNodes(base, overlay), EnvName(path));
    }
  }

  lemma OverlaidEnvironments(base: Node, overlay: Node)
    requires WellKeyed(base) && WellKeyed(overlay)
    requires NamesApart(Leaves(AsTree(base)) + Leaves(AsTree(overlay)))
    requires WellKeyed(MergeNodes(base, overlay))
    requires AsTree(MergeNodes(base, overlay)) == Merge(AsTree(base), AsTree(overlay))
    requires Leaves(AsTree(MergeNodes(base, overlay))) <= Leaves(AsTree(base)) + Leaves(AsTree(overlay))
    requires Overlays(AsTree(base), AsTree(overlay))
    ensures Environment(EnvPairs(MergeNodes(base, overlay))) ==
      Environment(EnvPairs(base)) + Environment(EnvPairs(overlay))
  {
    hide *;
    var merged := Environment(EnvPairs(MergeNodes(base, overlay)));
    var overridden := Environment(EnvPairs(base)) + Environment(EnvPairs(overlay));
    forall name
      ensures name in merged <==> name in overridden
      ensures name in merged ==> merged[name] == overridden[name]
    {
      if name in merged {
        var path := NameHasLeaf(MergeNodes(base, overlay), name);
        OverlaidLeaf(base, overlay, path);
      } else if name in Environment(EnvPairs(overlay)) {
        var path := NameHasLeaf(overlay, name);
        OverlaidLeaf(base, overlay, path);
      } else if name in Environment(EnvPairs(base)) {
        var path := NameHasLeaf(base, name);
        OverlaidLeaf(base, overlay, path);
      }
    }
  }

  /** The leaf at a path, in all three environments. */
  lemma OverlaidLeaf(base: Node, overlay: Node, path: Path)
    requires WellKeyed(base) && WellKeyed(overlay)
    requires NamesApart(Leaves(AsTree(base)) + Leaves(AsTree(overlay)))
    requires WellKeyed(MergeNodes(base, overlay))
    requires AsTree(MergeNodes(base, overlay)) == Merge(AsTree(base), AsTree(overlay))
    requires Leaves(AsTree(MergeNodes(base, overlay))) <= Leaves(AsTree(base)) + Leaves(AsTree(overlay))
    requires Overlays(AsTree(base), AsTree(overlay))
    requires path in Leaves(AsTree(base)) + Leaves(AsTree(overlay))
    ensures var name, merged := EnvName(path), Environment(EnvPairs(MergeNodes(base, overlay)));
      var overridden := Environment(EnvPairs(base)) + Environment(EnvPairs(overlay));
      name in merged && name in overridden && merged[name] == overridden[name]
  {
    var paths := Leaves(AsTree(base)) + Leaves(AsTree(overlay));
    LeavesAreWhereLeavesAre(AsTree(base), path);
    LeavesAreWhereLeavesAre(AsTree(overlay), path);
    LeafOfMerge(AsTree(base), AsTree(overlay), path);
    hide Merge, Leaves, LeafAt, Environment, AsTree, EnvName, Overlays, MergeNodes;
    LeafIsInEnvironment(MergeNodes(base, overlay), paths, path);
    if LeafAt(AsTree(overlay), path).Some? {
      LeafIsInEnvironment(overlay, paths, path);
    } else {
      LeafIsInEnvironment(base, paths, path);
      if EnvName(path) in Environment(EnvPairs(overlay)) {
        var other := NameHasLeaf(overlay, EnvName(path));
      }
    }
  }

  // Why names have to be apart

  /** A table "a" with a key "b", and what follows it. */
  function Sample(number: int, rest: Items): Node {
    Mapping(Item("a", Mapping(Item("b", Plain(Int(number)), NoItems)), rest))
  }

  lemma OneNameForTwoPaths()
    ensures FieldPathToEnvName("a.b") == FieldPathToEnvName("a_b") == "A_B"
  {
    assert "a.b"[1..] == ".b" && "a_b"[1..] == "_b" && ".b"[1..] == "_b"[1..] == "b" && "b"[1..] == "";
    assert Upper("b") == "B" && Upper(".b") == ".B" && Upper("_b") == "_B";
    assert Upper("a.b") == "A.B" && Upper("a_b") == "A_B";
    assert "A.B"[1..] == ".B" && "A_B"[1..] == "_B" && ".B"[1..] == "_B"[1..] == "B" && "B"[1..] == "";
    assert Replace("B", '.', "_") == "B" && Replace(".B", '.', "_") == "_B" && Replace("_B", '.', "_") == "_B";
  }

  lemma SamplePairs(number: int, rest: Items)
    ensures EnvPairs(Sample(number, rest)) == [("A_B", IntText(number))] + WalkItems("", rest)
  {
    OneNameForTwoPaths();
    hide FieldPathToEnvName, IntText;
    var inner := Item("b", Plain(Int(number)), NoItems);
    assert Below("", "a") == "a" && Below("a", "b") == "a" + "." + "b" == "a.b";
    assert Walk("a.b", Plain(Int(number))) == [("A_B", IntText(number))];
    assert WalkItems("a", NoItems) == [];
    assert WalkItems("a", inner) == [("A_B", IntText(number))];
    assert Walk("a", Mapping(inner)) == WalkItems("a", inner);
    assert WalkItems("", Item("a", Mapping(inner), rest)) == Walk("a", Mapping(inner)) + WalkItems("", rest);
  }

  lemma SamplesMerge(rest: Items)
    requires rest == Item("a_b", Plain(Int(5)), NoItems)
    ensures MergeNodes(Sample(1, rest), Sample(2, NoItems)) == Sample(2, rest)
    ensures WellKeyed(Sample(1, rest)) && WellKeyed(Sample(2, NoItems))
    ensures Overlays(AsTree(Sample(1, rest)), AsTree(Sample(2, NoItems)))
  {
    var base, overlay := Sample(1, rest), Sample(2, NoItems);
    assert Put(base.items, "a", overlay.items.node) == Item("a", overlay.items.node, rest);
    assert MergeNodes(base.items.node, overlay.items.node) == overlay.items.node;
  }

  lemma EnvironmentOfOne(value: string)
    ensures Environment([("A_B", value)]) == map["A_B" := value]
  {
    var none: seq<Pair> := [];
    assert [("A_B", value)][..0] == none;
  }

  lemma EnvironmentOfTwo(first: string, second: string)
    ensures Environment([("A_B", first), ("A_B", second)]) == map["A_B" := second]
  {
    assert [("A_B", first), ("A_B", second)][..1] == [("A_B", first)];
    EnvironmentOfOne(first);
  }

  lemma RestPairs(rest: Items)
    requires rest == Item("a_b", Plain(Int(5)), NoItems)
    ensures WalkItems("", rest) == [("A_B", "5")] && WalkItems("", NoItems) == []
  {
    OneNameForTwoPaths();
    hide FieldPathToEnvName;
    assert IntText(5) == "5" && Below("", "a_b") == "a_b";
    assert Walk("a_b", rest.node) == [("A_B", "5")];
  }

  /** Dictionaries that are no settings can have two paths with one name: a table's key and, after
      the table, a key "a_b". The merge prints the base's value last, although the overlay sets the
      name. */
  lemma CollidingNamesDiffer()
    ensures
      var base := Sample(1, Item("a_b", Plain(Int(5)), NoItems));
      var overlay := Sample(2, NoItems);
      && WellKeyed(base) && WellKeyed(overlay) && Overlays(AsTree(base), AsTree(overlay))
      && EnvPairs(MergeNodes(base, overlay)) == [("A_B", "2"), ("A_B", "5")]
      && Environment(EnvPairs(MergeNodes(base, overlay))) == map["A_B" := "5"]
      && Environment(EnvPairs(base)) + Environment(EnvPairs(overlay)) == map["A_B" := "2"]
  {
    var rest := Item("a_b", Plain(Int(5)), NoItems);
    assert IntText(2) == "2" && IntText(1) == "1";
    hide *;
    SamplesMerge(rest);
    RestPairs(rest);
    SamplePairs(1, rest);
    SamplePairs(2, rest);
    SamplePairs(2, NoItems);
    EnvironmentOfTwo("1", "5");
    EnvironmentOfTwo("2", "5");
    EnvironmentOfOne("2");
  }
}
