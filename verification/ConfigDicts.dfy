/** Configuration as nested dictionaries in memory, merged into new ones and changed in place. */
module ConfigDicts {
  import opened Wrappers
  import opened ConfigTree
  import opened ConfigOverrides
  import Text

  datatype Entry = Item(scalar: Scalar) | Sub(dict: Dict)

  class Dict {
    var entries: map<string, Entry>
    ghost var Repr: set<Dict>

    /** No dictionary holds itself; two keys may share one. */
    ghost predicate Valid()
      reads this, Repr
      decreases Repr
    {
      && this in Repr
      && forall key | key in entries && entries[key].Sub? ::
        var d := entries[key].dict;
        d in Repr && d.Repr < Repr && this !in d.Repr && d.Valid()
    }

    /** No dictionary is reached in two ways. */
    ghost predicate Tree()
      reads this, Repr
      decreases Repr
    {
      && Valid()
      && (forall key | key in entries && entries[key].Sub? :: entries[key].dict.Tree())
      && (forall key, other | key in entries && other in entries && key != other ::
            entries[key].Sub? && entries[other].Sub? ==> entries[key].dict.Repr !! entries[other].dict.Repr)
    }

    /** The tree it shows. */
    ghost function View(): Value
      requires Valid()
      reads this, Repr
      decreases Repr
    {
      Table(map key | key in entries ::
        match entries[key]
        case Item(scalar) => Leaf(scalar)
        case Sub(d) => d.View())
    }

    constructor ()
      ensures Tree() && View() == NOTHING && Repr == {this}
    {
      entries := map[];
      Repr := {this};
    }

    constructor From(entries: map<string, Entry>, ghost below: set<Dict>)
      requires forall key | key in entries && entries[key].Sub? ::
        entries[key].dict.Valid() && entries[key].dict.Repr <= below
      ensures Valid() && this.entries == entries && Repr == {this} + below
    {
      this.entries := entries;
      Repr := {this} + below;
    }
  }

  // Walking down and setting a leaf

  /** The dictionary that a path of keys leads to. */
  ghost predicate Leads(d: Dict, path: Path, target: Dict)
    requires d.Valid()
    reads d, d.Repr
    decreases path
  {
    target in d.Repr &&
    if path == [] then d == target
    else path[0] in d.entries && d.entries[path[0]].Sub? && Leads(d.entries[path[0]].dict, path[1..], target)
  }

  lemma {:induction false} LeadsInside(d: Dict, path: Path, target: Dict)
    requires d.Valid() && Leads(d, path, target)
    ensures target in d.Repr && target.Valid() && target.Repr <= d.Repr
    decreases path
  {
    if path != [] {
      LeadsInside(d.entries[path[0]].dict, path[1..], target);
    }
  }

  lemma {:induction false} LeadsFurther(d: Dict, path: Path, target: Dict, key: string)
    requires d.Valid() && Leads(d, path, target)
    requires key in target.entries && target.entries[key].Sub?
    ensures Leads(d, path + [key], target.entries[key].dict)
    decreases path
  {
    if path != [] {
      LeadsFurther(d.entries[path[0]].dict, path[1..], target, key);
      assert (path + [key])[1..] == path[1..] + [key];
    }
  }

  /** Whether the sections of a path are there shows at the dictionary reached on the way. */
  lemma {:induction false} SectionsFrom(d: Dict, path: Path, target: Dict, rest: Path)
    requires d.Valid() && Leads(d, path, target) && target.Valid() && rest != []
    ensures HasSections(d.View(), path + rest) <==> HasSections(target.View(), rest)
    decreases path
  {
    if path == [] {
      assert path + rest == rest;
    } else {
      var child := d.entries[path[0]].dict;
      SectionsFrom(child, path[1..], target, rest);
      assert (path + rest)[1..] == path[1..] + rest;
      assert d.View().entries[path[0]] == child.View();
    }
  }

  /** A dictionary of which nothing changed is what it was. */
  twostate predicate Unmoved(d: Dict)
    reads d, d.Repr
  {
    d.Repr == old(d.Repr) && old(d.Tree()) && d.Tree() && d.View() == old(d.View())
  }

  twostate lemma UnchangedIsUnmoved(d: Dict)
    requires old(d.Tree()) && forall o | o in old(d.Repr) :: unchanged(o)
    ensures Unmoved(d)
  {
  }

  /** One entry of a dictionary is new, and the other sub-dictionaries are what they were. */
  twostate lemma EntryIsNew(d: Dict, new key: string)
    requires old(d.Valid()) && d.Repr == old(d.Repr) && key in d.entries && d.Valid()
    requires forall k | k != key :: k in d.entries <==> k in old(d.entries)
    requires forall k | k in d.entries && k != key :: d.entries[k] == old(d.entries[k])
    requires forall k | k in d.entries && k != key && d.entries[k].Sub? :: Unmoved(d.entries[k].dict)
    ensures d.View().entries.Keys == old(d.View()).entries.Keys + {key}
    ensures forall k | k in old(d.View()).entries && k != key :: d.View().entries[k] == old(d.View()).entries[k]
  {
    forall k | k in old(d.entries) && k != key ensures d.View().entries[k] == old(d.View()).entries[k] {
      assert k in d.entries;
    }
  }

  twostate lemma LeafIsSetHere(d: Dict, new key: string, new scalar: Scalar)
    requires old(d.Tree())
    requires forall o | o in old(d.Repr) && o != d :: unchanged(o)
    requires d.Repr == old(d.Repr)
    requires d.entries == old(d.entries)[key := Item(scalar)]
    ensures d.Tree() && d.View() == Table(old(d.View()).entries[key := Leaf(scalar)])
  {
    forall k | k in d.entries && k != key && d.entries[k].Sub? ensures Unmoved(d.entries[k].dict) {
      UnchangedIsUnmoved(d.entries[k].dict);
    }
    EntryIsNew(d, key);
    assert d.View().entries == old(d.View()).entries[key := Leaf(scalar)];
  }

  twostate lemma LeafIsSetBelow(d: Dict, new key: string)
    requires old(d.Tree()) && unchanged(d) && key in d.entries && d.entries[key].Sub?
    requires var child := d.entries[key].dict; child.Repr == old(child.Repr) && child.Tree()
    requires forall o | o in old(d.Repr) && o !in old(d.entries[key].dict.Repr) :: unchanged(o)
    ensures d.Tree() && d.View() == Table(old(d.View()).entries[key := d.entries[key].dict.View()])
  {
    forall k | k in d.entries && k != key && d.entries[k].Sub? ensures Unmoved(d.entries[k].dict) {
      assert old(d.entries[k].dict.Repr) !! old(d.entries[key].dict.Repr);
      UnchangedIsUnmoved(d.entries[k].dict);
    }
    EntryIsNew(d, key);
    assert d.View().entries == old(d.View()).entries[key := d.entries[key].dict.View()];
  }

  /** Setting a leaf in the dictionary at the end of a path sets it in the whole tree, and keeps
      it a tree. */
  twostate lemma {:induction false} LeafIsSet(d: Dict, new path: Path, new target: Dict, new key: string,
                                              new scalar: Scalar)
    requires old(allocated(target)) && old(d.Tree()) && old(Leads(d, path, target))
    requires forall o | o in old(d.Repr) && o != target :: unchanged(o)
    requires target.Repr == old(target.Repr) && target.entries == old(target.entries)[key := Item(scalar)]
    ensures d.Repr == old(d.Repr) && d.Tree()
    ensures SetPath(old(d.View()), path + [key], scalar) == Some(d.View())
    decreases path
  {
    if path == [] {
      LeafIsSetHere(d, key, scalar);
      assert path + [key] == [key];
    } else {
      var child := d.entries[path[0]].dict;
      assert target in old(child.Repr) && d != target;
      LeafIsSet(child, path[1..], target, key, scalar);
      LeafIsSetBelow(d, path[0]);
      assert (path + [key])[1..] == path[1..] + [key];
    }
  }

  datatype ConfigError = MissingKey | NotATable | NoPostgresTable | NoValkeyTable | NoComposeUrl

  /** One step down: the sections are all there only if the next one is, and then it leads on. */
  lemma StepDown(data: Dict, parts: Path, i: nat, target: Dict)
    requires data.Valid() && i < |parts| && Leads(data, parts[..i], target)
    ensures i + 1 < |parts| && !(parts[i] in target.entries && target.entries[parts[i]].Sub?) ==>
      !HasSections(data.View(), parts)
    ensures i + 1 < |parts| && parts[i] in target.entries && target.entries[parts[i]].Sub? ==>
      Leads(data, parts[..i + 1], target.entries[parts[i]].dict)
    ensures i + 1 == |parts| ==> HasSections(data.View(), parts)
  {
    LeadsInside(data, parts[..i], target);
    SectionsFrom(data, parts[..i], target, parts[i..]);
    assert parts[..i] + parts[i..] == parts;
    if i + 1 < |parts| && parts[i] in target.entries {
      match target.entries[parts[i]] {
        case Item(scalar) =>
          assert target.View().entries[parts[i]] == Leaf(scalar);
        case Sub(_) =>
          LeadsFurther(data, parts[..i], target, parts[i]);
          assert parts[..i + 1] == parts[..i] + [parts[i]];
      }
    }
  }

  /** The inner loop: down along the sections of a path. */
  method Descend(data: Dict, parts: Path) returns (r: Result<Dict, ConfigError>)
    requires data.Valid() && parts != []
    ensures r.Ok? <==> HasSections(data.View(), parts)
    ensures r.Ok? ==> Leads(data, parts[..|parts| - 1], r.value)
  {
    var target := data;
    hide HasSections;
    for i := 0 to |parts| - 1
      invariant Leads(data, parts[..i], target)
    {
      var part := parts[i];
      StepDown(data, parts, i, target);
      if part !in target.entries {
        return Err(MissingKey);
      }
      if target.entries[part].Item? {
        return Err(NotATable);
      }
      target := target.entries[part].dict;
    }
    StepDown(data, parts, |parts| - 1, target);
    return Ok(target);
  }

  /** The assignment at the end of a path, and what it does to the whole tree. */
  method Assign(data: Dict, ghost path: Path, target: Dict, key: string, scalar: Scalar)
    requires data.Tree() && Leads(data, path, target)
    modifies target`entries
    ensures data.Tree() && data.Repr == old(data.Repr)
    ensures target.entries == old(target.entries)[key := Item(scalar)]
    ensures SetPath(old(data.View()), path + [key], scalar) == Some(data.View())
  {
    hide SetPath;
    LeadsInside(data, path, target);
    target.entries := target.entries[key := Item(scalar)];
    LeafIsSet(data, path, target, key, scalar);
  }

  method SetLeaf(data: Dict, parts: Path, scalar: Scalar) returns (r: Result<(), ConfigError>)
    requires data.Tree() && parts != []
    modifies data.Repr
    ensures data.Tree() && data.Repr == old(data.Repr)
    ensures match SetPath(old(data.View()), parts, scalar)
      case Some(tree) => r.Ok? && data.View() == tree
      case None => r.Err? && data.View() == old(data.View())
  {
    SetPathIsMerge(data.View(), parts, scalar);
    hide *;
    var found := Descend(data, parts);
    if found.Err? {
      return Err(found.error);
    }
    var last := |parts| - 1;
    LeadsInside(data, parts[..last], found.value);
    assert parts[..last] + [parts[last]] == parts;
    Assign(data, parts[..last], found.value, parts[last], scalar);
    return Ok(());
  }

  /** What overrides given as dotted paths mean. */
  function Parsed(overrides: seq<(string, Scalar)>): (parsed: seq<Override>)
    ensures |parsed| == |overrides| && Usable(parsed)
    ensures forall i | 0 <= i < |parsed| ::
      parsed[i] == Override(Text.Split('.', overrides[i].0), overrides[i].1)
  {
    if overrides == [] then []
    else [Override(Text.Split('.', overrides[0].0), overrides[0].1)] + Parsed(overrides[1..])
  }

  lemma ApplyAllSteps(t: Value, overrides: seq<Override>, i: nat)
    requires Usable(overrides) && i < |overrides|
    ensures Usable(overrides[i..]) && Usable(overrides[i + 1..])
    ensures ApplyAll(t, overrides[i..]) ==
      match SetPath(t, overrides[i].path, overrides[i].scalar)
      case None => None
      case Some(t') => ApplyAll(t', overrides[i + 1..])
  {
    hide SetPath;
    assert overrides[i..][1..] == overrides[i + 1..];
  }

  /** All overrides in place amount to one merge; they fail when a section is missing, or one
      override has put a scalar where a later one needs a section. */
  method ApplyDottedOverrides(data: Dict, overrides: seq<(string, Scalar)>) returns (r: Result<(), ConfigError>)
    requires data.Tree()
    modifies data.Repr
    ensures data.Tree() && data.Repr == old(data.Repr)
    ensures r.Ok? <==> Applicable(old(data.View()), Parsed(overrides))
    ensures r.Ok? ==> data.View() == Merge(old(data.View()), NestAll(Parsed(overrides)))
  {
    ghost var all := Parsed(overrides);
    OverridesAreOneMerge(data.View(), all);
    hide SetPath, Merge, NestAll, Applicable, ApplyAll, Parsed;
    assert all[0..] == all;
    for i := 0 to |overrides|
      invariant data.Tree() && data.Repr == old(data.Repr)
      invariant Usable(all[i..]) && ApplyAll(data.View(), all[i..]) == ApplyAll(old(data.View()), all)
    {
      ApplyAllSteps(data.View(), all, i);
      var parts := Text.Split('.', overrides[i].0);
      assert all[i] == Override(parts, overrides[i].1);
      r := SetLeaf(data, parts, overrides[i].1);
      if r.Err? {
        return r;
      }
    }
    EmptyApplies(data.View(), all[|overrides|..]);
    return Ok(());
  }

  lemma EmptyApplies(t: Value, none: seq<Override>)
    requires none == []
    ensures ApplyAll(t, none) == Some(t)
  {
  }

  // The compose addresses

  /** The address a section gives for use inside the container network: text, and not blank. */
  function ComposeUrl(section: Value): Option<Scalar> {
    if section.Table? && "compose_url" in section.entries then
      match section.entries["compose_url"]
      case Leaf(Str(raw)) => if Text.Strip(raw) == "" then None else Some(Str(raw))
      case _ => None
    else None
  }

  method RequireComposeUrl(section: Dict) returns (r: Result<Scalar, ConfigError>)
    requires section.Valid()
    ensures r == match ComposeUrl(section.View()) case Some(url) => Ok(url) case None => Err(NoComposeUrl)
  {
    if "compose_url" in section.entries {
      match section.entries["compose_url"] {
        case Item(Str(raw)) =>
          if Text.Strip(raw) != "" {
            return Ok(Str(raw));
          }
        case _ =>
      }
    }
    return Err(NoComposeUrl);
  }

  predicate SectionAt(t: Value, key: string) {
    t.Table? && key in t.entries && t.entries[key].Table?
  }

  predicate Composable(t: Value) {
    && SectionAt(t, "postgres") && ComposeUrl(t.entries["postgres"]).Some?
    && SectionAt(t, "valkey") && ComposeUrl(t.entries["valkey"]).Some?
  }

  /** The two overrides that switch a configuration to the addresses inside the network. */
  function ComposeOverrides(t: Value): seq<Override>
    requires Composable(t)
  {
    [Override(["postgres", "url"], ComposeUrl(t.entries["postgres"]).value),
     Override(["valkey", "url"], ComposeUrl(t.entries["valkey"]).value)]
  }

  lemma TwoSets(t: Value, p: Path, v: Scalar, q: Path, w: Scalar)
    requires p != [] && q != []
    ensures ApplyAll(t, [Override(p, v), Override(q, w)]) == Then(SetPath(t, p, v), q, w)
  {
    hide SetPath;
    var none: seq<Override> := [];
    assert [Override(p, v), Override(q, w)][1..] == [Override(q, w)] && [Override(q, w)][1..] == none;
    var first := SetPath(t, p, v);
    if first.Some? && SetPath(first.value, q, w).Some? {
      EmptyApplies(SetPath(first.value, q, w).value, none);
    }
    assert first.Some? ==> ApplyAll(first.value, [Override(q, w)]) == SetPath(first.value, q, w);
  }

  /** One section's own "url" is set from its "compose_url". */
  method SetUrl(data: Dict, key: string, section: Dict) returns (r: Result<(), ConfigError>)
    requires data.Tree() && key in data.entries && data.entries[key] == Sub(section)
    modifies data.Repr
    ensures data.Tree() && data.Repr == old(data.Repr) && data.entries == old(data.entries)
    ensures SectionAt(old(data.View()), key)
    ensures match ComposeUrl(old(data.View()).entries[key])
      case None => r == Err(NoComposeUrl) && data.View() == old(data.View())
      case Some(url) => r == Ok(()) && SetPath(old(data.View()), [key, "url"], url) == Some(data.View())
  {
    assert data.View().entries[key] == section.View();
    var none: Path := [];
    assert [key][1..] == none;
    assert Leads(section, none, section);
    assert Leads(data, [key], section);
    var url := RequireComposeUrl(section);
    if url.Err? {
      return Err(url.error);
    }
    hide SetPath, ComposeUrl, Leads;
    assert [key] + ["url"] == [key, "url"];
    Assign(data, [key], section, "url", url.value);
    return Ok(());
  }

  /** The address for use inside the network that a section gives. */
  predicate Gives(t: Value, section: string, url: string) {
    At(t, [section, "compose_url"]) == Some(Leaf(Str(url))) && !Text.AllBlank(url)
  }

  lemma AtTwoKeys(t: Value, section: string, key: string)
    ensures At(t, [section, key]) ==
      if t.Table? && section in t.entries && t.entries[section].Table? && key in t.entries[section].entries
      then Some(t.entries[section].entries[key])
      else None
  {
    assert [section, key][1..] == [key] && [key][1..] == [];
    if t.Table? && section in t.entries && t.entries[section].Table? && key in t.entries[section].entries {
      assert At(t.entries[section].entries[key], []) == Some(t.entries[section].entries[key]);
    }
    assert t.Table? && section in t.entries ==> At(t, [section, key]) == At(t.entries[section], [key]);
  }

  lemma ComposeUrlIsGiven(t: Value, section: string, url: string)
    ensures Gives(t, section, url) <==>
      t.Table? && section in t.entries && ComposeUrl(t.entries[section]) == Some(Str(url))
  {
    AtTwoKeys(t, section, "compose_url");
    Text.BlankIsStripped(url);
    hide Text.Strip, At;
  }

  lemma UrlsAreApart()
    ensures Apart(["valkey", "url"], ["postgres", "url"])
    ensures !Under(["postgres", "url"], ["valkey", "url"])
  {
    assert ["valkey", "url"][0] != ["postgres", "url"][0];
  }

  lemma ComposedIsApplied(t: Value)
    requires Composable(t)
    ensures ApplyAll(t, ComposeOverrides(t)) == Some(Merge(t, NestAll(ComposeOverrides(t))))
  {
    assert ["postgres", "url"][1..] == ["url"] && ["valkey", "url"][1..] == ["url"];
    assert HasSections(t, ["postgres", "url"]) && HasSections(t, ["valkey", "url"]);
    UrlsAreApart();
    hide ComposeUrl, HasSections, Under, Apart, Merge, NestAll, ApplyAll;
    OverridesAreOneMerge(t, ComposeOverrides(t));
  }

  lemma OverridesAreSeen(t: Value, overrides: seq<Override>, path: Path)
    requires |overrides| == 2 && Usable(overrides) && Apart(overrides[1].path, overrides[0].path)
    requires ApplyAll(t, overrides).Some?
    ensures var after := ApplyAll(t, overrides).value;
      && At(after, overrides[0].path) == Some(Leaf(overrides[0].scalar))
      && At(after, overrides[1].path) == Some(Leaf(overrides[1].scalar))
      && (Apart(overrides[0].path, path) && Apart(overrides[1].path, path) ==> At(after, path) == At(t, path))
  {
    hide Apart, ApplyAll;
    OverrideHolds(t, overrides, 0);
    OverrideHolds(t, overrides, 1);
    if Apart(overrides[0].path, path) && Apart(overrides[1].path, path) {
      OverridesTouchNothingElse(t, overrides, path);
    }
  }

  /** With an address in both sections, each is where the program looks for it afterwards, and
      everything else stays. */
  lemma AddressesAreComposed(t: Value, path: Path)
    ensures Composable(t) <==> (exists url :: Gives(t, "postgres", url)) && (exists url :: Gives(t, "valkey", url))
    ensures Composable(t) ==>
      var after := Merge(t, NestAll(ComposeOverrides(t)));
      && At(after, ["postgres", "url"]) == At(t, ["postgres", "compose_url"])
      && At(after, ["valkey", "url"]) == At(t, ["valkey", "compose_url"])
      && (Apart(["postgres", "url"], path) && Apart(["valkey", "url"], path) ==> At(after, path) == At(t, path))
  {
    forall section: string, url: string
      ensures Gives(t, section, url) <==>
        t.Table? && section in t.entries && ComposeUrl(t.entries[section]) == Some(Str(url))
    {
      ComposeUrlIsGiven(t, section, url);
    }
    if Composable(t) {
      var overrides := ComposeOverrides(t);
      var p, v := overrides[0].scalar.text, overrides[1].scalar.text;
      assert Gives(t, "postgres", p) && Gives(t, "valkey", v);
      assert At(t, ["postgres", "compose_url"]) == Some(Leaf(Str(p)));
      assert At(t, ["valkey", "compose_url"]) == Some(Leaf(Str(v)));
      UrlsAreApart();
      ComposedIsApplied(t);
      hide *;
      OverridesAreSeen(t, overrides, path);
    }
  }

  /** It succeeds exactly when both sections give an address, and then is one merge. */
  method ApplyComposeUrls(data: Dict) returns (r: Result<(), ConfigError>)
    requires data.Tree()
    modifies data.Repr
    ensures data.Tree() && data.Repr == old(data.Repr)
    ensures r.Ok? <==> Composable(old(data.View()))
    ensures r.Ok? ==> data.View() == Merge(old(data.View()), NestAll(ComposeOverrides(old(data.View()))))
  {
    ghost var before := data.View();
    if "postgres" !in data.entries || data.entries["postgres"].Item? {
      return Err(NoPostgresTable);
    }
    if "valkey" !in data.entries || data.entries["valkey"].Item? {
      return Err(NoValkeyTable);
    }
    var postgres, valkey := data.entries["postgres"].dict, data.entries["valkey"].dict;
    hide SetPath, Merge, Nest, NestAll, ComposeUrl;
    r := SetUrl(data, "postgres", postgres);
    if r.Err? {
      return r;
    }
    ghost var between := data.View();
    OtherSectionStays(before, "postgres", ComposeUrl(before.entries["postgres"]).value, "valkey");
    r := SetUrl(data, "valkey", valkey);
    if r.Ok? {
      ComposedIsMerge(before, between, data.View());
    }
  }

  lemma ComposedIsMerge(before: Value, between: Value, after: Value)
    requires Composable(before)
    requires SetPath(before, ["postgres", "url"], ComposeUrl(before.entries["postgres"]).value) == Some(between)
    requires SetPath(between, ["valkey", "url"], ComposeUrl(before.entries["valkey"]).value) == Some(after)
    ensures after == Merge(before, NestAll(ComposeOverrides(before)))
  {
    var p, q := ["postgres", "url"], ["valkey", "url"];
    var v, w := ComposeUrl(before.entries["postgres"]).value, ComposeUrl(before.entries["valkey"]).value;
    TwoSets(before, p, v, q, w);
    hide SetPath, Merge, Nest, NestAll, ComposeUrl;
    OverridesAreOneMerge(before, ComposeOverrides(before));
  }

  lemma OtherSectionStays(t: Value, key: string, url: Scalar, other: string)
    requires SectionAt(t, key) && other != key
    ensures SetPath(t, [key, "url"], url).Some?
    ensures var after := SetPath(t, [key, "url"], url).value;
      && after.Table? && (other in after.entries <==> other in t.entries)
      && (other in t.entries ==> after.entries[other] == t.entries[other])
  {
  }
}
