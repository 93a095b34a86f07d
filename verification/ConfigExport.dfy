/** The settings printed as a dotenv file: what a reader of the file gets. */
module ConfigExport {
  import opened Wrappers
  import opened ConfigTree
  import opened ConfigFlatten
  import opened ConfigSettings
  import opened ConfigValues
  import Dotenv

  predicate IsSettings(settings: Node) {
    WellKeyed(settings) && Fits(SETTINGS, AsTree(settings))
  }

  function DotenvFile(settings: Node, envProfile: Option<string>): string {
    Dotenv.Header() + "\n" + Dotenv.Lines(Dotenv.AllPairs(EnvPairs(settings), envProfile))
  }

  lemma EnvNameIsNameable(s: string)
    requires IsName(s)
    ensures Dotenv.Nameable(FieldPathToEnvName(s))
  {
    NamedCharByChar(s);
    hide FieldPathToEnvName;
    var name := FieldPathToEnvName(s);
    forall i | 0 <= i < |name| ensures name[i] != '=' && name[i] != '#' {
      assert IsNameChar(s[i]);
    }
  }

  /** Every name that the settings get is one that a reader can tell. */
  lemma SettingsAreNameable(settings: Node)
    requires IsSettings(settings)
    ensures Dotenv.AllNameable(EnvPairs(settings))
  {
    SettingsAreApart();
    LeavesFit(SETTINGS, AsTree(settings));
    hide IsSettings, EnvPairs, WellNamed, PathsOf, Leaves, IsName, FieldPathToEnvName, Dotenv.Nameable, JoinedPath;
    forall i | 0 <= i < |EnvPairs(settings)| ensures Dotenv.Nameable(EnvPairs(settings)[i].0) {
      var path := SettingOfPair(settings, i);
      EnvNameIsNameable(JoinedPath(path));
    }
    assert Dotenv.AllNameable(EnvPairs(settings));
  }

  lemma SettingOfPair(settings: Node, i: nat) returns (path: Path)
    requires WellKeyed(settings) && Leaves(AsTree(settings)) <= PathsOf(SETTINGS) && WellNamed(SETTINGS)
    requires i < |EnvPairs(settings)|
    ensures IsName(JoinedPath(path)) && EnvPairs(settings)[i].0 == FieldPathToEnvName(JoinedPath(path))
  {
    path := PairIsLeaf("", settings, i);
    LeavesAreWhereLeavesAre(AsTree(settings), path);
    hide WellNamed;
    PathIsNamed(SETTINGS, path);
  }

  /** Printing the settings and reading the file gives the profile, and every setting under its
      name and in its order. */
  lemma SettingsAreRead(settings: Node, envProfile: Option<string>)
    requires IsSettings(settings)
    ensures Dotenv.ReadDotenv(DotenvFile(settings, envProfile)) ==
      Some(Dotenv.AllPairs(EnvPairs(settings), envProfile))
  {
    SettingsAreNameable(settings);
    hide EnvPairs, IsSettings;
    Dotenv.DotenvRoundTrip(EnvPairs(settings), envProfile);
  }

  /** The profile, when there is one, comes first, and then the settings in their order. */
  method RenderDotenv(settings: Node, envProfile: Option<string>) returns (text: string)
    requires IsSettings(settings)
    ensures text == DotenvFile(settings, envProfile)
    ensures envProfile in {None, Some("")} ==> Dotenv.ReadDotenv(text) == Some(EnvPairs(settings))
    ensures envProfile !in {None, Some("")} ==>
      Dotenv.ReadDotenv(text) == Some([("ENV_PROFILE", envProfile.value)] + EnvPairs(settings))
  {
    SettingsAreRead(settings, envProfile);
    hide EnvPairs, IsSettings, Dotenv.ReadDotenv;
    text := Dotenv.RenderDotenv(EnvPairs(settings), envProfile);
    assert [] + EnvPairs(settings) == EnvPairs(settings);
  }

  lemma {:induction false} FirstPairsAreOverridden(first: seq<Pair>, pairs: seq<Pair>)
    ensures Environment(first + pairs) == Environment(first) + Environment(pairs)
  {
    if pairs == [] {
      assert first + pairs == first;
    } else {
      var front := pairs[..|pairs| - 1];
      FirstPairsAreOverridden(first, front);
      assert (first + pairs)[..|first + pairs| - 1] == first + front;
    }
  }

  /** Merging one profile's settings over another's gives settings, which set what the first one
      sets and over it what the second one sets. */
  lemma ProfilesMerge(base: Node, overlay: Node, settings: Node)
    requires IsSettings(base) && IsSettings(overlay)
    requires WellKeyed(settings) && AsTree(settings) == Merge(AsTree(base), AsTree(overlay))
    ensures IsSettings(settings)
    ensures Environment(EnvPairs(settings)) == Environment(EnvPairs(base)) + Environment(EnvPairs(overlay))
  {
    SettingsAreApart();
    hide WellNamed, Distinguishes, Fits, WellKeyed, AsTree, Merge, PathsOf, Environment, EnvPairs;
    MergedSettingsOverride(SETTINGS, base, overlay, settings);
  }

  lemma ProfilePairIsFirst(pairs: seq<Pair>, envProfile: Option<string>)
    ensures Environment(Dotenv.AllPairs(pairs, envProfile)) ==
      Environment(Dotenv.AllPairs([], envProfile)) + Environment(pairs)
  {
    var profile := Dotenv.AllPairs([], envProfile);
    assert Dotenv.AllPairs(pairs, envProfile) == profile + pairs;
    hide *;
    FirstPairsAreOverridden(profile, pairs);
  }

  /** Whoever reads the file of two merged profiles has what the first one sets, and over it what
      the second one sets, next to the profile's name. */
  lemma MergedProfilesAreRead(base: Node, overlay: Node, settings: Node, envProfile: Option<string>)
    requires IsSettings(base) && IsSettings(overlay)
    requires WellKeyed(settings) && AsTree(settings) == Merge(AsTree(base), AsTree(overlay))
    ensures var read := Dotenv.ReadDotenv(DotenvFile(settings, envProfile));
      && read.Some?
      && Environment(read.value) ==
        Environment(Dotenv.AllPairs([], envProfile)) + (Environment(EnvPairs(base)) + Environment(EnvPairs(overlay)))
  {
    hide *;
    ProfilesMerge(base, overlay, settings);
    SettingsAreRead(settings, envProfile);
    ProfilePairIsFirst(EnvPairs(settings), envProfile);
  }

  /** From the file, a reader who knows the kind of a setting gets its value back, under its
      name; and whatever else he gets is the profile. */
  lemma ValuesAreRead(settings: Node, envProfile: Option<string>)
    requires IsSettings(settings)
    ensures var read := Dotenv.ReadDotenv(DotenvFile(settings, envProfile));
      && read.Some?
      && var environment := Environment(read.value);
        && (forall path | LeafAt(AsTree(settings), path).Some? ::
              var scalar := LeafAt(AsTree(settings), path).value;
              EnvName(path) in environment && ReadValue(KindOf(scalar), environment[EnvName(path)]) == Some(scalar))
        && (forall name | name in environment ::
              || (exists path :: LeafAt(AsTree(settings), path).Some? && EnvName(path) == name)
              || (name == "ENV_PROFILE" && envProfile == Some(environment[name])))
  {
    hide *;
    SettingsAreRead(settings, envProfile);
    ProfilePairIsFirst(EnvPairs(settings), envProfile);
    var environment := Environment(Dotenv.AllPairs(EnvPairs(settings), envProfile));
    forall path | LeafAt(AsTree(settings), path).Some?
      ensures var scalar := LeafAt(AsTree(settings), path).value;
        EnvName(path) in environment && ReadValue(KindOf(scalar), environment[EnvName(path)]) == Some(scalar)
    {
      ValueIsPrinted(settings, path);
    }
    forall name | name in environment
      ensures (exists path :: LeafAt(AsTree(settings), path).Some? && EnvName(path) == name)
        || (name == "ENV_PROFILE" && envProfile == Some(environment[name]))
    {
      NameIsPrinted(settings, envProfile, name);
    }
  }

  lemma ValueIsPrinted(settings: Node, path: Path)
    requires IsSettings(settings) && LeafAt(AsTree(settings), path).Some?
    ensures var scalar := LeafAt(AsTree(settings), path).value;
      && EnvName(path) in Environment(EnvPairs(settings))
      && ReadValue(KindOf(scalar), Environment(EnvPairs(settings))[EnvName(path)]) == Some(scalar)
  {
    SettingsAreApart();
    LeavesFit(SETTINGS, AsTree(settings));
    hide WellNamed, Distinguishes, Fits, NamesApart, Leaves, LeafAt, EnvPairs, EnvName, Environment, ReadValue,
      FormatEnvValue, AsTree, PathsOf;
    LeafIsInEnvironment(settings, PathsOf(SETTINGS), path);
    ValueIsRead(LeafAt(AsTree(settings), path).value);
  }

  lemma NameIsPrinted(settings: Node, envProfile: Option<string>, name: string)
    requires IsSettings(settings)
    requires name in Environment(Dotenv.AllPairs([], envProfile)) + Environment(EnvPairs(settings))
    ensures var environment := Environment(Dotenv.AllPairs([], envProfile)) + Environment(EnvPairs(settings));
      || (exists path :: LeafAt(AsTree(settings), path).Some? && EnvName(path) == name)
      || (name == "ENV_PROFILE" && envProfile == Some(environment[name]))
  {
    if name in Environment(EnvPairs(settings)) {
      hide Environment, EnvPairs, LeafAt, EnvName, AsTree;
      var path := NameHasLeaf(settings, name);
    } else {
      hide EnvPairs, LeafAt, EnvName, AsTree, IsSettings;
      var i := PairThatSet(Dotenv.AllPairs([], envProfile), name);
    }
  }
}
