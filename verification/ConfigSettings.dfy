/** The settings that are printed: a schema of plain fields and of sections of plain fields, and
    the names its fields get in the environment. */
module ConfigSettings {
  import opened Text
  import opened ConfigTree
  import opened ConfigFlatten

  /** The fields at the top, and the fields of each section. */
  datatype Schema = Schema(fields: set<string>, sections: map<string, set<string>>)

  const API_FIELDS := {
    "host", "port", "pagination_default_limit", "pagination_max_limit", "body_max_bytes",
    "rate_limit_auth_per_minute", "rate_limit_users_per_minute"
  }

  const JWT_FIELDS := {"secret_key", "algorithm", "expire_minutes", "issuer", "audience"}

  const ARGON2_FIELDS := {"time_cost", "memory_cost", "parallelism"}

  const POSTGRES_FIELDS := {"port", "user", "db", "password", "url", "compose_url", "test_url"}

  const VALKEY_FIELDS := {"port", "password", "url", "compose_url", "auth_user_cache_ttl_seconds"}

  const COMPOSE_FIELDS := {"infra_bind", "app_bind"}

  const MCP_FIELDS := {"api_base_url", "allow_destructive", "allow_remote_api"}

  const IDEMPOTENCY_FIELDS := {"enabled", "ttl_seconds", "max_key_length"}

  /** The schema of the program. */
  const SETTINGS := Schema(
    {"app_env"},
    map[
      "api" := API_FIELDS,
      "jwt" := JWT_FIELDS,
      "argon2" := ARGON2_FIELDS,
      "postgres" := POSTGRES_FIELDS,
      "valkey" := VALKEY_FIELDS,
      "compose" := COMPOSE_FIELDS,
      "mcp" := MCP_FIELDS,
      "deploy" := {"run_migrations"},
      "idempotency" := IDEMPOTENCY_FIELDS
    ])

  predicate IsNameChar(c: char) {
    'a' <= c <= 'z' || IsDigit(c) || c == '_'
  }

  predicate IsName(s: string) {
    s != "" && forall i | 0 <= i < |s| :: IsNameChar(s[i])
  }

  predicate IsSectionName(s: string) {
    IsName(s) && '_' !in s
  }

  predicate WellNamed(schema: Schema) {
    && (forall field | field in schema.fields :: IsName(field))
    && (forall section | section in schema.sections :: IsSectionName(section))
    && (forall section, field | section in schema.sections && field in schema.sections[section] :: IsName(field))
  }

  predicate FitsSection(fields: set<string>, value: Value) {
    value.Table? && forall field | field in value.entries :: field in fields && value.entries[field].Leaf?
  }

  /** A table with no keys but those of the schema, scalars where it has fields and tables of
      scalars where it has sections; nothing has to be present. */
  predicate Fits(schema: Schema, settings: Value) {
    && settings.Table?
    && forall key | key in settings.entries ::
      if key in schema.sections then FitsSection(schema.sections[key], settings.entries[key])
      else key in schema.fields && settings.entries[key].Leaf?
  }

  function PathsOf(schema: Schema): set<Path> {
    (set field | field in schema.fields :: [field]) +
    (set section, field | section in schema.sections && field in schema.sections[section] :: [section, field])
  }

  // Names in the environment

  function EnvChar(c: char): char {
    if UpperChar(c) == '.' then '_' else UpperChar(c)
  }

  lemma {:induction false} NamedCharByChar(s: string)
    ensures |FieldPathToEnvName(s)| == |s|
    ensures forall i | 0 <= i < |s| :: FieldPathToEnvName(s)[i] == EnvChar(s[i])
  {
    if s != "" {
      NamedCharByChar(s[1..]);
      assert Upper(s)[1..] == Upper(s[1..]);
      assert FieldPathToEnvName(s) == [EnvChar(s[0])] + FieldPathToEnvName(s[1..]);
    }
  }

  lemma NamesDiffer(a: string, b: string)
    requires IsName(a) && IsName(b) && FieldPathToEnvName(a) == FieldPathToEnvName(b)
    ensures a == b
  {
    NamedCharByChar(a);
    NamedCharByChar(b);
    hide FieldPathToEnvName;
    forall i | 0 <= i < |a| ensures a[i] == b[i] {
      assert IsNameChar(a[i]) && IsNameChar(b[i]);
      assert FieldPathToEnvName(a)[i] == EnvChar(a[i]) == EnvChar(b[i]);
    }
  }

  /** A dot and an underscore give the same name. */
  lemma DotIsUnderscore(section: string, field: string)
    ensures FieldPathToEnvName(section + "." + field) == FieldPathToEnvName(section + "_" + field)
  {
    NamedCharByChar(section + "." + field);
    NamedCharByChar(section + "_" + field);
    hide FieldPathToEnvName;
  }

  lemma JoinedIsName(section: string, field: string)
    requires IsSectionName(section) && IsName(field)
    ensures IsName(section + "_" + field)
  {
    var joined := section + "_" + field;
    forall i | 0 <= i < |joined| ensures IsNameChar(joined[i]) {
      assert i < |section| ==> joined[i] == section[i];
      assert i > |section| ==> joined[i] == field[i - |section| - 1];
    }
  }

  /** The text that a path of the schema gets its name from. */
  function JoinedPath(path: Path): string {
    if |path| == 1 then path[0] else if |path| == 2 then path[0] + "_" + path[1] else ""
  }

  lemma PathIsNamed(schema: Schema, path: Path)
    requires WellNamed(schema) && path in PathsOf(schema)
    ensures IsName(JoinedPath(path)) && EnvName(path) == FieldPathToEnvName(JoinedPath(path))
  {
    assert Below("", path[0]) == path[0];
    if |path| == 1 {
      assert EnvName(path) == NameFrom(path[0], path[1..]) == FieldPathToEnvName(path[0]);
    } else {
      assert path == [path[0], path[1]];
      JoinedIsName(path[0], path[1]);
      DotIsUnderscore(path[0], path[1]);
      hide FieldPathToEnvName;
      assert EnvName(path) == NameFrom(path[0], [path[1]]);
      assert NameFrom(path[0], [path[1]]) == NameFrom(path[0] + "." + path[1], []);
    }
  }

  /** What comes before the first underscore is the section. */
  lemma SectionIsFound(a: Path, b: Path)
    requires |a| == |b| == 2 && '_' !in a[0] && '_' !in b[0] && JoinedPath(a) == JoinedPath(b)
    ensures a == b
  {
    assert JoinedPath(a) == a[0] + ['_'] + a[1] && JoinedPath(b) == b[0] + ['_'] + b[1];
    IndexAfterPrefix('_', a[0], a[1]);
    IndexAfterPrefix('_', b[0], b[1]);
    var joined, i := JoinedPath(a), IndexOf('_', JoinedPath(a));
    assert a[0] == joined[..i] == b[0] && a[1] == joined[i + 1..] == b[1];
  }

  /** No field at the top is called like a section and one of its fields. */
  predicate Distinguishes(schema: Schema) {
    forall section, field | section in schema.sections && field in schema.sections[section] ::
      section + "_" + field !in schema.fields
  }

  /** On that condition, and on no other, all settings of a schema have names of their own. */
  lemma NamesAreApartExactlyIf(schema: Schema)
    requires WellNamed(schema)
    ensures NamesApart(PathsOf(schema)) <==> Distinguishes(schema)
  {
    forall path | path in PathsOf(schema)
      ensures IsName(JoinedPath(path)) && EnvName(path) == FieldPathToEnvName(JoinedPath(path))
    {
      PathIsNamed(schema, path);
    }
    hide FieldPathToEnvName, EnvName, IsName;
    if Distinguishes(schema) {
      forall p, q | p in PathsOf(schema) && q in PathsOf(schema) && EnvName(p) == EnvName(q) ensures p == q {
        NamesDiffer(JoinedPath(p), JoinedPath(q));
        if |p| == |q| == 2 {
          SectionIsFound(p, q);
        }
      }
    } else {
      var section, field :| section in schema.sections && field in schema.sections[section] &&
        section + "_" + field in schema.fields;
      assert JoinedPath([section, field]) == JoinedPath([section + "_" + field]);
    }
  }

  lemma {:induction false} NoDotNoChange(s: string)
    requires '.' !in s
    ensures FieldPathToEnvName(s) == Upper(s)
  {
    if s != "" {
      NoDotNoChange(s[1..]);
      assert s[0] in s && UpperChar(s[0]) != '.';
      assert Upper(s)[1..] == Upper(s[1..]);
      assert s == [s[0]] + s[1..];
    }
  }

  /** A setting of a section is named by the section, an underscore and the field, one at the top
      by its field, with a capital for each small letter and everything else as it is. */
  lemma SettingIsNamed(schema: Schema, path: Path)
    requires WellNamed(schema) && path in PathsOf(schema)
    ensures var plain := if |path| == 1 then path[0] else path[0] + "_" + path[1];
      && |EnvName(path)| == |plain|
      && (forall i, k | 0 <= i < |plain| && 0 <= k < 26 ::
            plain[i] == SMALL_LETTERS[k] ==> EnvName(path)[i] == CAPITAL_LETTERS[k])
      && (forall i | 0 <= i < |plain| :: plain[i] !in SMALL_LETTERS ==> EnvName(path)[i] == plain[i])
  {
    PathIsNamed(schema, path);
    var plain := JoinedPath(path);
    assert '.' !in plain by {
      forall i | 0 <= i < |plain| ensures plain[i] != '.' {
        assert IsNameChar(plain[i]);
      }
    }
    hide EnvName, IsName;
    NoDotNoChange(plain);
    UpperIs(plain);
  }

  // Trees that fit

  lemma LeavesFit(schema: Schema, settings: Value)
    requires Fits(schema, settings)
    ensures Leaves(settings) <= PathsOf(schema)
  {
    forall path | path in Leaves(settings) ensures path in PathsOf(schema) {
      var key, rest :| key in settings.entries && rest in Leaves(settings.entries[key]) && path == [key] + rest;
      if key in schema.sections {
        var field, none :| field in settings.entries[key].entries &&
          none in Leaves(settings.entries[key].entries[field]) && rest == [field] + none;
        assert path == [key, field];
      } else {
        assert path == [key];
      }
    }
  }

  lemma SectionsMerge(fields: set<string>, base: Value, overlay: Value)
    requires FitsSection(fields, base) && FitsSection(fields, overlay)
    ensures FitsSection(fields, Merge(base, overlay)) && Overlays(base, overlay)
  {
    hide Leaves;
  }

  /** Two trees that fit merge into one that fits, and neither has a scalar where the other has
      a table. */
  lemma FittingTreesMerge(schema: Schema, base: Value, overlay: Value)
    requires Fits(schema, base) && Fits(schema, overlay)
    ensures Fits(schema, Merge(base, overlay)) && Overlays(base, overlay)
  {
    forall key | key in base.entries && key in overlay.entries && key in schema.sections
      ensures FitsSection(schema.sections[key], Merge(base.entries[key], overlay.entries[key]))
      ensures Overlays(base.entries[key], overlay.entries[key])
    {
      SectionsMerge(schema.sections[key], base.entries[key], overlay.entries[key]);
    }
    hide Leaves, FitsSection;
  }

  /** With names apart, the order of the keys does not show in the environment. */
  lemma OrderDoesNotShow(a: Node, b: Node)
    requires WellKeyed(a) && WellKeyed(b) && AsTree(a) == AsTree(b) && NamesApart(Leaves(AsTree(a)))
    ensures Environment(EnvPairs(a)) == Environment(EnvPairs(b))
  {
    hide *;
    var left, right := Environment(EnvPairs(a)), Environment(EnvPairs(b));
    forall name
      ensures name in left <==> name in right
      ensures name in left ==> left[name] == right[name]
    {
      if name in left {
        var path := NameHasLeaf(a, name);
        LeafIsInEnvironment(b, Leaves(AsTree(a)), path);
      } else if name in right {
        var path := NameHasLeaf(b, name);
        LeafIsInEnvironment(a, Leaves(AsTree(a)), path);
      }
    }
  }

  /** The settings made by merging one profile over another print, in whatever order, what the
      first and then the second one sets. */
  lemma MergedSettingsOverride(schema: Schema, base: Node, overlay: Node, settings: Node)
    requires WellNamed(schema) && Distinguishes(schema)
    requires WellKeyed(base) && WellKeyed(overlay) && WellKeyed(settings)
    requires Fits(schema, AsTree(base)) && Fits(schema, AsTree(overlay))
    requires AsTree(settings) == Merge(AsTree(base), AsTree(overlay))
    ensures Fits(schema, AsTree(settings))
    ensures Environment(EnvPairs(settings)) == Environment(EnvPairs(base)) + Environment(EnvPairs(overlay))
  {
    NamesAreApartExactlyIf(schema);
    LeavesFit(schema, AsTree(base));
    LeavesFit(schema, AsTree(overlay));
    FittingTreesMerge(schema, AsTree(base), AsTree(overlay));
    LeavesFit(schema, AsTree(settings));
    MergedAsTree(base, overlay);
    assert NamesApart(Leaves(AsTree(base)) + Leaves(AsTree(overlay))) && NamesApart(Leaves(AsTree(settings)));
    hide *;
    EnvironmentsOverrideExactlyIf(base, overlay);
    OrderDoesNotShow(settings, MergeNodes(base, overlay));
  }

  // The schema of the program

  predicate AreNames(names: set<string>) {
    forall name | name in names :: IsName(name)
  }

  lemma LongNames()
    ensures IsName("pagination_default_limit") && IsName("pagination_max_limit")
    ensures IsName("rate_limit_auth_per_minute")
  {
  }

  lemma LongestNames()
    ensures IsName("rate_limit_users_per_minute") && IsName("auth_user_cache_ttl_seconds")
  {
  }

  lemma ApiFieldsAreNames()
    ensures AreNames(API_FIELDS)
  {
    assert IsName("host") && IsName("port") && IsName("body_max_bytes");
    LongNames();
    LongestNames();
    hide IsName;
  }

  lemma JwtAndComposeFieldsAreNames()
    ensures AreNames(JWT_FIELDS) && AreNames(COMPOSE_FIELDS)
  {
    assert IsName("secret_key") && IsName("algorithm") && IsName("expire_minutes");
    assert IsName("issuer") && IsName("audience") && IsName("infra_bind") && IsName("app_bind");
    hide IsName;
  }

  lemma Argon2AndPostgresFieldsAreNames()
    ensures AreNames(ARGON2_FIELDS) && AreNames(POSTGRES_FIELDS)
  {
  }

  lemma ValkeyAndDeployFieldsAreNames()
    ensures AreNames(VALKEY_FIELDS) && AreNames({"run_migrations"})
  {
    LongestNames();
    assert IsName("port") && IsName("password") && IsName("url") && IsName("compose_url") && IsName("run_migrations");
    hide IsName;
  }

  lemma McpAndIdempotencyFieldsAreNames()
    ensures AreNames(MCP_FIELDS) && AreNames(IDEMPOTENCY_FIELDS)
  {
    assert IsName("api_base_url") && IsName("allow_destructive") && IsName("allow_remote_api");
    assert IsName("enabled") && IsName("ttl_seconds") && IsName("max_key_length");
    hide IsName;
  }

  lemma SectionsAreNames()
    ensures forall section | section in SETTINGS.sections :: IsSectionName(section)
  {
    assert IsSectionName("api") && IsSectionName("jwt") && IsSectionName("argon2");
    assert IsSectionName("postgres") && IsSectionName("valkey") && IsSectionName("compose");
    assert IsSectionName("mcp") && IsSectionName("deploy") && IsSectionName("idempotency");
    hide IsSectionName;
  }

  lemma SectionOfAppEnv(section: string, field: string)
    requires '_' !in section && section + "_" + field == "app_env"
    ensures section == "app"
  {
    IndexAfterPrefix('_', section, field);
    assert section + "_" + field == section + ['_'] + field;
    assert section == "app_env"[..IndexOf('_', "app_env")];
    IndexAfterPrefix('_', "app", "env");
    assert "app_env" == "app" + ['_'] + "env";
  }

  /** The program's settings are well named, and no two of them share a name in the environment. */
  lemma SettingsAreApart()
    ensures WellNamed(SETTINGS) && Distinguishes(SETTINGS) && NamesApart(PathsOf(SETTINGS))
  {
    ApiFieldsAreNames();
    JwtAndComposeFieldsAreNames();
    Argon2AndPostgresFieldsAreNames();
    ValkeyAndDeployFieldsAreNames();
    McpAndIdempotencyFieldsAreNames();
    SectionsAreNames();
    assert IsName("app_env");
    hide IsName;
    assert WellNamed(SETTINGS);
    forall section, field | section in SETTINGS.sections && field in SETTINGS.sections[section]
      ensures section + "_" + field !in SETTINGS.fields
    {
      if section + "_" + field == "app_env" {
        SectionOfAppEnv(section, field);
      }
    }
    NamesAreApartExactlyIf(SETTINGS);
  }
}
