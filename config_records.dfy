// The back-end configuration service: a key/value table with string primary keys, the
// defaults it seeds on start-up, and the typed getters built on `getConfig`.

module ConfigRecords {
  import opened Wrappers
  import opened Text
  import opened Entities
  import ConfigEntity

  /** The rows `initializeDefaultConfig` seeds, in order. */
  const DEFAULTS: seq<Config> := [
    Config("attachmentsPath", "./attachments"),
    Config("currency", "USD"),
    Config("taxRate", "0.00"),
    Config("companyName", "Your Company"),
    Config("companyEmail", "contact@yourcompany.com")
  ]

  /** `getConfig(key)`: the stored value, or nothing when the key is missing or its value is the
      empty string (which `||` turns into null). */
  function Get(m: map<string, string>, key: string): (r: Option<string>)
    ensures r.Some? <==> key in m && m[key] != ""
    ensures r.Some? ==> r.value == m[key]
  {
    if key in m && m[key] != "" then Some(m[key]) else None
  }

  /** One round of the seeding loop: the default is written only where `getConfig` gives null. */
  function SeedOne(m: map<string, string>, c: Config): (r: map<string, string>)
    ensures r.Keys == m.Keys + {c.key}
    ensures forall k :: k in m && m[k] != "" ==> r[k] == m[k]
    ensures forall k :: k in m && k != c.key ==> r[k] == m[k]
    ensures !(c.key in m && m[c.key] != "") ==> r[c.key] == c.value
  {
    if Get(m, c.key).None? then m[c.key := c.value] else m
  }

  /** The table after the seeding loop has run over `s`. */
  function SeedAll(m: map<string, string>, s: seq<Config>): (r: map<string, string>)
    ensures m.Keys <= r.Keys
    ensures forall i :: 0 <= i < |s| ==> s[i].key in r
    ensures forall k :: k in m && m[k] != "" ==> r[k] == m[k]
    decreases |s|
  {
    if s == [] then m else SeedOne(SeedAll(m, s[..|s| - 1]), s[|s| - 1])
  }

  predicate DistinctKeys(s: seq<Config>) {
    forall i, j :: 0 <= i < j < |s| ==> s[i].key != s[j].key
  }

  /** `getConfigAsBoolean(key, default)`. */
  function AsBoolean(m: map<string, string>, key: string, default: bool): (r: bool)
    ensures key !in m || m[key] == "" ==> r == default
    ensures key in m && m[key] != "" ==> (r <==> Lower(m[key]) == "true")
  {
    var v := Get(m, key);
    if v.Some? then Lower(v.value) == "true" else default
  }

  /** `getConfig(key) || fallback`, the shape of every named string getter. */
  function OrFallback(m: map<string, string>, key: string, fallback: string): (r: string)
    requires fallback != ""
    ensures r != ""
    ensures key in m && m[key] != "" ==> r == m[key]
    ensures !(key in m && m[key] != "") ==> r == fallback
  {
    Get(m, key).GetOr(fallback)
  }

  function AttachmentsPath(m: map<string, string>): string {
    OrFallback(m, "attachmentsPath", "./attachments")
  }

  function Currency(m: map<string, string>): string {
    OrFallback(m, "currency", "USD")
  }

  function CompanyName(m: map<string, string>): string {
    OrFallback(m, "companyName", "Your Company")
  }

  function CompanyEmail(m: map<string, string>): string {
    OrFallback(m, "companyEmail", "contact@yourcompany.com")
  }

  // ----- Properties -----

  /** After `setConfig(k, v)` with a non-empty `v`, `getConfig(k)` gives `v`; other keys read as
      before. */
  lemma SetThenGet(m: map<string, string>, key: string, value: string, other: string)
    ensures value != "" ==> Get(m[key := value], key) == Some(value)
    ensures value == "" ==> Get(m[key := value], key) == None
    ensures other != key ==> Get(m[key := value], other) == Get(m, other)
  {
  }

  /** After `deleteConfig(k)`, `getConfig(k)` is null and other keys read as before. */
  lemma DeleteThenGet(m: map<string, string>, key: string, other: string)
    ensures Get(m - {key}, key) == None
    ensures other != key ==> Get(m - {key}, other) == Get(m, other)
  {
  }

  /** Seeding rows with distinct keys: a key among them keeps a non-empty stored value and
      otherwise takes its default; every other key is left as it was. */
  lemma {:induction false} SeedAllSpec(m: map<string, string>, s: seq<Config>, i: int, other: string)
    requires DistinctKeys(s)
    requires 0 <= i < |s|
    requires forall j :: 0 <= j < |s| ==> s[j].key != other
    ensures s[i].key in SeedAll(m, s)
    ensures SeedAll(m, s)[s[i].key] == if Get(m, s[i].key).Some? then m[s[i].key] else s[i].value
    ensures (other in SeedAll(m, s) <==> other in m)
    ensures other in m ==> SeedAll(m, s)[other] == m[other]
    decreases |s|
  {
    var init := s[..|s| - 1];
    var last := s[|s| - 1];
    assert forall j :: 0 <= j < |init| ==> init[j] == s[j];
    if i < |s| - 1 {
      SeedAllSpec(m, init, i, other);
      SeedAllSpec(m, init, i, last.key);
    } else if init != [] {
      SeedAllSpec(m, init, 0, last.key);
      SeedAllSpec(m, init, 0, other);
    }
  }

  /** Seeding leaves every default key readable: `getConfig` is never null for it afterwards. */
  lemma SeededDefaultsReadable(m: map<string, string>, i: int)
    requires 0 <= i < |DEFAULTS|
    ensures Get(SeedAll(m, DEFAULTS), DEFAULTS[i].key).Some?
    ensures Get(m, DEFAULTS[i].key).Some? ==> Get(SeedAll(m, DEFAULTS), DEFAULTS[i].key) == Get(m, DEFAULTS[i].key)
  {
    SeedAllSpec(m, DEFAULTS, i, "");
  }

  /** The boolean getter reads `true` in any letter case, and falls back only when the key reads
      as null. */
  lemma AsBooleanSpec(m: map<string, string>, key: string, default: bool)
    ensures Get(m, key).None? ==> AsBoolean(m, key, default) == default
    ensures key in m && m[key] == "TRUE" ==> AsBoolean(m, key, default)
    ensures key in m && m[key] == "True" ==> AsBoolean(m, key, default)
    ensures key in m && m[key] == "yes" ==> !AsBoolean(m, key, default)
    ensures key in m && m[key] == "1" ==> !AsBoolean(m, key, default)
  {
    if key in m && m[key] == "TRUE" {
      assert Lower("TRUE") == "true";
    }
    if key in m && m[key] == "True" {
      assert Lower("True") == "true";
    }
    if key in m && m[key] == "yes" {
      assert Lower("yes")[0] == 'y';
    }
    if key in m && m[key] == "1" {
      assert |Lower("1")| == 1;
    }
  }

  /** The service's getter and the entity helper agree on any listing of the table, in any
      order, one row per key. */
  lemma {:induction false} EntityHelperAgrees(m: map<string, string>, rows: seq<Config>)
    requires DistinctKeys(rows)
    requires forall i :: 0 <= i < |rows| ==> rows[i].key in m && m[rows[i].key] == rows[i].value
    requires forall k :: k in m ==> exists i :: 0 <= i < |rows| && rows[i].key == k
    ensures ConfigEntity.GetAttachmentsPath(rows) == AttachmentsPath(m)
  {
    var k := ConfigEntity.ATTACHMENTS_PATH_KEY;
    if k in m {
      var i :| 0 <= i < |rows| && rows[i].key == k;
      assert forall j :: 0 <= j < i ==> rows[j].key != k;
    }
  }

  /** The in-memory `config` table behind `ConfigService`. */
  class ConfigService {
    var entries: map<string, string>

    /** The service seeds its defaults as soon as it is created. */
    constructor(stored: map<string, string>)
      ensures entries == SeedAll(stored, DEFAULTS)
    {
      entries := stored;
      new;
      InitializeDefaultConfig();
    }

    method InitializeDefaultConfig()
      modifies this
      ensures entries == SeedAll(old(entries), DEFAULTS)
    {
      var i := 0;
      while i < |DEFAULTS|
        invariant 0 <= i <= |DEFAULTS|
        invariant entries == SeedAll(old(entries), DEFAULTS[..i])
      {
        var c := DEFAULTS[i];
        assert DEFAULTS[..i + 1][..i] == DEFAULTS[..i];
        var existing := GetConfig(c.key);
        if existing.None? {
          var _ := SetConfig(c.key, c.value);
        }
        i := i + 1;
      }
      assert DEFAULTS[..i] == DEFAULTS;
    }

    method GetConfig(key: string) returns (r: Option<string>)
      ensures r == Get(entries, key)
    {
      r := Get(entries, key);
    }

    /** `setConfig`: the row with the key gets the new value, or a new row is inserted. */
    method SetConfig(key: string, value: string) returns (r: Config)
      modifies this
      ensures r == Config(key, value)
      ensures entries == old(entries)[key := value]
    {
      entries := entries[key := value];
      r := Config(key, value);
    }

    method GetAllConfigs() returns (r: map<string, string>)
      ensures r == entries
    {
      r := entries;
    }

    /** `deleteConfig`: true exactly when a row was removed. */
    method DeleteConfig(key: string) returns (removed: bool)
      modifies this
      ensures removed <==> key in old(entries)
      ensures entries == old(entries) - {key}
    {
      removed := key in entries;
      entries := entries - {key};
    }

    method GetConfigAsBoolean(key: string, default: bool) returns (r: bool)
      ensures r == AsBoolean(entries, key, default)
    {
      var v := GetConfig(key);
      r := if v.Some? then Lower(v.value) == "true" else default;
    }

    method GetAttachmentsPath() returns (r: string)
      ensures r == AttachmentsPath(entries) && r != ""
    {
      r := AttachmentsPath(entries);
    }

    method GetCurrency() returns (r: string)
      ensures r == Currency(entries) && r != ""
    {
      r := Currency(entries);
    }

    method GetCompanyName() returns (r: string)
      ensures r == CompanyName(entries) && r != ""
    {
      r := CompanyName(entries);
    }

    method GetCompanyEmail() returns (r: string)
      ensures r == CompanyEmail(entries) && r != ""
    {
      r := CompanyEmail(entries);
    }
  }
}
