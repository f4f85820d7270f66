// The helper on the `config` entity that reads the attachments directory out of a list of
// configuration rows.

module ConfigEntity {
  import opened Seqs
  import opened Entities

  const ATTACHMENTS_PATH_KEY: string := "attachmentsPath"
  const DEFAULT_ATTACHMENTS_PATH: string := "./attachments"

  function HasKey(key: string): Config -> bool {
    (c: Config) => c.key == key
  }

  /** `Config.getAttachmentsPath(configs)`: the value of the first row keyed `attachmentsPath`,
      or the default when there is none or its value is empty. */
  function GetAttachmentsPath(configs: seq<Config>): (r: string)
    ensures r != ""
    ensures (forall i :: 0 <= i < |configs| ==> configs[i].key != ATTACHMENTS_PATH_KEY) ==> r == DEFAULT_ATTACHMENTS_PATH
    ensures forall i :: 0 <= i < |configs| && configs[i].key == ATTACHMENTS_PATH_KEY && configs[i].value != ""
                     && (forall j :: 0 <= j < i ==> configs[j].key != ATTACHMENTS_PATH_KEY)
                     ==> r == configs[i].value
    ensures forall i :: (0 <= i < |configs| && configs[i].key == ATTACHMENTS_PATH_KEY && configs[i].value == ""
                     && (forall j :: 0 <= j < i ==> configs[j].key != ATTACHMENTS_PATH_KEY))
                     ==> r == DEFAULT_ATTACHMENTS_PATH
  {
    var i := FindIndex(configs, HasKey(ATTACHMENTS_PATH_KEY));
    if i >= 0 && configs[i].value != "" then configs[i].value else DEFAULT_ATTACHMENTS_PATH
  }

  /** Rows with other keys never affect the result, wherever they stand. */
  lemma {:induction false} OtherKeysIrrelevant(a: seq<Config>, c: Config, b: seq<Config>)
    requires c.key != ATTACHMENTS_PATH_KEY
    ensures GetAttachmentsPath(a + [c] + b) == GetAttachmentsPath(a + b)
    decreases |a|
  {
    if a == [] {
      assert a + [c] + b == [c] + b;
      assert ([c] + b)[1..] == b;
      assert a + b == b;
    } else {
      OtherKeysIrrelevant(a[1..], c, b);
      assert (a + [c] + b)[1..] == a[1..] + [c] + b;
      assert (a + b)[1..] == a[1..] + b;
      FirstKeyed(a + [c] + b);
      FirstKeyed(a + b);
    }
  }

  /** The helper unfolds one row at a time: the first row decides when it carries the key. */
  lemma FirstKeyed(configs: seq<Config>)
    requires configs != []
    ensures GetAttachmentsPath(configs) ==
      if configs[0].key == ATTACHMENTS_PATH_KEY then
        (if configs[0].value != "" then configs[0].value else DEFAULT_ATTACHMENTS_PATH)
      else GetAttachmentsPath(configs[1..])
  {
    var p := HasKey(ATTACHMENTS_PATH_KEY);
    if configs[0].key != ATTACHMENTS_PATH_KEY {
      var i := FindIndex(configs, p);
      var j := FindIndex(configs[1..], p);
      if j >= 0 {
        assert configs[1..][j] == configs[j + 1];
        assert i == j + 1;
      }
    }
  }
}
