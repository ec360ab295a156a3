/** `scrub_config` (src/ddqa/config/utils.py): before the configuration is
    shown, the GitHub and Jira tokens are masked in place. The configuration
    is a TOML document, modelled as a JSON-like value tree. */
module Scrub {
  import opened Wrappers
  import opened JsonValues
  import Text

  const SCRUBBED_VALUE: string := "*****"

  /** The sections whose `token` is masked, in the order they are visited. */
  const SECTIONS: seq<string> := ["github", "jira"]

  /** Python's `key in v`: a key of a table, a substring of a string, an
      element of an array; any other value raises `TypeError`. */
  function Contains(v: Json, key: string): (r: Result<bool, string>)
    ensures v.JObj? ==> r == Ok(key in v.fields)
    ensures v.JArr? ==> r == Ok(JStr(key) in v.items)
    ensures r.Err? <==> !(v.JObj? || v.JArr? || v.JStr?)
  {
    match v
    case JObj(fields) => Ok(key in fields)
    case JArr(items) => Ok(JStr(key) in items)
    case JStr(s) => Ok(Text.FindFirst(s, key).Some?)
    case _ => Err("argument is not iterable")
  }

  /** `config.get(section, {})`. */
  function SectionOf(data: map<string, Json>, section: string): Json {
    if section in data then data[section] else EmptyObject
  }

  /** One `if 'token' in config.get(section, {}): config[section]['token'] =
      SCRUBBED_VALUE` step: the new document, or the error it raises (item
      assignment on a value that is not a table). */
  function ScrubSection(data: map<string, Json>, section: string): Result<map<string, Json>, string> {
    var v := SectionOf(data, section);
    match Contains(v, "token")
    case Err(e) => Err(e)
    case Ok(found) =>
      if !found then Ok(data)
      else if v.JObj? then Ok(data[section := JObj(v.fields["token" := JStr(SCRUBBED_VALUE)])])
      else Err("object does not support item assignment")
  }

  /** The document after `scrub_config` and the error it raised, if any; a
      failure in the `jira` step leaves the `github` step done. */
  function Scrubbed(data: map<string, Json>): (map<string, Json>, Option<string>) {
    match ScrubSection(data, SECTIONS[0])
    case Err(e) => (data, Some(e))
    case Ok(d1) =>
      match ScrubSection(d1, SECTIONS[1])
      case Err(e) => (d1, Some(e))
      case Ok(d2) => (d2, None)
  }

  /** The configuration document being shown. */
  class ConfigDocument {
    var data: map<string, Json>

    constructor(data: map<string, Json>)
      ensures this.data == data
    {
      this.data := data;
    }
  }

  /** `scrub_config(config)`: masks the tokens in place, `github` first; an
      exception from the `jira` step leaves the `github` token masked. */
  method ScrubConfig(config: ConfigDocument) returns (error: Option<string>)
    modifies config
    ensures (config.data, error) == Scrubbed(old(config.data))
  {
    error := ScrubSectionInPlace(config, "github");
    if error.None? {
      error := ScrubSectionInPlace(config, "jira");
    }
  }

  /** One masking step on the document. */
  method ScrubSectionInPlace(config: ConfigDocument, section: string) returns (error: Option<string>)
    modifies config
    ensures match ScrubSection(old(config.data), section)
      case Ok(d) => error == None && config.data == d
      case Err(e) => error == Some(e) && config.data == old(config.data)
  {
    var v := SectionOf(config.data, section);
    var found := Contains(v, "token");
    if found.Err? {
      return Some(found.error);
    }
    if found.value {
      if !v.JObj? {
        return Some("object does not support item assignment");
      }
      config.data := config.data[section := JObj(v.fields["token" := JStr(SCRUBBED_VALUE)])];
    }
    error := None;
  }

  /** A section that is absent or a table never makes scrubbing fail. */
  predicate TableOrAbsent(data: map<string, Json>, section: string) {
    section !in data || data[section].JObj?
  }

  /** Scrubbing fails exactly when a section holds a value that `in` cannot
      search, or a non-table that "contains" `token`. */
  lemma ScrubFailsIffBadSection(data: map<string, Json>)
    ensures Scrubbed(data).1.None? <==>
      forall s :: s in SECTIONS ==> ScrubSection(data, s).Ok?
  {
    if ScrubSection(data, "github").Ok? {
      var d1 := ScrubSection(data, "github").value;
      assert SectionOf(d1, "jira") == SectionOf(data, "jira");
    }
  }

  /** With both sections tables (or absent), scrubbing succeeds; a present
      token becomes `*****`, no token is added, and every other key and
      value is unchanged. */
  lemma {:induction false} ScrubbedTables(data: map<string, Json>)
    requires TableOrAbsent(data, "github") && TableOrAbsent(data, "jira")
    ensures Scrubbed(data).1 == None
    ensures Scrubbed(data).0.Keys == data.Keys
    ensures forall k :: k in data && k !in SECTIONS ==> Scrubbed(data).0[k] == data[k]
    ensures forall s :: s in SECTIONS && s in data ==>
      var f := data[s].fields;
      Scrubbed(data).0[s] == if "token" in f then JObj(f["token" := JStr(SCRUBBED_VALUE)]) else data[s]
  {
    var d1 := ScrubSection(data, "github").value;
    assert SectionOf(d1, "jira") == SectionOf(data, "jira");
  }

  /** A section already scrubbed is left as it is. */
  lemma ScrubSectionStable(data: map<string, Json>, section: string)
    requires ScrubSection(data, section).Ok?
    ensures var d1 := ScrubSection(data, section).value; ScrubSection(d1, section) == Ok(d1)
  {
    var v := SectionOf(data, section);
    var d1 := ScrubSection(data, section).value;
    if v.JObj? && "token" in v.fields {
      var f1 := v.fields["token" := JStr(SCRUBBED_VALUE)];
      assert d1[section] == JObj(f1);
      assert f1["token" := JStr(SCRUBBED_VALUE)] == f1;
      assert d1[section := JObj(f1)] == d1;
    }
  }

  /** Scrubbing one section keeps another section's scrubbed state. */
  lemma ScrubSectionUntouched(d1: map<string, Json>, d2: map<string, Json>, kept: string, other: string)
    requires kept != other
    requires ScrubSection(d1, kept) == Ok(d1)
    requires ScrubSection(d1, other) == Ok(d2)
    ensures ScrubSection(d2, kept) == Ok(d2)
  {
    var v := SectionOf(d1, kept);
    assert SectionOf(d2, kept) == v;
    if v.JObj? && "token" in v.fields {
      var x := JObj(v.fields["token" := JStr(SCRUBBED_VALUE)]);
      assert d1[kept := x] == d1;
      assert d1[kept] == x;
      assert d2[kept] == x;
      assert d2[kept := x] == d2;
    }
  }

  /** Scrubbing twice is scrubbing once, error included. */
  lemma {:induction false} ScrubIdempotent(data: map<string, Json>)
    ensures Scrubbed(Scrubbed(data).0) == Scrubbed(data)
  {
    var gh := ScrubSection(data, "github");
    if gh.Ok? {
      var d1 := gh.value;
      ScrubSectionStable(data, "github");
      var j := ScrubSection(d1, "jira");
      if j.Ok? {
        var d2 := j.value;
        ScrubSectionStable(d1, "jira");
        ScrubSectionUntouched(d1, d2, "github", "jira");
      }
    }
  }
}
