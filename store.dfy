/** The on-disk cache directory shared by the GitHub and Jira caches, as a
    map from paths to documents. Every write (`write_text`,
    `write_atomic`, `touch`) replaces one entry of the map; directories
    exist implicitly through the files below them. */
module CacheStore {
  import opened Wrappers
  import opened Text
  import opened Models
  import opened JsonValues

  /** A path as its sequence of names. */
  type Path = seq<string>

  /** What a cache file holds, after JSON decoding. */
  datatype Doc =
    | Marker
    | CandidateDoc(candidate: TestCandidate)
    | TextDoc(text: string)
    | ConfigDoc(sources: map<string, Json>)
    | UserIdsDoc(ids: map<string, string>)
    | TransitionsDoc(byType: map<string, map<string, string>>)

  /** The cache directory on disk. */
  class FileStore {
    var files: map<Path, Doc>

    constructor()
      ensures files == map[]
    {
      files := map[];
    }
  }

  /** The names `dir.iterdir()` lists: the files directly below `dir`. */
  function Entries(files: map<Path, Doc>, dir: Path): (r: set<string>)
    ensures forall n :: n in r <==> dir + [n] in files
  {
    var r := set p | p in files && |p| == |dir| + 1 && p[..|dir|] == dir :: p[|dir|];
    assert forall n :: dir + [n] in files ==> (dir + [n])[..|dir|] == dir && (dir + [n])[|dir|] == n;
    assert forall p :: p in files && |p| == |dir| + 1 && p[..|dir|] == dir ==> p == dir + [p[|dir|]];
    r
  }

  /** Index of the last `c` in `s`, if any. */
  function LastIndexOf(s: string, c: char): (r: Option<nat>)
    ensures r.Some? ==> r.value < |s| && s[r.value] == c
    ensures r.Some? ==> forall k :: r.value < k < |s| ==> s[k] != c
    ensures r.None? ==> forall k :: 0 <= k < |s| ==> s[k] != c
  {
    if s == [] then None
    else if s[|s| - 1] == c then Some(|s| - 1)
    else LastIndexOf(s[..|s| - 1], c)
  }

  /** `PurePath(name).stem`: the name without its last suffix; a leading
      or trailing dot does not start a suffix. */
  function Stem(name: string): string {
    match LastIndexOf(name, '.')
    case Some(i) => if 0 < i < |name| - 1 then name[..i] else name
    case None => name
  }

  /** The stem of `<s>.json` is `s` for a non-empty `s`. */
  lemma StemOfJson(s: string)
    requires s != []
    ensures Stem(s + ".json") == s
  {
    var name := s + ".json";
    assert name[|s|] == '.';
    assert forall k :: |s| < k < |name| ==> name[k] != '.';
    assert name[..|s|] == s;
  }

  /** A digit-only name has no suffix: its stem is itself, never `no_pr`. */
  lemma StemOfDigits(s: string)
    requires IsDigits(s)
    ensures Stem(s) == s && Stem(s) != "no_pr"
  {
    assert LastIndexOf(s, '.').None?;
    assert s[0] != "no_pr"[0];
  }
}
