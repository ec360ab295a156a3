/** `GitHubCache` (src/ddqa/cache/github.py): candidate data per commit and
    per pull request, team rosters and the global configuration of every
    source, below `<cache>/github/<org>/<repo>`:

      commits/<hash>/no_pr.json        candidate without a pull request
      commits/<hash>/<number>          empty marker naming a pull request
      pull_requests/<number>.json      candidate of a pull request
      team_members/<team>.txt          one login per line
      config.json                      global configuration by source

    The operations are stated as functions from the old file map to the new
    one (or to what is read); the class methods perform them on the store. */
module GitHubCaching {
  import opened Wrappers
  import opened Text
  import opened Models
  import opened JsonValues
  import opened CacheStore

  /** Where the cache lives: its root and its global configuration file. */
  datatype Layout = Layout(root: Path, configFile: Path) {
    function Commits(): Path { root + ["commits"] }
    function PullRequests(): Path { root + ["pull_requests"] }
    function TeamMembers(): Path { root + ["team_members"] }

    function CommitDir(hash: string): Path { Commits() + [hash] }
    function PullRequestFile(number: string): Path { PullRequests() + [number + ".json"] }
    /** `get_team_members_file`. */
    function TeamMembersFile(team: string): Path { TeamMembers() + [team + ".txt"] }

    /** The configuration file lies outside the three directories. */
    predicate Separate() {
      !Under(configFile, Commits()) && !Under(configFile, PullRequests()) && !Under(configFile, TeamMembers())
    }
  }

  predicate Under(p: Path, dir: Path) {
    |dir| <= |p| && p[..|dir|] == dir
  }

  /** What each kind of file holds: commit directories contain only
      `no_pr.json` candidates and digit-named markers, the other
      directories candidates and texts, the configuration file a
      configuration. */
  ghost predicate WellLaidOut(l: Layout, files: map<Path, Doc>) {
    l.Separate() && forall p :: p in files ==> Fits(l, p, files[p])
  }

  /** What the file at `p` may hold, by the directory it lies in. */
  ghost predicate Fits(l: Layout, p: Path, d: Doc) {
    (Under(p, l.Commits()) ==>
       |p| == |l.Commits()| + 2 &&
       ((p[|p| - 1] == "no_pr.json" && d.CandidateDoc?) || (IsDigits(p[|p| - 1]) && d == Marker))) &&
    (Under(p, l.PullRequests()) ==> d.CandidateDoc?) &&
    (Under(p, l.TeamMembers()) ==> d.TextDoc?) &&
    (p == l.configFile ==> d.ConfigDoc?)
  }

  /** Writing a file that fits its place keeps the cache well laid out. */
  lemma WriteKeepsLayout(l: Layout, files: map<Path, Doc>, p: Path, d: Doc)
    requires WellLaidOut(l, files) && Fits(l, p, d)
    ensures WellLaidOut(l, files[p := d])
  {
  }

  lemma UnderDistinct(l: Layout, p: Path)
    ensures Under(p, l.Commits()) ==> !Under(p, l.PullRequests()) && !Under(p, l.TeamMembers())
    ensures Under(p, l.PullRequests()) ==> !Under(p, l.TeamMembers())
  {
    var n := |l.root|;
    if Under(p, l.Commits()) {
      NameAt(p, l.Commits(), n);
    }
    if Under(p, l.PullRequests()) {
      NameAt(p, l.PullRequests(), n);
    }
    if Under(p, l.TeamMembers()) {
      NameAt(p, l.TeamMembers(), n);
    }
  }

  lemma NameAt(p: Path, dir: Path, i: nat)
    requires Under(p, dir) && i < |dir|
    ensures p[i] == dir[i]
  {
    assert p[..|dir|][i] == p[i];
  }

  // ---------------------------------------------------------------------
  // Global configuration

  /** The decoded configuration file, or `{}` when there is none. */
  function ConfigData(l: Layout, files: map<Path, Doc>): map<string, Json> {
    if l.configFile in files && files[l.configFile].ConfigDoc? then files[l.configFile].sources else map[]
  }

  /** `load_global_config(source)`: the entry for `source`, or `{}`. */
  function LoadGlobalConfig(l: Layout, files: map<Path, Doc>, source: string): Json {
    var data := ConfigData(l, files);
    if source in data then data[source] else EmptyObject
  }

  /** `save_global_config(source, c)`: read, set `data[source]`, write back. */
  function SaveGlobalConfig(l: Layout, files: map<Path, Doc>, source: string, config: Json): map<Path, Doc> {
    files[l.configFile := ConfigDoc(ConfigData(l, files)[source := config])]
  }

  /** What was saved for a source is loaded back; every other source keeps
      its entry, and no other file changes. */
  lemma GlobalConfigRoundTrip(l: Layout, files: map<Path, Doc>, source: string, config: Json, other: string)
    requires other != source
    ensures LoadGlobalConfig(l, SaveGlobalConfig(l, files, source, config), source) == config
    ensures LoadGlobalConfig(l, SaveGlobalConfig(l, files, source, config), other) ==
      LoadGlobalConfig(l, files, other)
    ensures forall p :: p in files && p != l.configFile ==>
      p in SaveGlobalConfig(l, files, source, config) && SaveGlobalConfig(l, files, source, config)[p] == files[p]
  {
  }

  // ---------------------------------------------------------------------
  // Candidates

  /** `cache_candidate_data(hash, data)`: a pull request (digit-only id) is
      stored under `pull_requests/` with a marker in the commit directory;
      anything else is stored as the commit's `no_pr.json`. */
  function CacheCandidateData(l: Layout, files: map<Path, Doc>, hash: string, data: TestCandidate): map<Path, Doc> {
    if IsDigits(data.id) then
      files[l.PullRequestFile(data.id) := CandidateDoc(data)][l.CommitDir(hash) + [data.id] := Marker]
    else
      files[l.CommitDir(hash) + ["no_pr.json"] := CandidateDoc(data)]
  }

  /** `get_cached_candidate_data_from_pr_number(number)`. */
  function FromPullRequestNumber(l: Layout, files: map<Path, Doc>, number: string): Option<TestCandidate> {
    var p := l.PullRequestFile(number);
    if p in files && files[p].CandidateDoc? then Some(files[p].candidate) else None
  }

  /** `duplicate_cached_candidate_data_from_pr_number(hash, number)`: only a
      marker is added. */
  function DuplicateFromPullRequestNumber(l: Layout, files: map<Path, Doc>, hash: string, number: string): map<Path, Doc> {
    files[l.CommitDir(hash) + [number] := Marker]
  }

  /** What reading one entry of a commit directory gives: its own data when
      its stem is `no_pr`, else the pull request file it names, if any. */
  function FromEntry(l: Layout, files: map<Path, Doc>, hash: string, name: string): Option<TestCandidate> {
    var p := l.CommitDir(hash) + [name];
    if Stem(name) == "no_pr" then
      if p in files && files[p].CandidateDoc? then Some(files[p].candidate) else None
    else FromPullRequestNumber(l, files, name)
  }

  /** The possible results of `get_cached_candidate_data_from_commit(hash)`:
      nothing for a missing or empty directory, otherwise what its first
      listed entry gives (the listing order is the file system's). */
  ghost function FromCommit(l: Layout, files: map<Path, Doc>, hash: string): set<Option<TestCandidate>> {
    var names := Entries(files, l.CommitDir(hash));
    if names == {} then {None} else set n | n in names :: FromEntry(l, files, hash, n)
  }

  /** A commit directory with a single entry is answered by that entry. */
  lemma FromCommitSingle(l: Layout, files: map<Path, Doc>, hash: string, name: string)
    requires Entries(files, l.CommitDir(hash)) == {name}
    ensures FromCommit(l, files, hash) == {FromEntry(l, files, hash, name)}
  {
  }

  /** Writing a file outside a commit directory and one entry inside it
      leaves that entry as the only one of a directory that was empty. */
  lemma EntriesAfterWrite(l: Layout, files: map<Path, Doc>, hash: string, outside: Path, name: string, d1: Doc, d2: Doc)
    requires Entries(files, l.CommitDir(hash)) == {}
    requires outside == l.CommitDir(hash) + [name] ||
      (|outside| == |l.CommitDir(hash)| + 1 ==> outside[|l.root|] != "commits")
    ensures Entries(files[outside := d1][l.CommitDir(hash) + [name] := d2], l.CommitDir(hash)) == {name}
  {
    var dir := l.CommitDir(hash);
    var files' := files[outside := d1][dir + [name] := d2];
    forall n ensures dir + [n] in files' <==> n == name {
      assert (dir + [n])[|l.root|] == "commits";
      if dir + [n] == dir + [name] || dir + [n] == outside {
        assert (dir + [n])[|dir|] == n;
      }
    }
  }

  /** Writing one entry into an empty commit directory leaves it the only
      one. */
  lemma EntriesAfterOneWrite(l: Layout, files: map<Path, Doc>, hash: string, name: string, d: Doc)
    requires Entries(files, l.CommitDir(hash)) == {}
    ensures Entries(files[l.CommitDir(hash) + [name] := d], l.CommitDir(hash)) == {name}
  {
    var dir := l.CommitDir(hash);
    var files' := files[dir + [name] := d];
    forall n ensures dir + [n] in files' <==> n == name {
      if dir + [n] == dir + [name] {
        assert (dir + [n])[|dir|] == n;
      }
    }
  }

  /** A commit whose directory has no entries yet is answered with exactly
      the data cached for it. */
  lemma CacheRoundTrip(l: Layout, files: map<Path, Doc>, hash: string, data: TestCandidate)
    requires Entries(files, l.CommitDir(hash)) == {}
    ensures FromCommit(l, CacheCandidateData(l, files, hash, data), hash) == {Some(data)}
  {
    if IsDigits(data.id) {
      CachePullRequestRoundTrip(l, files, hash, data);
    } else {
      CacheNoPullRequestRoundTrip(l, files, hash, data);
    }
  }

  lemma CachePullRequestRoundTrip(l: Layout, files: map<Path, Doc>, hash: string, data: TestCandidate)
    requires Entries(files, l.CommitDir(hash)) == {} && IsDigits(data.id)
    ensures FromCommit(l, CacheCandidateData(l, files, hash, data), hash) == {Some(data)}
  {
    var dir := l.CommitDir(hash);
    var files' := CacheCandidateData(l, files, hash, data);
    var pr := l.PullRequestFile(data.id);
    EntriesAfterWrite(l, files, hash, pr, data.id, CandidateDoc(data), Marker);
    FromCommitSingle(l, files', hash, data.id);
    StemOfDigits(data.id);
    assert pr != dir + [data.id] by {
      assert |pr| < |dir + [data.id]|;
    }
    assert FromEntry(l, files', hash, data.id) == Some(data);
  }

  lemma CacheNoPullRequestRoundTrip(l: Layout, files: map<Path, Doc>, hash: string, data: TestCandidate)
    requires Entries(files, l.CommitDir(hash)) == {} && !IsDigits(data.id)
    ensures FromCommit(l, CacheCandidateData(l, files, hash, data), hash) == {Some(data)}
  {
    var dir := l.CommitDir(hash);
    var files' := CacheCandidateData(l, files, hash, data);
    var nopr := dir + ["no_pr.json"];
    EntriesAfterOneWrite(l, files, hash, "no_pr.json", CandidateDoc(data));
    FromCommitSingle(l, files', hash, "no_pr.json");
    NoPullRequestStem();
    assert files'[nopr] == CandidateDoc(data);
  }

  /** The entry `no_pr.json` has the stem `no_pr`. */
  lemma NoPullRequestStem()
    ensures Stem("no_pr.json") == "no_pr"
  {
    StemOfJson("no_pr");
    assert "no_pr" + ".json" == "no_pr.json";
  }

  /** The marker written for a duplicate pull request leads back to the
      cached pull request, and the pull request file is left untouched. */
  lemma {:induction false} DuplicateRoundTrip(l: Layout, files: map<Path, Doc>, hash: string, number: string)
    requires IsDigits(number)
    requires Entries(files, l.CommitDir(hash)) == {}
    ensures var files' := DuplicateFromPullRequestNumber(l, files, hash, number);
      FromPullRequestNumber(l, files', number) == FromPullRequestNumber(l, files, number) &&
      FromCommit(l, files', hash) == {FromPullRequestNumber(l, files, number)}
  {
    var files' := DuplicateFromPullRequestNumber(l, files, hash, number);
    var dir := l.CommitDir(hash);
    assert dir + [number] != l.PullRequestFile(number) by {
      assert (dir + [number])[|l.root|] == "commits";
      assert l.PullRequestFile(number)[|l.root|] == "pull_requests";
    }
    assert Entries(files', dir) == {number};
    FromCommitSingle(l, files', hash, number);
    StemOfDigits(number);
  }

  // ---------------------------------------------------------------------
  // Team members

  /** `get_team_members(team)`: the set of lines of the team's file, or
      `None` when it was never saved (unlike an empty roster). */
  function GetTeamMembers(l: Layout, files: map<Path, Doc>, team: string): (r: Option<set<string>>)
    ensures r.None? <==> !(l.TeamMembersFile(team) in files && files[l.TeamMembersFile(team)].TextDoc?)
  {
    var p := l.TeamMembersFile(team);
    if p in files && files[p].TextDoc? then Some(SetOf(SplitLines(files[p].text))) else None
  }

  /** `save_team_members(team, members)`, the members joined with "\n" in
      the order `order` lists them. */
  function SaveTeamMembers(l: Layout, files: map<Path, Doc>, team: string, order: seq<string>): map<Path, Doc> {
    files[l.TeamMembersFile(team) := TextDoc(Join(order, "\n"))]
  }

  function SetOf(xs: seq<string>): (r: set<string>)
    ensures forall x :: x in r <==> x in xs
  {
    set x | x in xs
  }

  /** Logins that fit on a line of the roster file. */
  predicate Linewise(members: set<string>) {
    forall m :: m in members ==> m != [] && NoLineBreak(m)
  }

  lemma TxtNamesDistinct(a: string, b: string)
    requires a != b
    ensures a + ".txt" != b + ".txt"
  {
    if |a| == |b| {
      var k :| 0 <= k < |a| && a[k] != b[k];
      assert (a + ".txt")[k] == a[k];
      assert (b + ".txt")[k] == b[k];
    }
  }

  /** Saved members are read back as the same set, whatever order they were
      written in. */
  lemma TeamMembersRoundTrip(l: Layout, files: map<Path, Doc>, team: string, order: seq<string>)
    requires Linewise(SetOf(order))
    ensures GetTeamMembers(l, SaveTeamMembers(l, files, team, order), team) == Some(SetOf(order))
  {
    assert forall k :: 0 <= k < |order| ==> order[k] in SetOf(order);
    SplitLinesJoin(order);
  }

  /** Saving one team's members leaves every other team's file as it was. */
  lemma TeamMembersOthersUnchanged(l: Layout, files: map<Path, Doc>, team: string, order: seq<string>, other: string)
    requires other != team
    ensures GetTeamMembers(l, SaveTeamMembers(l, files, team, order), other) == GetTeamMembers(l, files, other)
  {
    TxtNamesDistinct(other, team);
    var a, b := l.TeamMembersFile(other), l.TeamMembersFile(team);
    assert a[|a| - 1] == other + ".txt" && b[|b| - 1] == team + ".txt";
  }

  /** A roster file written below `team_members/` keeps every kind of file
      in its place. */
  lemma WriteTeamMembersKeepsLayout(l: Layout, files: map<Path, Doc>, team: string, text: string)
    requires WellLaidOut(l, files)
    ensures WellLaidOut(l, files[l.TeamMembersFile(team) := TextDoc(text)])
  {
    var p := l.TeamMembersFile(team);
    NameAt(p, l.TeamMembers(), |l.root|);
    UnderDistinct(l, p);
    assert Under(p, l.TeamMembers());
    assert p != l.configFile;
    WriteKeepsLayout(l, files, p, TextDoc(text));
  }

  /** An entry of a commit directory fits when it is `no_pr.json` holding
      a candidate or a digit-named marker. */
  lemma CommitEntryFits(l: Layout, hash: string, name: string, d: Doc)
    requires l.Separate()
    requires (name == "no_pr.json" && d.CandidateDoc?) || (IsDigits(name) && d == Marker)
    ensures Fits(l, l.CommitDir(hash) + [name], d)
  {
    var p := l.CommitDir(hash) + [name];
    NameAt(p, l.Commits(), |l.root|);
    UnderDistinct(l, p);
    assert Under(p, l.Commits());
    assert p != l.configFile;
  }

  /** Caching candidate data keeps every kind of file in its place. */
  lemma CacheKeepsLayout(l: Layout, files: map<Path, Doc>, hash: string, data: TestCandidate)
    requires WellLaidOut(l, files)
    ensures WellLaidOut(l, CacheCandidateData(l, files, hash, data))
  {
    if IsDigits(data.id) {
      var p := l.PullRequestFile(data.id);
      NameAt(p, l.PullRequests(), |l.root|);
      UnderDistinct(l, p);
      assert Under(p, l.PullRequests());
      assert p != l.configFile;
      WriteKeepsLayout(l, files, p, CandidateDoc(data));
      CommitEntryFits(l, hash, data.id, Marker);
      WriteKeepsLayout(l, files[p := CandidateDoc(data)], l.CommitDir(hash) + [data.id], Marker);
    } else {
      CommitEntryFits(l, hash, "no_pr.json", CandidateDoc(data));
      WriteKeepsLayout(l, files, l.CommitDir(hash) + ["no_pr.json"], CandidateDoc(data));
    }
  }

  /** Recording a duplicate pull request keeps every kind of file in its
      place. */
  lemma DuplicateKeepsLayout(l: Layout, files: map<Path, Doc>, hash: string, number: string)
    requires WellLaidOut(l, files) && IsDigits(number)
    ensures WellLaidOut(l, DuplicateFromPullRequestNumber(l, files, hash, number))
  {
    CommitEntryFits(l, hash, number, Marker);
    WriteKeepsLayout(l, files, l.CommitDir(hash) + [number], Marker);
  }

  // ---------------------------------------------------------------------
  // The cache object

  class GitHubCache {
    const layout: Layout
    const store: FileStore

    ghost predicate Valid()
      reads this, store
    {
      WellLaidOut(layout, store.files)
    }

    constructor(layout: Layout, store: FileStore)
      requires WellLaidOut(layout, store.files)
      ensures this.layout == layout && this.store == store
      ensures Valid()
    {
      this.layout := layout;
      this.store := store;
    }

    method SaveGlobalConfigIn(source: string, config: Json)
      requires Valid()
      modifies store
      ensures store.files == SaveGlobalConfig(layout, old(store.files), source, config)
      ensures Valid()
    {
      var data: map<string, Json> := map[];
      if layout.configFile in store.files {
        data := store.files[layout.configFile].sources;
      }
      data := data[source := config];
      store.files := store.files[layout.configFile := ConfigDoc(data)];
      forall p | p in store.files
        ensures !Under(p, layout.Commits()) || p != layout.configFile
      {
      }
    }

    function LoadGlobalConfigIn(source: string): (r: Json)
      reads this, store
      ensures layout.configFile !in store.files ==> r == EmptyObject
    {
      LoadGlobalConfig(layout, store.files, source)
    }

    method CacheCandidateDataIn(hash: string, data: TestCandidate)
      requires Valid()
      modifies store
      ensures store.files == CacheCandidateData(layout, old(store.files), hash, data)
      ensures Valid()
    {
      CacheKeepsLayout(layout, store.files, hash, data);
      var dir := layout.CommitDir(hash);
      if IsDigits(data.id) {
        store.files := store.files[layout.PullRequestFile(data.id) := CandidateDoc(data)];
        store.files := store.files[dir + [data.id] := Marker];
      } else {
        store.files := store.files[dir + ["no_pr.json"] := CandidateDoc(data)];
      }
    }

    method DuplicateFromPullRequestNumberIn(hash: string, number: string)
      requires Valid() && IsDigits(number)
      modifies store
      ensures store.files == DuplicateFromPullRequestNumber(layout, old(store.files), hash, number)
      ensures Valid()
    {
      DuplicateKeepsLayout(layout, store.files, hash, number);
      store.files := store.files[layout.CommitDir(hash) + [number] := Marker];
    }

    /** `get_cached_candidate_data_from_commit(hash)`: the first listed
        entry of the commit directory decides. */
    method FromCommitIn(hash: string) returns (r: Option<TestCandidate>)
      requires Valid()
      ensures r in FromCommit(layout, store.files, hash)
    {
      var dir := layout.CommitDir(hash);
      var entries := Entries(store.files, dir);
      if entries == {} {
        return None;
      }
      var name :| name in entries;
      var p := dir + [name];
      if Stem(name) == "no_pr" {
        r := if store.files[p].CandidateDoc? then Some(store.files[p].candidate) else None;
      } else {
        r := FromPullRequestNumber(layout, store.files, name);
      }
    }

    method SaveTeamMembersIn(team: string, members: set<string>)
      requires Valid()
      modifies store
      ensures exists order :: (SetOf(order) == members && |order| == |members| &&
        store.files == SaveTeamMembers(layout, old(store.files), team, order))
      ensures Valid()
    {
      var order := Enumerate(members);
      WriteTeamMembersKeepsLayout(layout, store.files, team, Join(order, "\n"));
      store.files := store.files[layout.TeamMembersFile(team) := TextDoc(Join(order, "\n"))];
    }
  }

  /** Moving one element from what is left to the end of the order keeps
      the order free of duplicates and the two together equal to `s`. */
  lemma EnumerateStep(s: set<string>, order: seq<string>, rest: set<string>, x: string)
    requires rest !! SetOf(order) && rest + SetOf(order) == s
    requires |order| + |rest| == |s| && |SetOf(order)| == |order|
    requires x in rest
    ensures rest - {x} !! SetOf(order + [x]) && (rest - {x}) + SetOf(order + [x]) == s
    ensures |order + [x]| + |rest - {x}| == |s| && |SetOf(order + [x])| == |order + [x]|
  {
    var seen := SetOf(order);
    assert SetOf(order + [x]) == seen + {x};
    assert x !in seen;
    assert |seen + {x}| == |seen| + 1;
    assert |rest - {x}| == |rest| - 1;
  }

  /** The members of a set in the (unspecified) order iteration visits
      them, each once. */
  method Enumerate(s: set<string>) returns (order: seq<string>)
    ensures SetOf(order) == s && |order| == |s|
  {
    order := [];
    var rest := s;
    while rest != {}
      invariant rest !! SetOf(order) && rest + SetOf(order) == s
      invariant |order| + |rest| == |s|
      invariant |SetOf(order)| == |order|
      decreases |rest|
    {
      var x :| x in rest;
      EnumerateStep(s, order, rest, x);
      order := order + [x];
      rest := rest - {x};
    }
  }
}
