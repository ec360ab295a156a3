/** The status dashboard (src/ddqa/screens/status.py) without its widgets:
    the team and member filters over the loaded issues, the resolution of
    an issue's team and QA status, the loading of the searched issues into
    filters and status columns, the completion figure and the rule that
    enables moving an issue. */
module Dashboard {
  import opened Wrappers
  import opened Models
  import opened Decimals

  // ---------------------------------------------------------------------
  // Issue filters

  /** Filter key -> issue key -> issue. */
  type Buckets = map<string, map<string, JiraIssue>>

  /** `add(k, issue)`: `issues.setdefault(k, {})[issue.key] = issue`. */
  function AddTo(b: Buckets, k: string, issue: JiraIssue): (r: Buckets)
    ensures r.Keys == b.Keys + {k}
    ensures r[k].Keys == (if k in b then b[k].Keys else {}) + {issue.key}
    ensures r[k][issue.key] == issue
    ensures k in b ==> forall key :: key in b[k] && key != issue.key ==> r[k][key] == b[k][key]
    ensures forall f :: f in b && f != k ==> r[f] == b[f]
  {
    var bucket := if k in b then b[k] else map[];
    b[k := bucket[issue.key := issue]]
  }

  /** `update(old, new)`: every bucket holding `oldKey` now holds `new`
      under it; no bucket and no key is added. */
  function Replaced(b: Buckets, oldKey: string, newIssue: JiraIssue): (r: Buckets)
    ensures r.Keys == b.Keys
    ensures forall f :: f in b ==> r[f].Keys == b[f].Keys
    ensures forall f :: f in b && oldKey in b[f] ==> r[f][oldKey] == newIssue
    ensures forall f, key :: f in b && key in b[f] && key != oldKey ==> r[f][key] == b[f][key]
  {
    map f | f in b :: if oldKey in b[f] then b[f][oldKey := newIssue] else b[f]
  }

  /** `IssueFilter`; the team filter and the member filter update alike. */
  class IssueFilter {
    var issues: Buckets

    constructor()
      ensures issues == map[]
    {
      issues := map[];
    }

    method Add(k: string, issue: JiraIssue)
      modifies this
      ensures issues == AddTo(old(issues), k, issue)
    {
      var bucket := if k in issues then issues[k] else map[];
      issues := issues[k := bucket[issue.key := issue]];
    }

    /** `TeamIssueFilter.update` / `MemberIssueFilter.update`: a pass over
        the buckets. */
    method Update(oldIssue: JiraIssue, newIssue: JiraIssue)
      modifies this
      ensures issues == Replaced(old(issues), oldIssue.key, newIssue)
    {
      ghost var start := issues;
      var todo := issues.Keys;
      ghost var done: set<string> := {};
      while todo != {}
        invariant todo + done == start.Keys && todo !! done
        invariant issues.Keys == start.Keys
        invariant forall f :: f in done ==> issues[f] == Replaced(start, oldIssue.key, newIssue)[f]
        invariant forall f :: f in todo ==> issues[f] == start[f]
        decreases todo
      {
        var f :| f in todo;
        if oldIssue.key in issues[f] {
          issues := issues[f := issues[f][oldIssue.key := newIssue]];
        }
        todo := todo - {f};
        done := done + {f};
      }
      assert issues == Replaced(start, oldIssue.key, newIssue);
    }
  }

  // ---------------------------------------------------------------------
  // Teams and statuses

  /** ((project, component), team) for each team, in team order. */
  function TeamPairs(teams: seq<(string, TeamConfig)>): (r: seq<((string, string), string)>)
    ensures |r| == |teams|
    ensures forall k :: 0 <= k < |teams| ==> r[k] == ((teams[k].1.jiraProject, teams[k].1.jiraComponent), teams[k].0)
  {
    seq(|teams|, k requires 0 <= k < |teams| => ((teams[k].1.jiraProject, teams[k].1.jiraComponent), teams[k].0))
  }

  /** `teams`: (project, component) -> team. */
  function TeamIndex(repo: RepoConfig): map<(string, string), string> {
    TeamIndexOf(repo.teams)
  }

  function TeamIndexOf(teams: seq<(string, TeamConfig)>): map<(string, string), string> {
    MapOf(TeamPairs(teams))
  }

  /** A team configured with (project, component). */
  predicate ConfiguredWith(t: (string, TeamConfig), project: string, component: string) {
    t.1.jiraProject == project && t.1.jiraComponent == component
  }

  /** Exactly the configured (project, component) pairs resolve. */
  lemma TeamIndexKeys(repo: RepoConfig, project: string, component: string)
    ensures (project, component) in TeamIndex(repo) <==>
      exists k :: 0 <= k < |repo.teams| && ConfiguredWith(repo.teams[k], project, component)
  {
    var pairs := TeamPairs(repo.teams);
    assert forall k :: 0 <= k < |repo.teams| ==> (pairs[k].0 == (project, component) <==> ConfiguredWith(repo.teams[k], project, component));
  }

  /** A pair resolves to the last team configured with it. */
  lemma TeamIndexLastWins(repo: RepoConfig, project: string, component: string)
    requires (project, component) in TeamIndex(repo)
    ensures exists k :: (0 <= k < |repo.teams| && repo.teams[k].0 == TeamIndex(repo)[(project, component)] &&
      ConfiguredWith(repo.teams[k], project, component) &&
      forall j :: k < j < |repo.teams| ==> !ConfiguredWith(repo.teams[j], project, component))
  {
    TeamIndexOfLastWins(repo.teams, project, component);
  }

  lemma TeamIndexOfLastWins(teams: seq<(string, TeamConfig)>, project: string, component: string)
    requires (project, component) in TeamIndexOf(teams)
    ensures exists k :: (0 <= k < |teams| && teams[k].0 == TeamIndexOf(teams)[(project, component)] &&
      ConfiguredWith(teams[k], project, component) &&
      forall j :: k < j < |teams| ==> !ConfiguredWith(teams[j], project, component))
  {
    var pairs := TeamPairs(teams);
    MapOfLastWins(pairs, (project, component));
    var k := LookupLastAt(pairs, (project, component));
    assert pairs[k] == ((teams[k].1.jiraProject, teams[k].1.jiraComponent), teams[k].0);
    assert teams[k].0 == TeamIndexOf(teams)[(project, component)];
    assert ConfiguredWith(teams[k], project, component);
    forall j | k < j < |teams| ensures !ConfiguredWith(teams[j], project, component) {
      assert pairs[j].0 != (project, component);
    }
  }

  /** `team_statuses`: team -> native status -> QA status, inverting each
      team's QA -> native map. */
  function TeamStatuses(statusMaps: seq<(string, seq<(string, string)>)>): map<string, map<string, string>> {
    MapOf(seq(|statusMaps|, k requires 0 <= k < |statusMaps| => (statusMaps[k].0, MapOf(Swapped(statusMaps[k].1)))))
  }

  /** A native status maps back to a QA status that names it; on a
      duplicate native name the later QA status wins. */
  lemma TeamStatusesInvert(qaToNative: seq<(string, string)>, native: string)
    ensures native in MapOf(Swapped(qaToNative)) <==> exists k :: 0 <= k < |qaToNative| && qaToNative[k].1 == native
    ensures native in MapOf(Swapped(qaToNative)) ==>
      exists k :: (0 <= k < |qaToNative| && qaToNative[k] == (MapOf(Swapped(qaToNative))[native], native) &&
        forall j :: k < j < |qaToNative| ==> qaToNative[j].1 != native)
  {
    var sw := Swapped(qaToNative);
    MapOfLastWins(sw, native);
    if HasKey(sw, native) {
      LookupLast(sw, native);
    } else {
      forall k | 0 <= k < |qaToNative| ensures qaToNative[k].1 != native {
        assert KeysOf(sw)[k] == native ==> HasKey(sw, native);
      }
    }
  }

  /** The first component, in order, that is configured for the project. */
  function FirstConfigured(index: map<(string, string), string>, project: string, components: seq<string>): (r: Option<nat>)
    ensures r.Some? ==> r.value < |components| && (project, components[r.value]) in index
    ensures r.Some? ==> forall j :: 0 <= j < r.value ==> (project, components[j]) !in index
    ensures r.None? ==> forall j :: 0 <= j < |components| ==> (project, components[j]) !in index
  {
    if components == [] then None
    else if (project, components[0]) in index then Some(0)
    else match FirstConfigured(index, project, components[1..])
      case None => None
      case Some(i) => Some(i + 1)
  }

  /** `get_team(issue)`: without components the team of (project, ''),
      otherwise the team of the first configured component; '' when none
      matches. */
  function GetTeam(index: map<(string, string), string>, issue: JiraIssue): (r: string)
    ensures issue.components == [] ==> r == if (issue.project, "") in index then index[(issue.project, "")] else ""
    ensures issue.components != [] && FirstConfigured(index, issue.project, issue.components).None? ==> r == ""
    ensures issue.components != [] && FirstConfigured(index, issue.project, issue.components).Some? ==>
      r == index[(issue.project, issue.components[FirstConfigured(index, issue.project, issue.components).value])]
  {
    if issue.components == [] then
      if (issue.project, "") in index then index[(issue.project, "")] else ""
    else
      match FirstConfigured(index, issue.project, issue.components)
      case None => ""
      case Some(i) => index[(issue.project, issue.components[i])]
  }

  /** A resolved team is a configured team. */
  lemma GetTeamConfigured(repo: RepoConfig, issue: JiraIssue)
    requires GetTeam(TeamIndex(repo), issue) != ""
    ensures HasKey(repo.teams, GetTeam(TeamIndex(repo), issue))
  {
    var index := TeamIndex(repo);
    var c: string;
    if issue.components == [] {
      c := "";
    } else {
      c := issue.components[FirstConfigured(index, issue.project, issue.components).value];
    }
    assert (issue.project, c) in index && GetTeam(index, issue) == index[(issue.project, c)];
    TeamIndexLastWins(repo, issue.project, c);
    var k :| 0 <= k < |repo.teams| && repo.teams[k].0 == index[(issue.project, c)] &&
      ConfiguredWith(repo.teams[k], issue.project, c) &&
      forall j :: k < j < |repo.teams| ==> !ConfiguredWith(repo.teams[j], issue.project, c);
    assert KeysOf(repo.teams)[k] == repo.teams[k].0;
  }

  /** The index and status maps the screen works with. */
  datatype Setup = Setup(repo: RepoConfig, index: map<(string, string), string>, statuses: map<string, map<string, string>>)

  /** `get_qa_status(issue)`: the QA status the team maps the issue's
      status to, or the first QA status when it maps it to none; `None`
      where the lookup of the team raises `KeyError`. */
  function GetQaStatus(s: Setup, issue: JiraIssue): (r: Option<string>)
    ensures r.None? <==> GetTeam(s.index, issue) !in s.statuses
    ensures r.Some? && issue.status.name in s.statuses[GetTeam(s.index, issue)] ==>
      r.value == s.statuses[GetTeam(s.index, issue)][issue.status.name]
    ensures r.Some? && issue.status.name !in s.statuses[GetTeam(s.index, issue)] ==> r.value == s.repo.qaStatuses[0]
  {
    var team := GetTeam(s.index, issue);
    if team !in s.statuses then None
    else if issue.status.name in s.statuses[team] then Some(s.statuses[team][issue.status.name])
    else Some(s.repo.qaStatuses[0])
  }

  /** The index is the repository's `teams` index, every team an issue can
      resolve to has a status map, and every status map leads to QA
      statuses: loading then never raises. */
  ghost predicate Consistent(s: Setup) {
    && s.index == TeamIndex(s.repo)
    && (forall pc :: pc in s.index ==> s.index[pc] in s.statuses)
    && (forall t, n :: t in s.statuses && n in s.statuses[t] ==> s.statuses[t][n] in s.repo.qaStatuses)
  }

  lemma QaStatusKnown(s: Setup, issue: JiraIssue)
    requires Consistent(s) && GetTeam(s.index, issue) != ""
    ensures GetQaStatus(s, issue).Some? && GetQaStatus(s, issue).value in s.repo.qaStatuses
  {
  }

  // ---------------------------------------------------------------------
  // Loading

  /** The member-filter key: `:unassigned`, or the assignee's name. */
  function MemberKey(issue: JiraIssue): string {
    if issue.assignee.None? then ":unassigned" else issue.assignee.value.name
  }

  /** What the loading loop has built: whether any issue was kept, the
      issues by key, the two filters and the issue keys of each status
      column. */
  datatype Loaded = Loaded(
    found: bool,
    cached: map<string, JiraIssue>,
    teams: Buckets,
    members: Buckets,
    columns: map<string, set<string>>)

  /** One issue of the loading loop: skipped when it resolves to no team,
      otherwise cached, added to its member and team buckets and to the
      column of its QA status. */
  function LoadOne(s: Setup, l: Loaded, issue: JiraIssue): (r: Loaded)
    requires Consistent(s)
  {
    var team := GetTeam(s.index, issue);
    if team == "" then l
    else
      var q := GetQaStatus(s, issue).value;
      Loaded(true, l.cached[issue.key := issue], AddTo(l.teams, team, issue), AddTo(l.members, MemberKey(issue), issue),
        l.columns[q := (if q in l.columns then l.columns[q] else {}) + {issue.key}])
  }

  function LoadAll(s: Setup, l: Loaded, issues: seq<JiraIssue>): Loaded
    requires Consistent(s)
  {
    if issues == [] then l else LoadOne(s, LoadAll(s, l, issues[..|issues| - 1]), issues[|issues| - 1])
  }

  ghost predicate DistinctIssueKeys(issues: seq<JiraIssue>) {
    forall i, j :: 0 <= i < j < |issues| ==> issues[i].key != issues[j].key
  }

  /** Every kept issue sits in the bucket of its team and of its member. */
  ghost predicate Placed(s: Setup, l: Loaded, issues: seq<JiraIssue>) {
    forall k :: 0 <= k < |issues| && GetTeam(s.index, issues[k]) != "" ==> PlacedOne(s, l, issues[k])
  }

  /** The issue sits in the bucket of its team, of its member and in the
      cache. */
  ghost predicate PlacedOne(s: Setup, l: Loaded, issue: JiraIssue) {
    && InBucket(l.teams, GetTeam(s.index, issue), issue)
    && InBucket(l.members, MemberKey(issue), issue)
    && issue.key in l.cached && l.cached[issue.key] == issue
  }

  ghost predicate InBucket(b: Buckets, k: string, issue: JiraIssue) {
    k in b && issue.key in b[k] && b[k][issue.key] == issue
  }

  /** Adding an issue leaves every other issue where it was. */
  lemma AddToKeeps(b: Buckets, k: string, issue: JiraIssue, f: string, other: JiraIssue)
    requires InBucket(b, f, other) && other.key != issue.key
    ensures InBucket(AddTo(b, k, issue), f, other)
  {
  }

  /** Every bucket entry is a kept issue filed under its own team or
      member. */
  ghost predicate OnlyKept(s: Setup, l: Loaded, issues: seq<JiraIssue>) {
    && (forall b, key :: b in l.teams && key in l.teams[b] ==> KeptInTeam(s, issues, b, key))
    && (forall b, key :: b in l.members && key in l.members[b] ==> KeptForMember(s, issues, b, key))
  }

  /** Some kept issue with this key resolves to team `b`. */
  ghost predicate KeptInTeam(s: Setup, issues: seq<JiraIssue>, b: string, key: string) {
    exists k :: 0 <= k < |issues| && issues[k].key == key && GetTeam(s.index, issues[k]) == b != ""
  }

  /** Some kept issue with this key has member key `b`. */
  ghost predicate KeptForMember(s: Setup, issues: seq<JiraIssue>, b: string, key: string) {
    exists k :: 0 <= k < |issues| && issues[k].key == key && GetTeam(s.index, issues[k]) != "" && MemberKey(issues[k]) == b
  }

  /** An entry of a bucket after adding an issue is that issue or was
      there before. */
  lemma AddToFrom(b: Buckets, k: string, issue: JiraIssue, f: string, key: string)
    requires f in AddTo(b, k, issue) && key in AddTo(b, k, issue)[f]
    ensures (f == k && key == issue.key) || (f in b && key in b[f])
  {
  }

  /** A witness among the first issues is one among all of them. */
  lemma KeptSnoc(s: Setup, init: seq<JiraIssue>, last: JiraIssue, b: string, key: string)
    ensures KeptInTeam(s, init, b, key) ==> KeptInTeam(s, init + [last], b, key)
    ensures KeptForMember(s, init, b, key) ==> KeptForMember(s, init + [last], b, key)
  {
    var issues := init + [last];
    if KeptInTeam(s, init, b, key) {
      var k :| 0 <= k < |init| && init[k].key == key && GetTeam(s.index, init[k]) == b != "";
      assert issues[k] == init[k];
    }
    if KeptForMember(s, init, b, key) {
      var k :| 0 <= k < |init| && init[k].key == key && GetTeam(s.index, init[k]) != "" && MemberKey(init[k]) == b;
      assert issues[k] == init[k];
    }
  }

  lemma PlacedStep(s: Setup, l: Loaded, init: seq<JiraIssue>, last: JiraIssue)
    requires Consistent(s) && Placed(s, l, init)
    requires forall k :: 0 <= k < |init| ==> init[k].key != last.key
    ensures Placed(s, LoadOne(s, l, last), init + [last])
  {
    var issues := init + [last];
    var l' := LoadOne(s, l, last);
    var team := GetTeam(s.index, last);
    forall k | 0 <= k < |issues| && GetTeam(s.index, issues[k]) != "" ensures PlacedOne(s, l', issues[k]) {
      if k == |init| {
        assert issues[k] == last;
      } else {
        var other := init[k];
        assert issues[k] == other && PlacedOne(s, l, other);
        if team != "" {
          AddToKeeps(l.teams, team, last, GetTeam(s.index, other), other);
          AddToKeeps(l.members, MemberKey(last), last, MemberKey(other), other);
        }
      }
    }
  }

  lemma OnlyKeptStep(s: Setup, l: Loaded, init: seq<JiraIssue>, last: JiraIssue)
    requires Consistent(s) && OnlyKept(s, l, init)
    ensures OnlyKept(s, LoadOne(s, l, last), init + [last])
  {
    var issues := init + [last];
    var l' := LoadOne(s, l, last);
    var team := GetTeam(s.index, last);
    assert issues[|init|] == last;
    forall b, key | b in l'.teams && key in l'.teams[b] ensures KeptInTeam(s, issues, b, key) {
      if team != "" {
        AddToFrom(l.teams, team, last, b, key);
      }
      if !(team != "" && b == team && key == last.key) {
        KeptSnoc(s, init, last, b, key);
      }
    }
    forall b, key | b in l'.members && key in l'.members[b] ensures KeptForMember(s, issues, b, key) {
      if team != "" {
        AddToFrom(l.members, MemberKey(last), last, b, key);
      }
      if !(team != "" && b == MemberKey(last) && key == last.key) {
        KeptSnoc(s, init, last, b, key);
      }
    }
  }

  lemma FoundStep(s: Setup, l: Loaded, init: seq<JiraIssue>, last: JiraIssue)
    requires Consistent(s)
    requires l.found <==> exists k :: 0 <= k < |init| && GetTeam(s.index, init[k]) != ""
    ensures LoadOne(s, l, last).found <==> exists k :: 0 <= k < |init + [last]| && GetTeam(s.index, (init + [last])[k]) != ""
  {
    var issues := init + [last];
    if l.found {
      var k :| 0 <= k < |init| && GetTeam(s.index, init[k]) != "";
      assert issues[k] == init[k];
    }
    if GetTeam(s.index, last) != "" {
      assert issues[|init|] == last;
    }
    if exists k :: 0 <= k < |issues| && GetTeam(s.index, issues[k]) != "" {
      var k :| 0 <= k < |issues| && GetTeam(s.index, issues[k]) != "";
      if k < |init| {
        assert init[k] == issues[k];
      }
    }
  }

  /** Dropping the last issue keeps the keys distinct, and the last key
      differs from every earlier one. */
  lemma DistinctInit(issues: seq<JiraIssue>)
    requires issues != [] && DistinctIssueKeys(issues)
    ensures DistinctIssueKeys(issues[..|issues| - 1])
    ensures forall k :: 0 <= k < |issues| - 1 ==> issues[k].key != issues[|issues| - 1].key
  {
    var init := issues[..|issues| - 1];
    forall i, j | 0 <= i < j < |init| ensures init[i].key != init[j].key {
      assert init[i] == issues[i] && init[j] == issues[j];
    }
  }

  lemma {:induction false} LoadAllPlaced(s: Setup, issues: seq<JiraIssue>)
    requires Consistent(s) && DistinctIssueKeys(issues)
    ensures Placed(s, LoadAll(s, Loaded(false, map[], map[], map[], map[]), issues), issues)
    decreases |issues|
  {
    if issues != [] {
      var init := issues[..|issues| - 1];
      var last := issues[|issues| - 1];
      assert issues == init + [last];
      DistinctInit(issues);
      LoadAllPlaced(s, init);
      PlacedStep(s, LoadAll(s, Loaded(false, map[], map[], map[], map[]), init), init, last);
    }
  }

  lemma {:induction false} LoadAllOnlyKept(s: Setup, issues: seq<JiraIssue>)
    requires Consistent(s)
    ensures OnlyKept(s, LoadAll(s, Loaded(false, map[], map[], map[], map[]), issues), issues)
    decreases |issues|
  {
    if issues != [] {
      var init := issues[..|issues| - 1];
      var last := issues[|issues| - 1];
      assert issues == init + [last];
      LoadAllOnlyKept(s, init);
      OnlyKeptStep(s, LoadAll(s, Loaded(false, map[], map[], map[], map[]), init), init, last);
    }
  }

  lemma {:induction false} LoadAllFound(s: Setup, issues: seq<JiraIssue>)
    requires Consistent(s)
    ensures LoadAll(s, Loaded(false, map[], map[], map[], map[]), issues).found <==>
      exists k :: 0 <= k < |issues| && GetTeam(s.index, issues[k]) != ""
    decreases |issues|
  {
    if issues != [] {
      var init := issues[..|issues| - 1];
      var last := issues[|issues| - 1];
      assert issues == init + [last];
      LoadAllFound(s, init);
      FoundStep(s, LoadAll(s, Loaded(false, map[], map[], map[], map[]), init), init, last);
    }
  }

  /** Loading files every kept issue under its team and its member, files
      nothing else, and finds something exactly when some issue resolves
      to a team. */
  lemma LoadAllPlaces(s: Setup, issues: seq<JiraIssue>)
    requires Consistent(s) && DistinctIssueKeys(issues)
    ensures Placed(s, LoadAll(s, Loaded(false, map[], map[], map[], map[]), issues), issues)
    ensures OnlyKept(s, LoadAll(s, Loaded(false, map[], map[], map[], map[]), issues), issues)
    ensures LoadAll(s, Loaded(false, map[], map[], map[], map[]), issues).found <==>
      exists k :: 0 <= k < |issues| && GetTeam(s.index, issues[k]) != ""
  {
    LoadAllPlaced(s, issues);
    LoadAllOnlyKept(s, issues);
    LoadAllFound(s, issues);
  }

  /** With distinct issue keys, a kept issue is in exactly one team bucket
      and exactly one member bucket. */
  lemma LoadedExactlyOnce(s: Setup, issues: seq<JiraIssue>, k: nat, team: string, member: string)
    requires Consistent(s) && DistinctIssueKeys(issues)
    requires k < |issues| && GetTeam(s.index, issues[k]) != ""
    ensures var l := LoadAll(s, Loaded(false, map[], map[], map[], map[]), issues);
      && GetTeam(s.index, issues[k]) in l.teams && issues[k].key in l.teams[GetTeam(s.index, issues[k])]
      && (team in l.teams && issues[k].key in l.teams[team] ==> team == GetTeam(s.index, issues[k]))
      && MemberKey(issues[k]) in l.members && issues[k].key in l.members[MemberKey(issues[k])]
      && (member in l.members && issues[k].key in l.members[member] ==> member == MemberKey(issues[k]))
  {
    var l := LoadAll(s, Loaded(false, map[], map[], map[], map[]), issues);
    LoadAllPlaces(s, issues);
    assert PlacedOne(s, l, issues[k]);
    if team in l.teams && issues[k].key in l.teams[team] {
      assert KeptInTeam(s, issues, team, issues[k].key);
      var j :| 0 <= j < |issues| && issues[j].key == issues[k].key && GetTeam(s.index, issues[j]) == team != "";
      assert j == k;
    }
    if member in l.members && issues[k].key in l.members[member] {
      assert KeptForMember(s, issues, member, issues[k].key);
      var j :| 0 <= j < |issues| && issues[j].key == issues[k].key && GetTeam(s.index, issues[j]) != "" && MemberKey(issues[j]) == member;
      assert j == k;
    }
  }

  // ---------------------------------------------------------------------
  // Completion and the move rule

  /** Each QA status paired with itself, the pairs the columns dictionary
      is built from. */
  function StatusPairs(qaStatuses: seq<string>): (r: seq<(string, string)>)
    ensures KeysOf(r) == qaStatuses
  {
    var r := seq(|qaStatuses|, k requires 0 <= k < |qaStatuses| => (qaStatuses[k], qaStatuses[k]));
    assert forall k :: 0 <= k < |r| ==> KeysOf(r)[k] == qaStatuses[k];
    r
  }

  /** The keys of the dictionary of columns, one per QA status, that the
      screen counts. */
  function StatusColumns(qaStatuses: seq<string>): seq<string> {
    KeysOf(DictOf(StatusPairs(qaStatuses)))
  }

  /** There is a column for exactly the QA statuses. */
  lemma StatusColumnsMembers(qaStatuses: seq<string>)
    ensures forall s :: s in StatusColumns(qaStatuses) <==> s in qaStatuses
  {
    var pairs := StatusPairs(qaStatuses);
    DictOfContents(pairs);
    var d := DictOf(pairs);
    forall s
      ensures s in KeysOf(d) <==> s in qaStatuses
    {
      assert HasKey(d, s) <==> HasKey(pairs, s);
    }
  }

  /** Each QA status is one column, in the order of its first occurrence:
      a repeated status is not counted twice. */
  lemma StatusColumnsShape(qaStatuses: seq<string>)
    ensures forall i, j :: 0 <= i < j < |StatusColumns(qaStatuses)| ==>
      StatusColumns(qaStatuses)[i] != StatusColumns(qaStatuses)[j]
    ensures OrderedByFirst(StatusColumns(qaStatuses), qaStatuses)
  {
    var pairs := StatusPairs(qaStatuses);
    DictOfContents(pairs);
    DictOfOrder(pairs);
    var d := DictOf(pairs);
    forall i, j | 0 <= i < j < |KeysOf(d)|
      ensures KeysOf(d)[i] != KeysOf(d)[j]
    {
      assert KeysOf(d)[i] == d[i].0 && KeysOf(d)[j] == d[j].0;
    }
  }

  /** With no status repeated the columns are the QA statuses as listed. */
  lemma StatusColumnsOfDistinct(qaStatuses: seq<string>)
    requires forall i, j :: 0 <= i < j < |qaStatuses| ==> qaStatuses[i] != qaStatuses[j]
    ensures StatusColumns(qaStatuses) == qaStatuses
  {
    var pairs := StatusPairs(qaStatuses);
    assert forall i :: 0 <= i < |pairs| ==> pairs[i].0 == qaStatuses[i];
    DictOfDistinct(pairs);
  }

  function Sum(xs: seq<nat>): (r: nat)
    ensures xs != [] ==> xs[|xs| - 1] <= r
  {
    if xs == [] then 0 else Sum(xs[..|xs| - 1]) + xs[|xs| - 1]
  }

  /** The figure `__update_completion_status` shows: done, total and the
      percentage. */
  datatype Completion = Completion(done: nat, total: nat, percent: real)

  /** `done` is the count of the last column, `total` the sum of all;
      `Decimal(done) / total * 100`, quantized to two decimals only when
      strictly between 0 and 100. With no issues at all the division
      raises, which is `None`. */
  function CompletionOf(counts: seq<nat>): (r: Option<Completion>)
    requires counts != []
    ensures r.None? <==> Sum(counts) == 0
    ensures r.Some? ==> r.value.done == counts[|counts| - 1] && r.value.total == Sum(counts)
    ensures r.Some? ==> r.value.percent == Percentage(r.value.done, r.value.total)
    ensures r.Some? ==> 0.0 <= r.value.percent <= 100.0
  {
    var total := Sum(counts);
    var done := counts[|counts| - 1];
    if total == 0 then None else Some(Completion(done, total, Percentage(done, total)))
  }

  /** `Decimal(done) / total * 100` before any rounding. */
  function Ratio(done: nat, total: nat): real
    requires 0 < total
  {
    (done as real) * 100.0 / (total as real)
  }

  /** The exact ratio lies in [0, 100], touching an end exactly when none
      or all are done. */
  lemma RatioBounds(done: nat, total: nat)
    requires 0 < total && done <= total
    ensures 0.0 <= Ratio(done, total) <= 100.0
    ensures Ratio(done, total) == 100.0 <==> done == total
    ensures Ratio(done, total) == 0.0 <==> done == 0
  {
    var t := total as real;
    var d := done as real;
    var r := Ratio(done, total);
    assert r * t == d * 100.0;
    assert (100.0 - r) * t == (t - d) * 100.0;
    SignOfProduct(r, t);
    SignOfProduct(100.0 - r, t);
  }

  /** Multiplying by a positive number keeps the sign. */
  lemma SignOfProduct(a: real, t: real)
    requires t > 0.0
    ensures a * t > 0.0 <==> a > 0.0
    ensures a * t == 0.0 <==> a == 0.0
  {
  }

  /** Quantizing a value strictly between 0 and 100 stays within [0, 100]. */
  lemma QuantizeWithinPercent(x: real)
    requires 0.0 < x < 100.0
    ensures 0.0 <= Quantize2(x) <= 100.0
  {
    QuantizeMonotonic(0.0, x);
    QuantizeMonotonic(x, 100.0);
    QuantizeExact(0);
    QuantizeExact(10000);
  }

  /** `done / total * 100`: exact at 0 and 100 (none or all done), otherwise
      quantized, so within half a hundredth of the exact ratio. */
  function Percentage(done: nat, total: nat): (p: real)
    requires 0 < total && done <= total
    ensures 0.0 <= p <= 100.0
    ensures (done == 0 || done == total) ==> p == Ratio(done, total)
    ensures 0 < done < total ==> p == Quantize2(Ratio(done, total))
    ensures Ratio(done, total) - 0.005 <= p <= Ratio(done, total) + 0.005
  {
    var exact := Ratio(done, total);
    RatioBounds(done, total);
    if 0.0 < exact < 100.0 then
      QuantizeWithinPercent(exact);
      Quantize2(exact)
    else exact
  }

  /** `on_radio_set_changed`: whether the Move button is enabled after the
      status `pressed` is chosen for `issue`. The issue's current QA status
      is looked up first, so where that lookup raises the handler stops
      with the button untouched (`None`). Otherwise the button is enabled
      exactly when the current user is the issue's assignee and the
      pressed status is not the current one. */
  function MoveEnabled(s: Setup, issue: JiraIssue, currentUser: string, pressed: string): (r: Option<bool>)
    ensures r.None? <==> GetQaStatus(s, issue).None?
    ensures r == Some(true) ==> issue.assignee.Some? && issue.assignee.value.id == currentUser
    ensures r == Some(true) ==> pressed != GetQaStatus(s, issue).value
    ensures (r.Some? && issue.assignee.Some? && issue.assignee.value.id == currentUser &&
             pressed != GetQaStatus(s, issue).value) ==> r == Some(true)
  {
    match GetQaStatus(s, issue)
    case None => None
    case Some(current) =>
      Some(!(issue.assignee.None? || issue.assignee.value.id != currentUser || pressed == current))
  }

  /** On a consistent screen, choosing the column an issue is already in
      never enables Move, whoever is assigned. */
  lemma MoveToOwnColumnDisabled(s: Setup, issue: JiraIssue, currentUser: string)
    requires Consistent(s) && GetTeam(s.index, issue) != ""
    ensures GetQaStatus(s, issue).Some?
    ensures MoveEnabled(s, issue, currentUser, GetQaStatus(s, issue).value) == Some(false)
  {
    QaStatusKnown(s, issue);
  }

  /** On a consistent screen, an enabled Move leaves a column of the screen
      for a different status, and only the assignee can do it. */
  lemma MoveLeavesCurrentColumn(s: Setup, issue: JiraIssue, currentUser: string, pressed: string)
    requires Consistent(s) && GetTeam(s.index, issue) != ""
    requires MoveEnabled(s, issue, currentUser, pressed) == Some(true)
    ensures GetQaStatus(s, issue).Some? && GetQaStatus(s, issue).value in s.repo.qaStatuses
    ensures pressed != GetQaStatus(s, issue).value
    ensures issue.assignee == Some(issue.assignee.value) && issue.assignee.value.id == currentUser
  {
    QaStatusKnown(s, issue);
  }

  // ---------------------------------------------------------------------
  // The screen

  class StatusScreen {
    const setup: Setup
    const teamFilter: IssueFilter
    const memberFilter: IssueFilter
    var found: bool
    var cachedIssues: map<string, JiraIssue>
    /** The issue keys in each status column. */
    var columns: map<string, set<string>>

    ghost predicate Valid()
      reads this
    {
      teamFilter != memberFilter && Consistent(setup)
    }

    ghost function State(): Loaded
      reads this, teamFilter, memberFilter
    {
      Loaded(found, cachedIssues, teamFilter.issues, memberFilter.issues, columns)
    }

    constructor(setup: Setup)
      requires Consistent(setup)
      ensures this.setup == setup && Valid()
      ensures State() == Loaded(false, map[], map[], map[], map[])
      ensures fresh(teamFilter) && fresh(memberFilter)
    {
      this.setup := setup;
      teamFilter := new IssueFilter();
      memberFilter := new IssueFilter();
      found := false;
      cachedIssues := map[];
      columns := map[];
    }

    /** One pass of the loading loop. */
    method LoadIssue(issue: JiraIssue)
      requires Valid()
      modifies this, teamFilter, memberFilter
      ensures Valid()
      ensures State() == LoadOne(setup, old(State()), issue)
    {
      ghost var before := State();
      var team := GetTeam(setup.index, issue);
      if team != "" {
        QaStatusKnown(setup, issue);
        found := true;
        cachedIssues := cachedIssues[issue.key := issue];
        memberFilter.Add(MemberKey(issue), issue);
        teamFilter.Add(team, issue);
        var q := GetQaStatus(setup, issue).value;
        columns := columns[q := (if q in columns then columns[q] else {}) + {issue.key}];
        assert State() == Loaded(true, before.cached[issue.key := issue], AddTo(before.teams, team, issue),
          AddTo(before.members, MemberKey(issue), issue), before.columns[q := (if q in before.columns then before.columns[q] else {}) + {issue.key}]);
      }
    }

    /** The loading loop of `__on_mount` over the searched issues. */
    method Load(issues: seq<JiraIssue>)
      requires Valid()
      modifies this, teamFilter, memberFilter
      ensures Valid()
      ensures State() == LoadAll(setup, old(State()), issues)
    {
      var i := 0;
      while i < |issues|
        invariant 0 <= i <= |issues|
        invariant Valid()
        invariant State() == LoadAll(setup, old(State()), issues[..i])
      {
        assert issues[..i + 1][..i] == issues[..i];
        LoadIssue(issues[i]);
        i := i + 1;
      }
      assert issues[..i] == issues;
    }

    /** `__update_completion_status`: counts the rows of every column, one
        per distinct QA status in the order of its first occurrence, and
        derives the figure. */
    method CompletionStatus() returns (counts: seq<nat>, r: Option<Completion>)
      ensures |counts| == |StatusColumns(setup.repo.qaStatuses)|
      ensures forall k :: 0 <= k < |counts| ==>
        var q := StatusColumns(setup.repo.qaStatuses)[k];
        counts[k] == if q in columns then |columns[q]| else 0
      ensures r == CompletionOf(counts)
    {
      var order := StatusColumns(setup.repo.qaStatuses);
      StatusColumnsMembers(setup.repo.qaStatuses);
      assert setup.repo.qaStatuses[0] in order;
      counts := [];
      var i := 0;
      while i < |order|
        invariant 0 <= i <= |order|
        invariant |counts| == i
        invariant forall k :: 0 <= k < i ==>
          counts[k] == if order[k] in columns then |columns[order[k]]| else 0
      {
        var q := order[i];
        var c: nat := if q in columns then |columns[q]| else 0;
        counts := counts + [c];
        i := i + 1;
      }
      r := CompletionOf(counts);
    }
  }
}
