/** The records the core passes around: the GitHub test candidate
    (src/ddqa/models/github.py), the team and repository configuration
    (src/ddqa/models/config/team.py, repo.py) and the Jira issue
    (src/ddqa/models/jira.py). Python dicts whose iteration order matters
    are kept as sequences of pairs with distinct keys. */
module Models {
  import opened Wrappers

  // ---------------------------------------------------------------------
  // Insertion-ordered dictionaries

  /** The keys of an insertion-ordered dictionary, in order. */
  function KeysOf<K, V>(m: seq<(K, V)>): (r: seq<K>)
    ensures |r| == |m|
    ensures forall k :: 0 <= k < |m| ==> r[k] == m[k].0
  {
    if m == [] then [] else [m[0].0] + KeysOf(m[1..])
  }

  /** The values of an insertion-ordered dictionary, in order. */
  function ValuesOf<K, V>(m: seq<(K, V)>): (r: seq<V>)
    ensures |r| == |m|
    ensures forall k :: 0 <= k < |m| ==> r[k] == m[k].1
  {
    if m == [] then [] else [m[0].1] + ValuesOf(m[1..])
  }

  /** No key appears twice. */
  ghost predicate DistinctKeys<K, V>(m: seq<(K, V)>) {
    forall i, j :: 0 <= i < j < |m| ==> m[i].0 != m[j].0
  }

  predicate HasKey<K(==), V>(m: seq<(K, V)>, key: K) {
    key in KeysOf(m)
  }

  /** `d.get(key)`: the value of the last entry with that key (the only one
      when keys are distinct). */
  function Lookup<K(==), V>(m: seq<(K, V)>, key: K): (r: Option<V>)
    ensures r.None? <==> !HasKey(m, key)
    ensures r.Some? ==> exists k :: 0 <= k < |m| && m[k] == (key, r.value)
  {
    if m == [] then None
    else if m[|m| - 1].0 == key then Some(m[|m| - 1].1)
    else
      var r := Lookup(m[..|m| - 1], key);
      assert forall k :: 0 <= k < |m| - 1 ==> m[..|m| - 1][k] == m[k];
      r
  }

  /** With distinct keys the entry at index `k` is what `Lookup` finds. */
  lemma {:induction false} LookupAt<K, V>(m: seq<(K, V)>, k: nat)
    requires DistinctKeys(m) && k < |m|
    ensures Lookup(m, m[k].0) == Some(m[k].1)
  {
    if k < |m| - 1 {
      var init := m[..|m| - 1];
      assert init[k] == m[k];
      LookupAt(init, k);
    }
  }

  /** A key is present exactly when some entry has it. */
  lemma HasKeyAt<K, V>(m: seq<(K, V)>, key: K)
    ensures HasKey(m, key) <==> exists i :: 0 <= i < |m| && m[i].0 == key
  {
    if exists i :: 0 <= i < |m| && m[i].0 == key {
      var i :| 0 <= i < |m| && m[i].0 == key;
      assert KeysOf(m)[i] == key;
    }
  }

  /** The index of the entry `Lookup` finds: the last one with the key. */
  lemma {:induction false} LookupLastAt<K, V>(m: seq<(K, V)>, key: K) returns (k: nat)
    requires HasKey(m, key)
    ensures k < |m| && m[k] == (key, Lookup(m, key).value)
    ensures forall k' :: k < k' < |m| ==> m[k'].0 != key
    decreases |m|
  {
    if m[|m| - 1].0 == key {
      k := |m| - 1;
    } else {
      var init := m[..|m| - 1];
      assert Lookup(m, key) == Lookup(init, key);
      assert HasKey(init, key);
      k := LookupLastAt(init, key);
      assert m[k] == init[k];
      forall k' | k < k' < |m|
        ensures m[k'].0 != key
      {
        if k' < |init| {
          assert m[k'] == init[k'];
        }
      }
    }
  }

  /** `Lookup` finds the last entry with the key. */
  lemma LookupLast<K, V>(m: seq<(K, V)>, key: K)
    requires HasKey(m, key)
    ensures exists k :: (0 <= k < |m| && m[k] == (key, Lookup(m, key).value) &&
      forall k' :: k < k' < |m| ==> m[k'].0 != key)
  {
    var k := LookupLastAt(m, key);
  }

  /** Every entry with `key` given `value`; the others as they were. */
  function Replace<K(==), V>(m: seq<(K, V)>, key: K, value: V): (r: seq<(K, V)>)
    ensures |r| == |m|
    ensures forall k :: 0 <= k < |m| ==> r[k] == if m[k].0 == key then (key, value) else m[k]
  {
    seq(|m|, k requires 0 <= k < |m| => if m[k].0 == key then (key, value) else m[k])
  }

  /** A key of a non-empty dictionary is a key of all but its last entry, or
      the last entry's. */
  lemma HasKeyLast<K, V>(m: seq<(K, V)>, key: K)
    requires m != []
    ensures HasKey(m, key) <==> HasKey(m[..|m| - 1], key) || m[|m| - 1].0 == key
  {
    assert m == m[..|m| - 1] + [m[|m| - 1]];
    KeysOfAppend(m[..|m| - 1], m[|m| - 1]);
  }

  lemma {:induction false} LookupReplace<K, V>(m: seq<(K, V)>, key: K, value: V, k: K)
    ensures Lookup(Replace(m, key, value), k) == if k == key && HasKey(m, key) then Some(value) else Lookup(m, k)
    decreases |m|
  {
    if m != [] {
      var init, last := m[..|m| - 1], m[|m| - 1];
      var r := Replace(m, key, value);
      assert r[..|m| - 1] == Replace(init, key, value);
      HasKeyLast(m, key);
      LookupReplace(init, key, value, k);
      if last.0 == k {
        assert Lookup(r, k) == Some(r[|m| - 1].1);
        assert Lookup(m, k) == Some(last.1);
      } else {
        assert Lookup(r, k) == Lookup(Replace(init, key, value), k);
        assert Lookup(m, k) == Lookup(init, k);
      }
    }
  }

  /** `d[key] = value` on an insertion-ordered dictionary: an existing key
      keeps its place, a new key goes last. */
  function Assign<K(==), V>(m: seq<(K, V)>, key: K, value: V): (r: seq<(K, V)>)
    ensures HasKey(m, key) ==> KeysOf(r) == KeysOf(m)
    ensures !HasKey(m, key) ==> r == m + [(key, value)]
  {
    if HasKey(m, key) then Replace(m, key, value) else m + [(key, value)]
  }

  /** After `d[key] = value` the key maps to the value, every other key to
      what it did, and a dictionary stays one. */
  lemma AssignLookup<K, V>(m: seq<(K, V)>, key: K, value: V, k: K)
    ensures Lookup(Assign(m, key, value), k) == if k == key then Some(value) else Lookup(m, k)
    ensures DistinctKeys(m) ==> DistinctKeys(Assign(m, key, value))
  {
    if HasKey(m, key) {
      LookupReplace(m, key, value, k);
    } else {
      var r := m + [(key, value)];
      assert r[..|r| - 1] == m;
    }
  }

  /** `{k: v for k, v in pairs}`: the dictionary the pairs build, one at a
      time. */
  function DictOf<K(==), V>(pairs: seq<(K, V)>): (r: seq<(K, V)>)
  {
    if pairs == [] then []
    else
      var last := pairs[|pairs| - 1];
      Assign(DictOf(pairs[..|pairs| - 1]), last.0, last.1)
  }

  /** The pairs with each key and value swapped, in the same order. */
  function Swapped<K, V>(m: seq<(K, V)>): (r: seq<(V, K)>)
    ensures |r| == |m|
    ensures forall k :: 0 <= k < |m| ==> r[k] == (m[k].1, m[k].0)
  {
    seq(|m|, k requires 0 <= k < |m| => (m[k].1, m[k].0))
  }

  /** `{k: v for k, v in pairs}` where the order of the result does not
      matter: a later pair with the same key wins. */
  function MapOf<K(==), V>(pairs: seq<(K, V)>): (r: map<K, V>)
    ensures r.Keys == set k | 0 <= k < |pairs| :: pairs[k].0
  {
    if pairs == [] then map[]
    else MapOf(pairs[..|pairs| - 1])[pairs[|pairs| - 1].0 := pairs[|pairs| - 1].1]
  }

  /** `MapOf` agrees with `Lookup`: each key gets the value of its last
      pair. */
  lemma {:induction false} MapOfLastWins<K, V>(pairs: seq<(K, V)>, key: K)
    ensures key in MapOf(pairs) <==> HasKey(pairs, key)
    ensures key in MapOf(pairs) ==> MapOf(pairs)[key] == Lookup(pairs, key).value
    decreases |pairs|
  {
    if pairs != [] {
      var init := pairs[..|pairs| - 1];
      assert KeysOf(pairs) == KeysOf(init) + [pairs[|pairs| - 1].0];
      MapOfLastWins(init, key);
    }
  }

  /** Index of the first occurrence of `x` in `xs`. */
  function FirstIndex<T(==)>(xs: seq<T>, x: T): (i: nat)
    requires x in xs
    ensures i < |xs| && xs[i] == x
    ensures forall k :: 0 <= k < i ==> xs[k] != x
  {
    if xs[0] == x then 0 else 1 + FirstIndex(xs[1..], x)
  }

  lemma {:induction false} FirstIndexAppend<T>(xs: seq<T>, y: T, x: T)
    requires x in xs
    ensures FirstIndex(xs + [y], x) == FirstIndex(xs, x)
  {
    var i := FirstIndex(xs, x);
    assert (xs + [y])[i] == x;
    assert forall k :: 0 <= k < i ==> (xs + [y])[k] == xs[k];
  }

  /** The dictionary built from pairs has each key once, exactly the keys
      of the pairs, and the value of each key's last occurrence. */
  lemma {:induction false} DictOfContents<K, V>(pairs: seq<(K, V)>)
    ensures DistinctKeys(DictOf(pairs))
    ensures forall k :: HasKey(DictOf(pairs), k) <==> HasKey(pairs, k)
    ensures forall k :: Lookup(DictOf(pairs), k) == Lookup(pairs, k)
    decreases |pairs|
  {
    if pairs != [] {
      var init := pairs[..|pairs| - 1];
      var last := pairs[|pairs| - 1];
      var d := DictOf(init);
      DictOfContents(init);
      forall k
        ensures Lookup(DictOf(pairs), k) == Lookup(pairs, k)
        ensures HasKey(DictOf(pairs), k) <==> HasKey(pairs, k)
      {
        AssignLookup(d, last.0, last.1, k);
      }
    }
  }

  lemma KeysOfAppend<K, V>(m: seq<(K, V)>, e: (K, V))
    ensures KeysOf(m + [e]) == KeysOf(m) + [e.0]
  {
  }

  /** `kd` lists members of `ks` in the order of their first occurrence. */
  predicate OrderedByFirst<K(==)>(kd: seq<K>, ks: seq<K>) {
    (forall i :: 0 <= i < |kd| ==> kd[i] in ks) &&
    forall i, j :: 0 <= i < j < |kd| ==> FirstIndex(ks, kd[i]) < FirstIndex(ks, kd[j])
  }

  lemma OrderedByFirstExtend<K>(kd: seq<K>, ks: seq<K>, x: K)
    requires OrderedByFirst(kd, ks)
    ensures OrderedByFirst(kd, ks + [x])
    ensures x !in ks ==> OrderedByFirst(kd + [x], ks + [x])
  {
    forall y | y in ks
      ensures FirstIndex(ks + [x], y) == FirstIndex(ks, y)
    {
      FirstIndexAppend(ks, x, y);
    }
    if x !in ks {
      var kd' := kd + [x];
      assert FirstIndex(ks + [x], x) == |ks|;
      forall i, j | 0 <= i < j < |kd'|
        ensures FirstIndex(ks + [x], kd'[i]) < FirstIndex(ks + [x], kd'[j])
      {
        assert kd'[i] == kd[i];
      }
    }
  }

  /** The keys of the dictionary built from pairs are ordered by their first
      occurrence among the pairs. */
  lemma {:induction false} DictOfOrder<K, V>(pairs: seq<(K, V)>)
    ensures OrderedByFirst(KeysOf(DictOf(pairs)), KeysOf(pairs))
    decreases |pairs|
  {
    if pairs != [] {
      var init := pairs[..|pairs| - 1];
      var last := pairs[|pairs| - 1];
      var d := DictOf(init);
      DictOfOrder(init);
      DictOfContents(init);
      assert pairs == init + [last];
      KeysOfAppend(init, last);
      OrderedByFirstExtend(KeysOf(d), KeysOf(init), last.0);
      if HasKey(d, last.0) {
        assert KeysOf(DictOf(pairs)) == KeysOf(d);
      } else {
        assert !HasKey(init, last.0);
        KeysOfAppend(d, last);
      }
    }
  }

  /** Pairs whose keys are already distinct build themselves. */
  lemma {:induction false} DictOfDistinct<K, V>(pairs: seq<(K, V)>)
    requires DistinctKeys(pairs)
    ensures DictOf(pairs) == pairs
    decreases |pairs|
  {
    if pairs != [] {
      var init := pairs[..|pairs| - 1];
      var last := pairs[|pairs| - 1];
      assert pairs == init + [last];
      assert forall i :: 0 <= i < |init| ==> init[i] == pairs[i];
      DictOfDistinct(init);
      HasKeyAt(init, last.0);
      assert forall i :: 0 <= i < |init| ==> init[i].0 != last.0;
      assert DictOf(pairs) == Assign(init, last.0, last.1);
    }
  }

  // ---------------------------------------------------------------------
  // GitHub

  datatype PullRequestLabel = PullRequestLabel(name: string, color: string)

  datatype PullRequestReviewer = PullRequestReviewer(name: string, association: string)

  /** A pull request (digit-only id) or a bare commit (any other id). */
  datatype TestCandidate = TestCandidate(
    id: string,
    title: string,
    url: string,
    user: string,
    body: string,
    labels: seq<PullRequestLabel>,
    reviewers: seq<PullRequestReviewer>)

  /** `TestCandidate(id=…, title=…, url=…)` with the model's defaults. */
  function BareCandidate(id: string, title: string, url: string): (c: TestCandidate)
    ensures c.id == id && c.title == title && c.url == url
    ensures c.user == "" && c.body == "" && c.labels == [] && c.reviewers == []
  {
    TestCandidate(id, title, url, "", "", [], [])
  }

  function LabelNames(labels: seq<PullRequestLabel>): (r: set<string>)
    ensures forall n :: n in r <==> exists k :: 0 <= k < |labels| && labels[k].name == n
  {
    set k | 0 <= k < |labels| :: labels[k].name
  }

  // ---------------------------------------------------------------------
  // Configuration

  /** `jira_statuses: list[str] | dict[str, str]`. */
  datatype JiraStatuses = StatusList(names: seq<string>) | StatusMap(pairs: seq<(string, string)>)

  datatype TeamConfig = TeamConfig(
    jiraProject: string,
    jiraIssueType: string,
    jiraStatuses: JiraStatuses,
    jiraComponent: string,
    githubTeam: string,
    githubLabels: seq<string>,
    excludeMembers: seq<string>)

  datatype RepoConfigData = RepoConfigData(
    globalConfigSource: string,
    qaStatuses: seq<string>,
    teams: seq<(string, TeamConfig)>,
    ignoredLabels: seq<string>,
    path: string)

  /** What the validators of `RepoConfig` establish: at least two QA
      statuses, at least one team, and (being a dict) distinct team names. */
  ghost predicate WellFormedRepo(c: RepoConfigData) {
    |c.qaStatuses| >= 2 && |c.teams| > 0 && DistinctKeys(c.teams)
  }

  type RepoConfig = c: RepoConfigData | WellFormedRepo(c)
    witness RepoConfigData("", ["", ""],
      [("", TeamConfig("", "", StatusList([]), "", "", [], []))], [], "")

  /** `RepoConfig` validation: `qa_statuses` needs two entries and `teams`
      one; otherwise the configuration is rejected with a message. */
  function ValidateRepo(c: RepoConfigData): (r: Result<RepoConfig, string>)
    requires DistinctKeys(c.teams)
    ensures r.Ok? <==> |c.qaStatuses| >= 2 && |c.teams| > 0
    ensures r.Ok? ==> r.value == c
  {
    if |c.qaStatuses| < 2 then Result<RepoConfig, string>.Err("qa_statuses: list should have at least 2 items")
    else if |c.teams| == 0 then Result<RepoConfig, string>.Err("teams: must have at least one team")
    else Result<RepoConfig, string>.Ok(c)
  }

  /** `repo_config.teams[team]` for a configured team. */
  function TeamOf(repo: RepoConfig, team: string): TeamConfig
    requires HasKey(repo.teams, team)
  {
    Lookup(repo.teams, team).value
  }

  // ---------------------------------------------------------------------
  // Jira

  datatype Status = Status(id: string, name: string)

  datatype Assignee = Assignee(id: string, name: string, timeZone: string)

  /** `updated` is an abstract timestamp. */
  datatype JiraIssue = JiraIssue(
    key: string,
    project: string,
    issueType: string,
    status: Status,
    assignee: Option<Assignee>,
    description: string,
    labels: seq<string>,
    summary: string,
    updated: int,
    components: seq<string>)

  /** `coerce_description`: `v or ''`. */
  function CoerceDescription(v: Option<string>): (r: string)
    ensures v.None? ==> r == ""
    ensures v.Some? ==> r == v.value
  {
    match v
    case None => ""
    case Some(s) => if s == "" then "" else s
  }
}
