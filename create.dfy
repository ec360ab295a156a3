/** The candidate-creation screen (src/ddqa/screens/create.py) without its
    widgets: each candidate's default team assignments, the listing of the
    resolved candidates with duplicate pull requests skipped, the switches
    that change an assignment, and the creation pass that keeps the
    assigned candidates and picks an assignee per assigned team.

    The resolved candidates (`get_candidate` per commit), the team rosters
    (`get_team_members`) and where issue creation raises are inputs. */
module CreateScreen {
  import opened Wrappers
  import opened Text
  import opened Models

  // ---------------------------------------------------------------------
  // One candidate

  /** Some label of the candidate is in `names`: the intersection of the
      candidate's label names with `names` is not empty. */
  predicate AnyLabelIn(candidate: TestCandidate, names: seq<string>) {
    exists k :: 0 <= k < |candidate.labels| && candidate.labels[k].name in names
  }

  /** `Candidate.__init__`: for each team in order, whether the candidate
      goes to it by default. */
  function DefaultAssignments(candidate: TestCandidate, repo: RepoConfig): (r: seq<(string, bool)>)
    ensures KeysOf(r) == KeysOf(repo.teams)
  {
    seq(|repo.teams|, k requires 0 <= k < |repo.teams| => (repo.teams[k].0, AssignedByDefault(candidate, repo, k)))
  }

  /** The default switch of team `k`: off when a label is ignored, on when
      a label is one of the team's. */
  predicate AssignedByDefault(candidate: TestCandidate, repo: RepoConfig, k: nat)
    requires k < |repo.teams|
  {
    if AnyLabelIn(candidate, repo.ignoredLabels) then false else AnyLabelIn(candidate, repo.teams[k].1.githubLabels)
  }

  /** A team is assigned by default exactly when one of the candidate's
      labels is among the team's labels and none is an ignored label. */
  lemma DefaultAssignmentRule(candidate: TestCandidate, repo: RepoConfig, k: nat)
    requires k < |repo.teams|
    ensures DefaultAssignments(candidate, repo)[k].1 <==>
      (exists n :: n in LabelNames(candidate.labels) && n in repo.teams[k].1.githubLabels) &&
      !(exists n :: n in LabelNames(candidate.labels) && n in repo.ignoredLabels)
  {
    assert DefaultAssignments(candidate, repo)[k].1 == AssignedByDefault(candidate, repo, k);
    forall names: seq<string>
      ensures AnyLabelIn(candidate, names) <==> exists n :: n in LabelNames(candidate.labels) && n in names
    {
      if exists n :: n in LabelNames(candidate.labels) && n in names {
        var n :| n in LabelNames(candidate.labels) && n in names;
        var j :| 0 <= j < |candidate.labels| && candidate.labels[j].name == n;
      }
    }
  }

  /** `assigned`: some team is assigned. */
  predicate Assigned(assignments: seq<(string, bool)>) {
    exists k :: 0 <= k < |assignments| && assignments[k].1
  }

  /** `status_indicator`. */
  function StatusIndicator(assignments: seq<(string, bool)>): (r: string)
    ensures r == "✓" <==> Assigned(assignments)
    ensures r == "" <==> !Assigned(assignments)
  {
    if Assigned(assignments) then "✓" else ""
  }

  /** A candidate with an ignored label is assigned to no team. */
  lemma IgnoredNeverAssigned(candidate: TestCandidate, repo: RepoConfig, name: string)
    requires name in LabelNames(candidate.labels) && name in repo.ignoredLabels
    ensures !Assigned(DefaultAssignments(candidate, repo))
  {
    var j :| 0 <= j < |candidate.labels| && candidate.labels[j].name == name;
    assert AnyLabelIn(candidate, repo.ignoredLabels);
  }

  /** A candidate is shown with `✓` exactly when one of its labels is
      among some team's labels and none is an ignored label. */
  lemma DefaultIndicator(candidate: TestCandidate, repo: RepoConfig)
    ensures StatusIndicator(DefaultAssignments(candidate, repo)) == "✓" <==>
      (exists k, n :: 0 <= k < |repo.teams| && n in LabelNames(candidate.labels) && n in repo.teams[k].1.githubLabels) &&
      !(exists n :: n in LabelNames(candidate.labels) && n in repo.ignoredLabels)
  {
    var d := DefaultAssignments(candidate, repo);
    assert |d| == |repo.teams|;
    forall k | 0 <= k < |repo.teams|
      ensures d[k].1 <==>
        (exists n :: n in LabelNames(candidate.labels) && n in repo.teams[k].1.githubLabels) &&
        !(exists n :: n in LabelNames(candidate.labels) && n in repo.ignoredLabels)
    {
      DefaultAssignmentRule(candidate, repo, k);
    }
  }

  /** A listed candidate: the model and its team switches. */
  datatype Candidate = Candidate(data: TestCandidate, assignments: seq<(string, bool)>)

  // ---------------------------------------------------------------------
  // Listing

  /** Candidate `i` is listed: a bare commit always is, a pull request only
      the first time its number comes up. */
  predicate FirstOfItsNumber(models: seq<TestCandidate>, i: nat)
    requires i < |models|
  {
    !IsDigits(models[i].id) || forall j :: 0 <= j < i ==> models[j].id != models[i].id
  }

  /** The models listed among the first `n`, in order. */
  function ListedUpTo(models: seq<TestCandidate>, n: nat): (r: seq<TestCandidate>)
    requires n <= |models|
    ensures |r| <= n
  {
    if n == 0 then []
    else ListedUpTo(models, n - 1) + (if FirstOfItsNumber(models, n - 1) then [models[n - 1]] else [])
  }

  /** The listed models, in order. */
  function ListedModels(models: seq<TestCandidate>): (r: seq<TestCandidate>)
    ensures |r| <= |models|
  {
    ListedUpTo(models, |models|)
  }

  /** No pull request number occurs twice. */
  predicate NumbersOnce(r: seq<TestCandidate>) {
    forall i, j :: 0 <= i < j < |r| && IsDigits(r[j].id) ==> r[i].id != r[j].id
  }

  /** Listing one more model appends it exactly when it is the first of
      its number. */
  lemma ListedUpToStep(models: seq<TestCandidate>, n: nat)
    requires 0 < n <= |models|
    ensures var r0 := ListedUpTo(models, n - 1); var r := ListedUpTo(models, n);
      && (FirstOfItsNumber(models, n - 1) ==> r == r0 + [models[n - 1]])
      && (!FirstOfItsNumber(models, n - 1) ==> r == r0)
  {
    assert ListedUpTo(models, n - 1) + [] == ListedUpTo(models, n - 1);
  }

  /** Each model listed among the first `n` is one of them. */
  lemma {:induction false} ListedFromModels(models: seq<TestCandidate>, n: nat)
    requires n <= |models|
    ensures var r := ListedUpTo(models, n);
      forall j :: 0 <= j < |r| ==> exists k :: 0 <= k < n && models[k] == r[j]
  {
    if n > 0 {
      ListedFromModels(models, n - 1);
      ListedUpToStep(models, n);
      var r0 := ListedUpTo(models, n - 1);
      var r := ListedUpTo(models, n);
      forall j | 0 <= j < |r|
        ensures exists k :: 0 <= k < n && models[k] == r[j]
      {
        if j < |r0| {
          var k :| 0 <= k < n - 1 && models[k] == r0[j];
          assert models[k] == r[j];
        } else {
          assert models[n - 1] == r[j];
        }
      }
    }
  }

  /** Every bare commit among the first `n` models is listed. */
  lemma {:induction false} BareCommitsListed(models: seq<TestCandidate>, n: nat)
    requires n <= |models|
    ensures var r := ListedUpTo(models, n);
      forall k :: 0 <= k < n && !IsDigits(models[k].id) ==> exists j :: 0 <= j < |r| && r[j] == models[k]
  {
    if n > 0 {
      BareCommitsListed(models, n - 1);
      ListedUpToStep(models, n);
      var r0 := ListedUpTo(models, n - 1);
      var r := ListedUpTo(models, n);
      forall k | 0 <= k < n && !IsDigits(models[k].id)
        ensures exists j :: 0 <= j < |r| && r[j] == models[k]
      {
        if k < n - 1 {
          var j :| 0 <= j < |r0| && r0[j] == models[k];
          assert r[j] == models[k];
        } else {
          assert r[|r| - 1] == models[k];
        }
      }
    }
  }

  /** Every id among the first `n` models is represented in the listing. */
  lemma {:induction false} IdsRepresented(models: seq<TestCandidate>, n: nat)
    requires n <= |models|
    ensures var r := ListedUpTo(models, n);
      forall k :: 0 <= k < n ==> exists j :: 0 <= j < |r| && r[j].id == models[k].id
  {
    if n > 0 {
      IdsRepresented(models, n - 1);
      ListedUpToStep(models, n);
      var r0 := ListedUpTo(models, n - 1);
      var r := ListedUpTo(models, n);
      forall k | 0 <= k < n
        ensures exists j :: 0 <= j < |r| && r[j].id == models[k].id
      {
        if k < n - 1 {
          var j :| 0 <= j < |r0| && r0[j].id == models[k].id;
          assert r[j].id == models[k].id;
        } else if FirstOfItsNumber(models, k) {
          assert r[|r| - 1].id == models[k].id;
        } else {
          var k' :| 0 <= k' < k && models[k'].id == models[k].id;
          var j :| 0 <= j < |r0| && r0[j].id == models[k'].id;
          assert r[j].id == models[k].id;
        }
      }
    }
  }

  /** No pull request number is listed twice among the first `n` models. */
  lemma {:induction false} NumbersListedOnce(models: seq<TestCandidate>, n: nat)
    requires n <= |models|
    ensures NumbersOnce(ListedUpTo(models, n))
  {
    if n > 0 {
      NumbersListedOnce(models, n - 1);
      ListedFromModels(models, n - 1);
      ListedUpToStep(models, n);
      var r0 := ListedUpTo(models, n - 1);
      var r := ListedUpTo(models, n);
      if FirstOfItsNumber(models, n - 1) {
        forall i, j | 0 <= i < j < |r| && IsDigits(r[j].id)
          ensures r[i].id != r[j].id
        {
          if j == |r| - 1 {
            assert r[i] == r0[i];
            var k :| 0 <= k < n - 1 && models[k] == r0[i];
          } else {
            assert r[i] == r0[i] && r[j] == r0[j];
          }
        }
      }
    }
  }

  /** The listed models are the resolved ones with each pull request kept
      once; a bare commit is never dropped. */
  lemma ListedModelsComplete(models: seq<TestCandidate>)
    ensures var r := ListedModels(models);
      forall j :: 0 <= j < |r| ==> exists k :: 0 <= k < |models| && models[k] == r[j]
    ensures var r := ListedModels(models);
      forall k :: 0 <= k < |models| && !IsDigits(models[k].id) ==> exists j :: 0 <= j < |r| && r[j] == models[k]
    ensures var r := ListedModels(models);
      forall k :: 0 <= k < |models| ==> exists j :: 0 <= j < |r| && r[j].id == models[k].id
    ensures NumbersOnce(ListedModels(models))
  {
    ListedFromModels(models, |models|);
    BareCommitsListed(models, |models|);
    IdsRepresented(models, |models|);
    NumbersListedOnce(models, |models|);
  }

  /** The number of models skipped as repeated pull requests. */
  function IgnoredCount(models: seq<TestCandidate>): nat {
    |models| - |ListedModels(models)|
  }

  /** Candidates built from models, each with its default assignments. */
  function Listing(ms: seq<TestCandidate>, repo: RepoConfig): (r: seq<Candidate>)
    ensures |r| == |ms|
    ensures forall k :: 0 <= k < |r| ==> r[k] == Candidate(ms[k], DefaultAssignments(ms[k], repo))
  {
    seq(|ms|, k requires 0 <= k < |ms| => Candidate(ms[k], DefaultAssignments(ms[k], repo)))
  }

  lemma ListingAppend(ms: seq<TestCandidate>, m: TestCandidate, repo: RepoConfig)
    ensures Listing(ms + [m], repo) == Listing(ms, repo) + [Candidate(m, DefaultAssignments(m, repo))]
  {
  }

  /** One more model in the listing: its candidate is appended exactly
      when it is the first of its number. */
  lemma ListingStep(models: seq<TestCandidate>, i: nat, repo: RepoConfig)
    requires i < |models|
    ensures FirstOfItsNumber(models, i) ==>
      Listing(ListedUpTo(models, i + 1), repo) ==
      Listing(ListedUpTo(models, i), repo) + [Candidate(models[i], DefaultAssignments(models[i], repo))]
    ensures !FirstOfItsNumber(models, i) ==>
      Listing(ListedUpTo(models, i + 1), repo) == Listing(ListedUpTo(models, i), repo)
  {
    if FirstOfItsNumber(models, i) {
      ListingAppend(ListedUpTo(models, i), models[i], repo);
    } else {
      assert ListedUpTo(models, i + 1) == ListedUpTo(models, i) + [];
    }
  }

  /** The candidates the listing holds once every model is resolved. */
  function ListedCandidates(models: seq<TestCandidate>, repo: RepoConfig): (r: seq<Candidate>)
    ensures |r| == |ListedModels(models)|
    ensures forall k :: 0 <= k < |r| ==> r[k].data == ListedModels(models)[k]
    ensures forall k :: 0 <= k < |r| ==> KeysOf(r[k].assignments) == KeysOf(repo.teams)
  {
    Listing(ListedModels(models), repo)
  }

  /** With `seen` the pull request numbers met before position `i`, the
      model at `i` is listed exactly when it is not a pull request met
      before, and `seen` grows by its number when it is a first pull
      request. */
  lemma SeenBefore(models: seq<TestCandidate>, i: nat, seen: set<string>)
    requires i < |models| && SeenUpTo(models, i, seen)
    ensures FirstOfItsNumber(models, i) <==> !(IsDigits(models[i].id) && models[i].id in seen)
    ensures IsDigits(models[i].id) && models[i].id !in seen ==> SeenUpTo(models, i + 1, seen + {models[i].id})
    ensures !(IsDigits(models[i].id) && models[i].id !in seen) ==> SeenUpTo(models, i + 1, seen)
  {
  }

  /** `seen` holds the pull request numbers of the first `i` models. */
  ghost predicate SeenUpTo(models: seq<TestCandidate>, i: nat, seen: set<string>)
    requires i <= |models|
  {
    forall id :: id in seen <==> IsDigits(id) && exists j :: 0 <= j < i && models[j].id == id
  }

  /** The positions, among the first `n` models, of the models listed, in
      order. */
  function ListedPositions(models: seq<TestCandidate>, n: nat): (r: seq<nat>)
    requires n <= |models|
    ensures |r| == |ListedUpTo(models, n)|
    ensures forall k :: 0 <= k < |r| ==>
      r[k] < n && FirstOfItsNumber(models, r[k]) && ListedUpTo(models, n)[k] == models[r[k]]
    ensures forall j, k :: 0 <= j < k < |r| ==> r[j] < r[k]
  {
    if n == 0 then []
    else ListedPositions(models, n - 1) + (if FirstOfItsNumber(models, n - 1) then [n - 1] else [])
  }

  /** Every listed model among the first `n` has its position recorded. */
  lemma {:induction false} ListedPositionsComplete(models: seq<TestCandidate>, n: nat)
    requires n <= |models|
    ensures forall p :: 0 <= p < n && FirstOfItsNumber(models, p) ==> p in ListedPositions(models, n)
  {
    if n > 0 {
      ListedPositionsComplete(models, n - 1);
      assert ListedPositions(models, n - 1) <= ListedPositions(models, n);
    }
  }

  /** The models skipped before position `p`: the loop's `ignored` when
      it reaches `p`. */
  function IgnoredBefore(models: seq<TestCandidate>, p: nat): nat
    requires p <= |models|
  {
    p - |ListedUpTo(models, p)|
  }

  /** Exactly `k` models are listed before the `k`-th listed one, so
      `pos - k` were skipped before it. */
  lemma {:induction false} ListedBeforePosition(models: seq<TestCandidate>, n: nat, k: nat)
    requires n <= |models| && k < |ListedPositions(models, n)|
    ensures |ListedUpTo(models, ListedPositions(models, n)[k])| == k
    ensures IgnoredBefore(models, ListedPositions(models, n)[k]) == ListedPositions(models, n)[k] - k
  {
    assert n > 0;
    var pos := ListedPositions(models, n - 1);
    if k < |pos| {
      ListedBeforePosition(models, n - 1, k);
      assert ListedPositions(models, n)[k] == pos[k];
    } else {
      assert ListedPositions(models, n)[k] == n - 1;
    }
  }

  /** Label `k`, shown when the `k`-th listed model among the first `n` is
      added, reads `k + 1 / total - ignored` with `ignored` the models
      skipped before it. */
  ghost predicate ProgressLabelsUpTo(progress: seq<(nat, nat)>, models: seq<TestCandidate>, n: nat)
    requires n <= |models|
  {
    var pos := ListedPositions(models, n);
    && |progress| == |pos|
    && forall k :: 0 <= k < |progress| ==> progress[k] == (k + 1, |models| - IgnoredBefore(models, pos[k]))
  }

  /** One label per listed model, as `__on_mount` shows them. */
  ghost predicate ProgressLabels(progress: seq<(nat, nat)>, models: seq<TestCandidate>) {
    ProgressLabelsUpTo(progress, models, |models|)
  }

  /** One more model: a listed one adds the label for the models skipped
      so far; a skipped one adds none. */
  lemma {:induction false} ProgressStep(progress: seq<(nat, nat)>, models: seq<TestCandidate>, i: nat)
    requires i < |models| && ProgressLabelsUpTo(progress, models, i)
    ensures FirstOfItsNumber(models, i) ==>
      ProgressLabelsUpTo(progress + [(|progress| + 1, |models| - IgnoredBefore(models, i))], models, i + 1)
    ensures !FirstOfItsNumber(models, i) ==> ProgressLabelsUpTo(progress, models, i + 1)
  {
    var pos := ListedPositions(models, i);
    var pos' := ListedPositions(models, i + 1);
    var first := FirstOfItsNumber(models, i);
    var next := if first then progress + [(|progress| + 1, |models| - IgnoredBefore(models, i))] else progress;
    assert pos' == pos + (if first then [i] else []);
    forall k | 0 <= k < |next|
      ensures next[k] == (k + 1, |models| - IgnoredBefore(models, pos'[k]))
    {
      if k < |progress| {
        assert pos'[k] == pos[k] && next[k] == progress[k];
      }
    }
    assert ProgressLabelsUpTo(next, models, i + 1);
  }

  /** Label `k` reads `k + 1 / t`, where `t` is the total less the `p - k`
      models skipped before the `k`-th listed one at position `p`, so
      `k + 1 <= t <= total`. */
  lemma {:induction false} ProgressBounds(progress: seq<(nat, nat)>, models: seq<TestCandidate>, k: nat)
    requires ProgressLabels(progress, models) && k < |progress|
    ensures var p := ListedPositions(models, |models|)[k];
      progress[k] == (k + 1, |models| - (p - k))
    ensures k + 1 <= progress[k].1 <= |models|
  {
    var pos := ListedPositions(models, |models|);
    ListedBeforePosition(models, |models|, k);
    assert progress[k] == (k + 1, |models| - IgnoredBefore(models, pos[k]));
    assert pos[k] < |models| && k <= pos[k];
  }

  /** `update_assignment_status`: the Create button is disabled exactly
      when no listed candidate is assigned. */
  function CreateDisabled(candidates: seq<Candidate>): (r: bool)
    ensures r <==> forall k :: 0 <= k < |candidates| ==> !Assigned(candidates[k].assignments)
  {
    !exists k :: 0 <= k < |candidates| && Assigned(candidates[k].assignments)
  }

  /** The eligible assignees for a team: the roster without the author and
      without any reviewer. */
  function Eligible(candidate: TestCandidate, roster: set<string>): (r: set<string>)
    ensures forall m :: m in r <==>
      m in roster && m != candidate.user && forall k :: 0 <= k < |candidate.reviewers| ==> candidate.reviewers[k].name != m
  {
    roster - {candidate.user} - set p | p in candidate.reviewers :: p.name
  }

  /** The assigned teams of a candidate, in team order. */
  function AssignedTeams(assignments: seq<(string, bool)>): (r: seq<string>)
    ensures forall t :: t in r <==> exists k :: 0 <= k < |assignments| && assignments[k].1 && assignments[k].0 == t
  {
    if assignments == [] then []
    else (if assignments[0].1 then [assignments[0].0] else []) + AssignedTeams(assignments[1..])
  }

  /** The assignee picked for a configured team: one of the eligible
      members, or '' when there is none. `roster` gives the members of a
      GitHub team. */
  ghost predicate GoodPick(data: TestCandidate, repo: RepoConfig, roster: string -> set<string>, pick: (string, string)) {
    HasKey(repo.teams, pick.0) &&
    var eligible := Eligible(data, roster(TeamOf(repo, pick.0).githubTeam));
    if eligible == {} then pick.1 == "" else pick.1 in eligible
  }

  /** The picks of a candidate: one per assigned team, in team order. */
  ghost predicate ValidPicks(c: Candidate, repo: RepoConfig, roster: string -> set<string>, picks: seq<(string, string)>) {
    && KeysOf(picks) == AssignedTeams(c.assignments)
    && forall k :: 0 <= k < |picks| ==> GoodPick(c.data, repo, roster, picks[k])
  }

  /** The candidates that some team is assigned to, in order. */
  function Kept(candidates: seq<Candidate>): (r: seq<Candidate>)
    ensures forall c :: c in r <==> c in candidates && Assigned(c.assignments)
    ensures |r| <= |candidates|
  {
    if candidates == [] then []
    else
      var init := Kept(candidates[..|candidates| - 1]);
      var last := candidates[|candidates| - 1];
      if Assigned(last.assignments) then init + [last] else init
  }

  /** The Create button is disabled exactly when creating would keep no
      candidate. */
  lemma CreateDisabledKeepsNone(candidates: seq<Candidate>)
    ensures CreateDisabled(candidates) <==> Kept(candidates) == []
  {
    if !CreateDisabled(candidates) {
      var k :| 0 <= k < |candidates| && Assigned(candidates[k].assignments);
      assert candidates[k] in Kept(candidates);
    } else {
      assert forall j :: 0 <= j < |Kept(candidates)| ==> Kept(candidates)[j] in candidates;
    }
  }

  /** The loading loop of `__on_mount` over the candidates resolved for
      the commits: a pull request number seen before is counted as ignored
      and skipped; every other candidate is listed at index `i - ignored`,
      with the progress label `index + 1 / total - ignored`. */
  method ListCandidates(models: seq<TestCandidate>, repo: RepoConfig)
    returns (listed: seq<Candidate>, ignored: nat, progress: seq<(nat, nat)>)
    ensures listed == ListedCandidates(models, repo)
    ensures ignored == IgnoredCount(models) && |listed| + ignored == |models|
    ensures |progress| == |listed|
    ensures ProgressLabels(progress, models)
  {
    listed := [];
    ignored := 0;
    progress := [];
    var processed: set<string> := {};
    var i := 0;
    while i < |models|
      invariant 0 <= i <= |models|
      invariant ListedState(models, repo, i, listed, ignored, progress, processed)
    {
      var model := models[i];
      if IsDigits(model.id) && model.id in processed {
        ListSkip(models, repo, i, listed, ignored, progress, processed);
        ignored := ignored + 1;
      } else {
        ghost var before := (listed, progress, processed);
        if IsDigits(model.id) {
          processed := processed + {model.id};
        }
        var index: nat := i - ignored;
        var shown: (nat, nat) := (index + 1, |models| - ignored);
        listed := listed + [Candidate(model, DefaultAssignments(model, repo))];
        progress := progress + [shown];
        ListKeep(models, repo, i, before.0, ignored, before.1, before.2, listed, progress, processed);
      }
      i := i + 1;
    }
  }

  /** What the loading loop has built after `i` models: the listing of the
      models listed so far, the count of the others, one progress label per
      listed candidate and the pull request numbers met. */
  ghost predicate ListedState(models: seq<TestCandidate>, repo: RepoConfig, i: nat, listed: seq<Candidate>, ignored: nat,
                              progress: seq<(nat, nat)>, processed: set<string>)
    requires i <= |models|
  {
    && listed == Listing(ListedUpTo(models, i), repo)
    && |listed| + ignored == i
    && |progress| == |listed|
    && ProgressLabelsUpTo(progress, models, i)
    && SeenUpTo(models, i, processed)
  }

  /** A pull request met before is skipped and counted. */
  lemma ListSkip(models: seq<TestCandidate>, repo: RepoConfig, i: nat, listed: seq<Candidate>, ignored: nat,
                 progress: seq<(nat, nat)>, processed: set<string>)
    requires i < |models| && ListedState(models, repo, i, listed, ignored, progress, processed)
    requires IsDigits(models[i].id) && models[i].id in processed
    ensures ListedState(models, repo, i + 1, listed, ignored + 1, progress, processed)
  {
    SeenBefore(models, i, processed);
    ListingStep(models, i, repo);
    ProgressStep(progress, models, i);
  }

  /** Any other model is listed with the next progress label. */
  lemma ListKeep(models: seq<TestCandidate>, repo: RepoConfig, i: nat, listed: seq<Candidate>, ignored: nat,
                 progress: seq<(nat, nat)>, processed: set<string>,
                 listed': seq<Candidate>, progress': seq<(nat, nat)>, processed': set<string>)
    requires i < |models| && ListedState(models, repo, i, listed, ignored, progress, processed)
    requires !(IsDigits(models[i].id) && models[i].id in processed)
    requires listed' == listed + [Candidate(models[i], DefaultAssignments(models[i], repo))]
    requires progress' == progress + [(i - ignored + 1, |models| - ignored)]
    requires processed' == if IsDigits(models[i].id) then processed + {models[i].id} else processed
    ensures ListedState(models, repo, i + 1, listed', ignored, progress', processed')
  {
    SeenBefore(models, i, processed);
    assert FirstOfItsNumber(models, i);
    ListingStep(models, i, repo);
    assert listed' == Listing(ListedUpTo(models, i + 1), repo);
    assert IgnoredBefore(models, i) == ignored by {
      assert |listed| == |ListedUpTo(models, i)|;
    }
    ProgressStep(progress, models, i);
    assert progress' == progress + [(|progress| + 1, |models| - IgnoredBefore(models, i))];
    assert ProgressLabelsUpTo(progress', models, i + 1);
    assert SeenUpTo(models, i + 1, processed');
  }

  /** `picks[k]` are valid picks for the `k`-th kept candidate. */
  ghost predicate PicksFor(kept: seq<Candidate>, repo: RepoConfig, roster: string -> set<string>, picks: seq<seq<(string, string)>>) {
    |picks| <= |kept| && forall k :: 0 <= k < |picks| ==> ValidPicks(kept[k], repo, roster, picks[k])
  }

  lemma PicksForSnoc(kept: seq<Candidate>, repo: RepoConfig, roster: string -> set<string>,
                     picks: seq<seq<(string, string)>>, p: seq<(string, string)>)
    requires PicksFor(kept, repo, roster, picks) && |picks| < |kept|
    requires ValidPicks(kept[|picks|], repo, roster, p)
    ensures PicksFor(kept, repo, roster, picks + [p])
  {
    forall k | 0 <= k < |picks| + 1
      ensures ValidPicks(kept[k], repo, roster, (picks + [p])[k])
    {
      if k < |picks| {
        assert (picks + [p])[k] == picks[k];
      }
    }
  }

  /** The creation loop of `create` over the kept candidates. */
  method CreatePass(kept: seq<Candidate>, repo: RepoConfig, roster: string -> set<string>, failure: Option<(nat, string)>)
    returns (picks: seq<seq<(string, string)>>, finished: bool, status: string)
    requires forall k :: 0 <= k < |kept| ==> KeysOf(kept[k].assignments) == KeysOf(repo.teams)
    ensures finished <==> failure.None? || failure.value.0 >= |kept|
    ensures |picks| == if finished then |kept| else failure.value.0 + 1
    ensures forall k :: 0 <= k < |picks| ==> ValidPicks(kept[k], repo, roster, picks[k])
    ensures status == if finished then "Finished" else failure.value.1
  {
    picks := [];
    var i := 0;
    while i < |kept|
      invariant 0 <= i <= |kept|
      invariant |picks| == i
      invariant failure.Some? ==> i <= failure.value.0
      invariant PicksFor(kept, repo, roster, picks)
    {
      var p := PickAssignees(kept[i], repo, roster);
      PicksForSnoc(kept, repo, roster, picks, p);
      picks := picks + [p];
      if failure.Some? && failure.value.0 == i {
        return picks, false, failure.value.1;
      }
      i := i + 1;
    }
    finished := true;
    status := "Finished";
  }

  /** The assignees of one candidate: `secrets.choice` of the sorted
      eligible members may return any one of them. */
  method PickAssignees(c: Candidate, repo: RepoConfig, roster: string -> set<string>) returns (picks: seq<(string, string)>)
    requires KeysOf(c.assignments) == KeysOf(repo.teams)
    ensures ValidPicks(c, repo, roster, picks)
  {
    picks := [];
    var i := 0;
    assert c.assignments[..0] == [];
    while i < |c.assignments|
      invariant 0 <= i <= |c.assignments|
      invariant PickedUpTo(c, repo, roster, picks, i)
    {
      var (team, chosen) := c.assignments[i];
      if chosen {
        assert team == KeysOf(repo.teams)[i];
        var eligible := Eligible(c.data, roster(TeamOf(repo, team).githubTeam));
        var assignee := "";
        if eligible != {} {
          assignee :| assignee in eligible;
        }
        var picks' := picks + [(team, assignee)];
        PickTake(c, repo, roster, picks, i, (team, assignee), picks');
        picks := picks';
      } else {
        PickSkip(c, repo, roster, picks, i);
      }
      i := i + 1;
    }
    assert c.assignments[..i] == c.assignments;
  }

  /** The picks so far cover the assigned teams among the first `i`
      switches, each with a good assignee. */
  ghost predicate PickedUpTo(c: Candidate, repo: RepoConfig, roster: string -> set<string>, picks: seq<(string, string)>, i: nat)
    requires i <= |c.assignments|
  {
    && KeysOf(picks) == AssignedTeams(c.assignments[..i])
    && forall k :: 0 <= k < |picks| ==> GoodPick(c.data, repo, roster, picks[k])
  }

  /** A switch that is off adds no pick. */
  lemma PickSkip(c: Candidate, repo: RepoConfig, roster: string -> set<string>, picks: seq<(string, string)>, i: nat)
    requires i < |c.assignments| && !c.assignments[i].1 && PickedUpTo(c, repo, roster, picks, i)
    ensures PickedUpTo(c, repo, roster, picks, i + 1)
  {
    assert c.assignments[..i + 1] == c.assignments[..i] + [c.assignments[i]];
    AssignedTeamsAppend(c.assignments[..i], c.assignments[i]);
  }

  /** A switch that is on adds the pick of its team. */
  lemma PickTake(c: Candidate, repo: RepoConfig, roster: string -> set<string>, picks: seq<(string, string)>, i: nat,
                 p: (string, string), picks': seq<(string, string)>)
    requires i < |c.assignments| && c.assignments[i].1 && PickedUpTo(c, repo, roster, picks, i)
    requires p.0 == c.assignments[i].0 && GoodPick(c.data, repo, roster, p)
    requires picks' == picks + [p]
    ensures PickedUpTo(c, repo, roster, picks', i + 1)
  {
    assert c.assignments[..i + 1] == c.assignments[..i] + [c.assignments[i]];
    AssignedTeamsAppend(c.assignments[..i], c.assignments[i]);
    KeysOfAppend(picks, p);
    forall k | 0 <= k < |picks| + 1 ensures GoodPick(c.data, repo, roster, (picks + [p])[k]) {
      if k < |picks| {
        assert (picks + [p])[k] == picks[k];
      }
    }
  }

  /** `d[0], d[1], ... = written` on a dictionary `d` keyed 0, 1, ...: the
      keys already present keep their place and take the new value, the
      others follow in order. */
  function WrittenFromZero<T>(present: seq<T>, written: seq<T>): (r: seq<T>)
    ensures |r| == if |written| < |present| then |present| else |written|
    ensures forall k :: 0 <= k < |written| ==> r[k] == written[k]
    ensures forall k :: |written| <= k < |present| ==> r[k] == present[k]
  {
    if |written| < |present| then written + present[|written|..] else written
  }

  class CandidateListing {
    const repo: RepoConfig
    const previousRef: string
    const currentRef: string
    /** `candidates`: keyed 0, 1, ... in listing order, hence a sequence. */
    var candidates: seq<Candidate>

    /** Every candidate has one switch per configured team, in team order. */
    ghost predicate Valid()
      reads this
    {
      forall k :: 0 <= k < |candidates| ==> KeysOf(candidates[k].assignments) == KeysOf(repo.teams)
    }

    constructor(repo: RepoConfig, previousRef: string, currentRef: string)
      ensures this.repo == repo && this.previousRef == previousRef && this.currentRef == currentRef
      ensures candidates == [] && Valid()
    {
      this.repo := repo;
      this.previousRef := previousRef;
      this.currentRef := currentRef;
      candidates := [];
    }

    /** `__on_mount` after the candidates are resolved: they are written
        under keys 0, 1, ... (over any candidates already there), and the
        status names the refs when nothing was listed and otherwise says
        whether creation is possible. */
    method Load(models: seq<TestCandidate>) returns (ignored: nat, progress: seq<(nat, nat)>, status: string)
      requires Valid()
      modifies this
      ensures Valid()
      ensures candidates == WrittenFromZero(old(candidates), ListedCandidates(models, repo))
      ensures ignored == IgnoredCount(models) && |ListedModels(models)| + ignored == |models|
      ensures |progress| == |ListedModels(models)|
      ensures ProgressLabels(progress, models)
      ensures ListedModels(models) == [] ==> status == previousRef + " -> " + currentRef
      ensures ListedModels(models) != [] ==>
        status == if CreateDisabled(candidates) then "No candidates assigned" else "Ready for creation"
    {
      var listed;
      listed, ignored, progress := ListCandidates(models, repo);
      candidates := WrittenFromZero(candidates, listed);
      if |listed| == 0 {
        status := previousRef + " -> " + currentRef;
      } else {
        status := if CreateDisabled(candidates) then "No candidates assigned" else "Ready for creation";
      }
    }

    /** `on_switch_changed`: the candidate under the cursor gets the
        switch's value for that team; the button, the sidebar status and
        the indicator are recomputed. */
    method SwitchChanged(cursor: nat, team: string, value: bool) returns (disabled: bool, status: string, indicator: string)
      requires Valid() && cursor < |candidates| && HasKey(repo.teams, team)
      modifies this
      ensures Valid()
      ensures |candidates| == |old(candidates)|
      ensures candidates[cursor] == old(candidates)[cursor].(assignments := Assign(old(candidates)[cursor].assignments, team, value))
      ensures forall k :: 0 <= k < |candidates| && k != cursor ==> candidates[k] == old(candidates)[k]
      ensures disabled == CreateDisabled(candidates)
      ensures status == if disabled then "No candidates assigned" else "Ready for creation"
      ensures indicator == StatusIndicator(candidates[cursor].assignments)
    {
      var c := candidates[cursor];
      assert HasKey(c.assignments, team);
      ghost var switched := Assign(c.assignments, team, value);
      assert KeysOf(switched) == KeysOf(repo.teams);
      candidates := candidates[cursor := c.(assignments := Assign(c.assignments, team, value))];
      forall k | 0 <= k < |candidates| ensures KeysOf(candidates[k].assignments) == KeysOf(repo.teams) {
        if k != cursor {
          assert candidates[k] == old(candidates)[k];
        }
      }
      disabled := CreateDisabled(candidates);
      status := if disabled then "No candidates assigned" else "Ready for creation";
      indicator := StatusIndicator(candidates[cursor].assignments);
      assert Valid();
    }

    /** `create`: the assigned candidates are kept, in order and re-keyed
        from 0; then, candidate by candidate, an assignee is picked for
        every assigned team and the issues are created. When creation
        raises for candidate `failure.value.0` the pass stops there with
        the exception's text as the status; only a pass without failure
        ends "Finished". */
    method Create(roster: string -> set<string>, failure: Option<(nat, string)>)
      returns (picks: seq<seq<(string, string)>>, finished: bool, status: string)
      requires Valid()
      modifies this
      ensures Valid()
      ensures candidates == Kept(old(candidates))
      ensures finished <==> failure.None? || failure.value.0 >= |candidates|
      ensures |picks| == if finished then |candidates| else failure.value.0 + 1
      ensures forall k :: 0 <= k < |picks| ==> ValidPicks(candidates[k], repo, roster, picks[k])
      ensures status == if finished then "Finished" else failure.value.1
    {
      var kept := FilterAssigned();
      forall k | 0 <= k < |kept| ensures KeysOf(kept[k].assignments) == KeysOf(repo.teams) {
        assert kept[k] in candidates;
      }
      candidates := kept;
      picks, finished, status := CreatePass(kept, repo, roster, failure);
    }

    /** The assigned candidates, in their order. */
    method FilterAssigned() returns (kept: seq<Candidate>)
      ensures kept == Kept(candidates)
    {
      kept := [];
      var i := 0;
      while i < |candidates|
        invariant 0 <= i <= |candidates|
        invariant kept == Kept(candidates[..i])
      {
        assert candidates[..i + 1][..i] == candidates[..i];
        if Assigned(candidates[i].assignments) {
          kept := kept + [candidates[i]];
        }
        i := i + 1;
      }
      assert candidates[..i] == candidates;
    }

  }

  lemma {:induction false} AssignedTeamsAppend(assignments: seq<(string, bool)>, a: (string, bool))
    ensures AssignedTeams(assignments + [a]) == AssignedTeams(assignments) + (if a.1 then [a.0] else [])
  {
    if assignments != [] {
      assert (assignments + [a])[1..] == assignments[1..] + [a];
      AssignedTeamsAppend(assignments[1..], a);
    } else {
      assert [a][1..] == [];
    }
  }

  /** Keeping the assigned candidates keeps their relative order: it
      distributes over concatenation. */
  lemma {:induction false} KeptAppend(a: seq<Candidate>, b: seq<Candidate>)
    ensures Kept(a + b) == Kept(a) + Kept(b)
    decreases |b|
  {
    if b == [] {
      assert a + b == a;
    } else {
      assert (a + b)[..|a + b| - 1] == a + b[..|b| - 1];
      KeptAppend(a, b[..|b| - 1]);
    }
  }
}
