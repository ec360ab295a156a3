/** `GitHubRepository` (src/ddqa/utils/github.py): the repository's GitHub
    identity, its team rosters, the test candidate of each commit and the
    retrying GET request. Its private cache routines are the ones of the
    GitHub cache, over the same layout; only the configuration file sits one
    level higher, directly below the organisation. Responses are inputs: the
    decoded search results, reviews and team members the requests return. */
module GitHubRepo {
  import opened Wrappers
  import opened Text
  import opened Models
  import opened CacheStore
  import opened GitHubCaching
  import opened Retry
  import JsonValues
  import Git

  // ---------------------------------------------------------------------
  // Repository identity

  const HOST: string := "github.com"

  /** `repo_id`: the text after the first `github.com`, without the one
      separator character that follows it and without a final `.git`; a
      remote without `github.com` raises (the split has no second part). */
  function RepoId(remote: string): (r: Result<string, string>)
    ensures r.Err? <==> FindFirst(remote, HOST).None?
  {
    match FindFirst(remote, HOST)
    case None => Err("list index out of range")
    case Some(i) =>
      var rest := remote[i + |HOST|..];
      Ok(RemoveSuffix(if rest == [] then [] else rest[1..], ".git"))
  }

  /** `org`: the part of the repository id before the first `/`. */
  function Org(id: string): string { PartitionHead(id, '/') }

  /** `repo_name`: the part after the first `/`. */
  function RepoName(id: string): string { PartitionTail(id, '/') }

  /** A prefix without the letter `g` cannot hold or start `github.com`. */
  lemma HostFirstAfter(prefix: string, rest: string)
    requires forall k :: 0 <= k < |prefix| ==> prefix[k] != 'g'
    ensures FindFirst(prefix + HOST + rest, HOST) == Some(|prefix|)
  {
    var s := prefix + HOST + rest;
    assert s[|prefix|..|prefix| + |HOST|] == HOST;
    assert OccursAt(s, HOST, |prefix|);
    forall k | 0 <= k < |prefix|
      ensures !OccursAt(s, HOST, k)
    {
      assert s[k] == prefix[k];
    }
  }

  /** Both remote forms, `https://github.com/<org>/<name>.git` and
      `<user>@github.com:<org>/<name>.git`, give `<org>/<name>`, whose
      organisation and name are read back. */
  lemma RepoIdOfRemote(prefix: string, sep: char, org: string, name: string)
    requires forall k :: 0 <= k < |prefix| ==> prefix[k] != 'g'
    requires '/' !in org
    ensures RepoId(prefix + HOST + [sep] + org + "/" + name + ".git") == Ok(org + "/" + name)
    ensures Org(org + "/" + name) == org && RepoName(org + "/" + name) == name
  {
    var tail := [sep] + org + "/" + name + ".git";
    var remote := prefix + HOST + tail;
    assert remote == prefix + HOST + [sep] + org + "/" + name + ".git";
    HostFirstAfter(prefix, tail);
    assert remote[|prefix| + |HOST|..] == tail;
    assert tail[1..] == (org + "/" + name) + ".git";
    var id := org + "/" + name;
    assert id[|org|] == '/';
    assert IndexOf(id, '/') == |org|;
    assert id[..|org|] == org && id[|org| + 1..] == name;
  }

  /** Without a `/` the whole id is the organisation and the name is empty. */
  lemma PartitionWithoutSlash(id: string)
    requires '/' !in id
    ensures Org(id) == id && RepoName(id) == ""
  {
  }

  /** The layout the repository's cache routines use: the repository
      directory `<cache>/github/<org>/<name>` and the organisation's
      configuration file `<cache>/github/<org>/config.json`. */
  function RepoLayout(cacheDir: Path, id: string): (l: Layout)
    ensures l.Separate()
  {
    var l := Layout(cacheDir + ["github", Org(id), RepoName(id)], cacheDir + ["github", Org(id), "config.json"]);
    assert !Under(l.configFile, l.Commits()) && !Under(l.configFile, l.PullRequests()) && !Under(l.configFile, l.TeamMembers()) by {
      assert |l.configFile| < |l.Commits()|;
    }
    l
  }

  function CommitUrl(id: string, hash: string): string {
    "https://github.com/" + id + "/commit/" + hash
  }

  function PullRequestUrl(id: string, number: nat): string {
    "https://github.com/" + id + "/pull/" + NatToString(number)
  }

  // ---------------------------------------------------------------------
  // Team members

  /** One entry of the team-members response. */
  datatype TeamUser = TeamUser(login: string, kind: string)

  /** The logins of the users of type `User` (bots are dropped), in
      response order. */
  function UserLogins(users: seq<TeamUser>): (r: seq<string>)
    ensures |r| <= |users|
    ensures forall x :: x in r <==> exists k :: 0 <= k < |users| && users[k].kind == "User" && users[k].login == x
  {
    if users == [] then []
    else
      var rest := UserLogins(users[1..]);
      assert forall k :: 1 <= k < |users| ==> users[k] == users[1..][k - 1];
      (if users[0].kind == "User" then [users[0].login] else []) + rest
  }

  /** The logins of concatenated responses are the logins of each, in
      order: the file lists the logins in response order. */
  lemma {:induction false} UserLoginsAppend(a: seq<TeamUser>, b: seq<TeamUser>)
    ensures UserLogins(a + b) == UserLogins(a) + UserLogins(b)
  {
    if a == [] {
      assert a + b == b;
    } else {
      var head := if a[0].kind == "User" then [a[0].login] else [];
      assert (a + b)[0] == a[0] && (a + b)[1..] == a[1..] + b;
      assert UserLogins(a + b) == head + UserLogins(a[1..] + b);
      UserLoginsAppend(a[1..], b);
      assert UserLogins(a) == head + UserLogins(a[1..]);
    }
  }

  /** One user contributes its login exactly when it is of type `User`. */
  lemma UserLoginsOne(u: TeamUser)
    ensures UserLogins([u]) == if u.kind == "User" then [u.login] else []
  {
  }

  // ---------------------------------------------------------------------
  // Candidates

  /** The first item of the search response. */
  datatype PullRequestItem = PullRequestItem(
    number: nat,
    title: string,
    user: string,
    labels: seq<PullRequestLabel>,
    body: Option<string>)

  /** One review of a pull request. */
  datatype Review = Review(login: string, association: string)

  /** Each review as a login and its lowercased association. */
  function ReviewPairs(reviews: seq<Review>): (r: seq<(string, string)>)
    ensures |r| == |reviews|
    ensures forall k :: 0 <= k < |reviews| ==> r[k] == (reviews[k].login, Lower(reviews[k].association))
  {
    seq(|reviews|, k requires 0 <= k < |reviews| => (reviews[k].login, Lower(reviews[k].association)))
  }

  /** The deduplicated reviewers: the dictionary from login to lowercased
      association, as reviewer records. */
  function Reviewers(reviews: seq<Review>): (r: seq<PullRequestReviewer>)
    ensures var d := DictOf(ReviewPairs(reviews));
      |r| == |d| && forall k :: 0 <= k < |d| ==> r[k] == PullRequestReviewer(d[k].0, d[k].1)
  {
    var d := DictOf(ReviewPairs(reviews));
    seq(|d|, k requires 0 <= k < |d| => PullRequestReviewer(d[k].0, d[k].1))
  }

  /** The logins of reviewer records, in order. */
  function Names(r: seq<PullRequestReviewer>): (names: seq<string>)
    ensures |names| == |r|
    ensures forall k :: 0 <= k < |r| ==> names[k] == r[k].name
  {
    seq(|r|, k requires 0 <= k < |r| => r[k].name)
  }

  /** The reviewer logins are the keys of the dictionary they come from. */
  lemma ReviewerNamesAreKeys(reviews: seq<Review>)
    ensures Names(Reviewers(reviews)) == KeysOf(DictOf(ReviewPairs(reviews)))
  {
  }

  /** One reviewer per login, in the order the logins first reviewed, with
      the lowercased association of that login's last review. */
  lemma ReviewersDeduplicated(reviews: seq<Review>)
    ensures var r := Reviewers(reviews);
      forall i, j :: 0 <= i < j < |r| ==> r[i].name != r[j].name
    ensures var ps := ReviewPairs(reviews); var r := Reviewers(reviews);
      forall login :: (exists k :: 0 <= k < |r| && r[k].name == login) <==> HasKey(ps, login)
    ensures var ps := ReviewPairs(reviews); var r := Reviewers(reviews);
      forall k :: 0 <= k < |r| ==> Lookup(ps, r[k].name) == Some(r[k].association)
    ensures OrderedByFirst(Names(Reviewers(reviews)), KeysOf(ReviewPairs(reviews)))
  {
    ReviewersDistinctKnown(reviews);
    ReviewersLast(reviews);
    ReviewerNamesAreKeys(reviews);
    DictOfOrder(ReviewPairs(reviews));
  }

  lemma ReviewersDistinctKnown(reviews: seq<Review>)
    ensures var r := Reviewers(reviews);
      forall i, j :: 0 <= i < j < |r| ==> r[i].name != r[j].name
    ensures var ps := ReviewPairs(reviews); var r := Reviewers(reviews);
      forall login :: (exists k :: 0 <= k < |r| && r[k].name == login) <==> HasKey(ps, login)
  {
    var ps := ReviewPairs(reviews);
    var d := DictOf(ps);
    var r := Reviewers(reviews);
    DictOfContents(ps);
    forall login
      ensures (exists k :: 0 <= k < |r| && r[k].name == login) <==> HasKey(ps, login)
    {
      if HasKey(d, login) {
        var k :| 0 <= k < |KeysOf(d)| && KeysOf(d)[k] == login;
        assert r[k].name == login;
      }
    }
  }

  lemma ReviewersLast(reviews: seq<Review>)
    ensures var ps := ReviewPairs(reviews); var r := Reviewers(reviews);
      forall k :: 0 <= k < |r| ==> Lookup(ps, r[k].name) == Some(r[k].association)
  {
    var ps := ReviewPairs(reviews);
    var d := DictOf(ps);
    var r := Reviewers(reviews);
    DictOfContents(ps);
    forall k | 0 <= k < |r|
      ensures Lookup(ps, r[k].name) == Some(r[k].association)
    {
      LookupAt(d, k);
    }
  }

  /** `'\n'.join(body.splitlines())`, or the default `''` for a null body. */
  function NormalizedBody(body: Option<string>): (r: string)
    ensures forall k :: 0 <= k < |r| ==> r[k] != '\r'
  {
    match body
    case None => ""
    case Some(b) =>
      SplitLinesHaveNoBreaks(b);
      JoinLinesHasNoCarriageReturn(SplitLines(b));
      Join(SplitLines(b), "\n")
  }

  /** The candidate of a pull request found for a commit. */
  function PullRequestCandidate(id: string, item: PullRequestItem, reviews: seq<Review>): (c: TestCandidate)
    ensures c.id == NatToString(item.number) && IsDigits(c.id)
    ensures c.url == PullRequestUrl(id, item.number)
    ensures c.title == item.title && c.user == item.user && c.labels == item.labels
    ensures c.body == NormalizedBody(item.body) && c.reviewers == Reviewers(reviews)
  {
    TestCandidate(NatToString(item.number), item.title, PullRequestUrl(id, item.number), item.user,
      NormalizedBody(item.body), item.labels, Reviewers(reviews))
  }

  // ---------------------------------------------------------------------
  // The retrying GET

  /** What `__api_get` does with one attempt: a 403 whose
      `X-RateLimit-Remaining` is `0` waits until `X-RateLimit-Reset` (plus a
      second) without touching the backoff; a missing header or an
      unreadable reset raises like any other error; otherwise a response
      that passes `check_status` is returned and any other fails. */
  function GitHubStep(a: Attempt, parseFloat: string -> Option<real>): Step {
    match a
    case Raised(_) => Failure
    case Got(r, clock) =>
      if r.status == 403 && "x-ratelimit-remaining" !in r.headers then Failure
      else if r.status == 403 && r.headers["x-ratelimit-remaining"] == "0" then
        if "x-ratelimit-reset" !in r.headers then Failure
        else
          match parseFloat(r.headers["x-ratelimit-reset"])
          case None => Failure
          case Some(reset) => Pause(reset - clock + 1.0)
      else if Passes(r) then Done(r)
      else Failure
  }

  function GitHubSteps(attempts: seq<Attempt>, parseFloat: string -> Option<real>): (s: seq<Step>)
    ensures |s| == |attempts|
    ensures forall k :: 0 <= k < |attempts| ==> s[k] == GitHubStep(attempts[k], parseFloat)
  {
    seq(|attempts|, k requires 0 <= k < |attempts| => GitHubStep(attempts[k], parseFloat))
  }

  /** Only a response that passed `check_status` is ever returned, and a
      rate-limited 403 never is. */
  lemma GitHubStepDone(a: Attempt, parseFloat: string -> Option<real>)
    ensures GitHubStep(a, parseFloat).Done? ==>
      a.Got? && GitHubStep(a, parseFloat).response == a.response && Passes(a.response) && a.response.status != 403
  {
  }

  /** `__api_get`: the response returned, if the given attempts reach one,
      and the seconds waited before each retry. */
  method ApiGet(attempts: seq<Attempt>, parseFloat: string -> Option<real>) returns (r: Option<Response>, waits: seq<real>)
    ensures (r, waits) == Run(GitHubSteps(attempts, parseFloat), 2)
  {
    ghost var steps := GitHubSteps(attempts, parseFloat);
    var retryWait: nat := 2;
    waits := [];
    var i := 0;
    ResumeStart(steps);
    while i < |attempts|
      invariant 0 <= i <= |attempts|
      invariant Run(steps, 2) == Resume(steps, i, retryWait, waits)
    {
      ResumeStep(steps, i, retryWait, waits);
      var step := GitHubStep(attempts[i], parseFloat);
      i := i + 1;
      match step
      case Done(response) =>
        return Some(response), waits;
      case Pause(seconds) =>
        waits := waits + [seconds];
      case Failure =>
        waits := waits + [retryWait as real];
        retryWait := retryWait * 2;
    }
    ResumeEnd(steps, retryWait, waits);
    r := None;
  }

  /** The waits before a returned response: the server's reset wait after a
      rate-limited attempt, and otherwise 2, 4, 8, ... seconds, doubling
      only on failures. */
  lemma ApiGetWaits(attempts: seq<Attempt>, parseFloat: string -> Option<real>)
    ensures var steps := GitHubSteps(attempts, parseFloat);
      var (r, ws) := Run(steps, 2);
      && |ws| <= |attempts|
      && (r.Some? ==> |ws| < |attempts| && attempts[|ws|].Got? && attempts[|ws|].response == r.value && Passes(r.value))
      && (r.None? ==> |ws| == |attempts|)
      && (forall k :: 0 <= k < |ws| ==> !steps[k].Done?)
      && (forall k :: 0 <= k < |ws| ==> ws[k] == if steps[k].Pause? then steps[k].seconds else Pow2(1 + Failures(steps[..k])) as real)
  {
    var steps := GitHubSteps(attempts, parseFloat);
    RunCharacterised(steps, 1);
    var (r, ws) := Run(steps, 2);
    if r.Some? {
      GitHubStepDone(attempts[|ws|], parseFloat);
    }
  }

  // ---------------------------------------------------------------------
  // The repository object

  class GitHubRepository {
    const repoId: string
    const cacheDir: Path
    /** The cache routines over the repository's layout. */
    const cache: GitHubCache

    ghost predicate Valid()
      reads this, cache, cache.store
    {
      cache.Valid() && cache.layout == RepoLayout(cacheDir, repoId)
    }

    constructor(repoId: string, cacheDir: Path, store: FileStore)
      requires WellLaidOut(RepoLayout(cacheDir, repoId), store.files)
      ensures this.repoId == repoId && this.cacheDir == cacheDir && cache.store == store
      ensures Valid()
    {
      this.repoId := repoId;
      this.cacheDir := cacheDir;
      this.cache := new GitHubCache(RepoLayout(cacheDir, repoId), store);
    }

    /** `load_global_config(source)`. */
    function LoadGlobalConfig(source: string): (r: JsonValues.Json)
      reads this, cache, cache.store
      ensures cache.layout.configFile !in cache.store.files ==> r == JsonValues.EmptyObject
    {
      cache.LoadGlobalConfigIn(source)
    }

    /** `save_global_config(source, c)`. */
    method SaveGlobalConfig(source: string, config: JsonValues.Json)
      requires Valid()
      modifies cache.store
      ensures Valid()
      ensures cache.store.files == GitHubCaching.SaveGlobalConfig(cache.layout, old(cache.store.files), source, config)
    {
      cache.SaveGlobalConfigIn(source, config);
    }

    /** `get_team_members(team, refresh)`: the roster is requested only when
        asked to refresh or when no file exists; a fetched roster overwrites
        the file with the `User` logins, one per line; the result is the set
        of the file's lines. */
    method GetTeamMembers(team: string, refresh: bool, users: seq<TeamUser>) returns (members: set<string>, requested: bool)
      requires Valid()
      modifies cache.store
      ensures Valid()
      ensures requested <==> refresh || GitHubCaching.GetTeamMembers(cache.layout, old(cache.store.files), team).None?
      ensures requested ==> cache.store.files == SaveTeamMembers(cache.layout, old(cache.store.files), team, UserLogins(users))
      ensures !requested ==> cache.store.files == old(cache.store.files)
      ensures Some(members) == GitHubCaching.GetTeamMembers(cache.layout, cache.store.files, team)
      ensures requested && Linewise(SetOf(UserLogins(users))) ==> members == SetOf(UserLogins(users))
    {
      var l := cache.layout;
      var p := l.TeamMembersFile(team);
      requested := refresh || !(p in cache.store.files && cache.store.files[p].TextDoc?);
      if requested {
        var logins := UserLogins(users);
        WriteTeamMembersKeepsLayout(l, cache.store.files, team, Join(logins, "\n"));
        cache.store.files := cache.store.files[p := TextDoc(Join(logins, "\n"))];
        if Linewise(SetOf(logins)) {
          TeamMembersRoundTrip(l, old(cache.store.files), team, logins);
        }
      }
      members := SetOf(SplitLines(cache.store.files[p].text));
    }

    /** `get_candidate(commit)`: a commit already cached is answered from
        the cache without any request; otherwise the pull request search
        decides between a bare commit candidate, the cached candidate of a
        duplicate pull request (only a marker is written, reviews are not
        requested), and a new pull request candidate with its reviewers. */
    method GetCandidate(commit: Git.GitCommit, items: seq<PullRequestItem>, reviews: seq<Review>)
      returns (c: TestCandidate, searched: bool, reviewsRequested: bool)
      requires Valid()
      modifies cache.store
      ensures Valid()
      ensures reviewsRequested ==> searched
      ensures !searched ==> Some(c) in FromCommit(cache.layout, old(cache.store.files), commit.hash)
      ensures !searched ==> cache.store.files == old(cache.store.files)
      ensures searched ==> None in FromCommit(cache.layout, old(cache.store.files), commit.hash)
      ensures searched && items == [] ==>
        c == BareCandidate(commit.hash, commit.subject, CommitUrl(repoId, commit.hash)) && !reviewsRequested &&
        cache.store.files == CacheCandidateData(cache.layout, old(cache.store.files), commit.hash, c)
      ensures searched && items != [] ==>
        var number := NatToString(items[0].number);
        match FromPullRequestNumber(cache.layout, old(cache.store.files), number)
        case Some(cached) =>
          c == cached && !reviewsRequested &&
          cache.store.files == DuplicateFromPullRequestNumber(cache.layout, old(cache.store.files), commit.hash, number)
        case None =>
          c == PullRequestCandidate(repoId, items[0], reviews) && reviewsRequested &&
          cache.store.files == CacheCandidateData(cache.layout, old(cache.store.files), commit.hash, c)
      ensures Entries(old(cache.store.files), cache.layout.CommitDir(commit.hash)) == {} ==>
        FromCommit(cache.layout, cache.store.files, commit.hash) == {Some(c)}
    {
      ghost var before := cache.store.files;
      var cached := cache.FromCommitIn(commit.hash);
      if cached.Some? {
        ghost var dir := cache.layout.CommitDir(commit.hash);
        assert Entries(before, dir) != {};
        return cached.value, false, false;
      }
      searched := true;
      if items == [] {
        c := BareCandidate(commit.hash, commit.subject, CommitUrl(repoId, commit.hash));
        cache.CacheCandidateDataIn(commit.hash, c);
        reviewsRequested := false;
        CacheRoundTripWhenFresh(cache.layout, before, commit.hash, c);
        return;
      }
      var item := items[0];
      var number := NatToString(item.number);
      var duplicate := FromPullRequestNumber(cache.layout, cache.store.files, number);
      if duplicate.Some? {
        cache.DuplicateFromPullRequestNumberIn(commit.hash, number);
        if Entries(before, cache.layout.CommitDir(commit.hash)) == {} {
          DuplicateRoundTrip(cache.layout, before, commit.hash, number);
        }
        return duplicate.value, true, false;
      }
      c := PullRequestCandidate(repoId, item, reviews);
      reviewsRequested := true;
      cache.CacheCandidateDataIn(commit.hash, c);
      CacheRoundTripWhenFresh(cache.layout, before, commit.hash, c);
    }
  }

  lemma CacheRoundTripWhenFresh(l: Layout, files: map<Path, Doc>, hash: string, data: TestCandidate)
    ensures Entries(files, l.CommitDir(hash)) == {} ==>
      FromCommit(l, CacheCandidateData(l, files, hash, data), hash) == {Some(data)}
  {
    if Entries(files, l.CommitDir(hash)) == {} {
      CacheRoundTrip(l, files, hash, data);
    }
  }
}
