/** `JiraClient` (src/ddqa/utils/jira.py): issue creation, the issue
    description, JQL search queries, paginated reads, the memo of workflow
    transitions, status updates and the retry policy of every request.

    Responses are inputs: the keys the server assigns to created issues,
    the pages of a paginated read, the transitions it lists, the outcomes
    of each attempt of a request. */
module JiraApi {
  import opened Wrappers
  import opened Text
  import opened Models
  import opened CacheStore
  import opened JiraCaching
  import opened Retry

  // ---------------------------------------------------------------------
  // Labels and URLs

  /** `construct_issue_url(key)`. */
  function IssueUrl(server: string, key: string): (r: string)
    ensures StartsWith(r, server) && EndsWith(r, key)
    ensures |r| == |server| + 7 + |key| && r[|server|..|server| + 7] == "browse/"
  {
    server + "browse/" + key
  }

  /** Free of spaces and of upper-case ASCII letters, as a label is. */
  predicate Plain(s: string) {
    forall k :: 0 <= k < |s| ==> s[k] != ' ' && !('A' <= s[k] <= 'Z')
  }

  lemma PrefixPlain()
    ensures Plain("ddqa-")
  {
    var p := "ddqa-";
    assert p[0] == 'd' && p[1] == 'd' && p[2] == 'q' && p[3] == 'a' && p[4] == '-';
  }

  /** Lowering and hyphenating leaves no space and no upper-case letter. */
  lemma HyphenatedPlain(s: string)
    ensures Plain(ReplaceChar(Lower(s), ' ', '-'))
  {
    var r := ReplaceChar(Lower(s), ' ', '-');
    forall k | 0 <= k < |r|
      ensures r[k] != ' ' && !('A' <= r[k] <= 'Z')
    {
      assert Lower(s)[k] == LowerChar(s[k]);
    }
  }

  /** Lowering and hyphenating changes nothing in a plain prefix. */
  lemma HyphenatedKeepsPrefix(p: string, t: string)
    requires Plain(p)
    ensures StartsWith(ReplaceChar(Lower(p + t), ' ', '-'), p)
  {
    var r := ReplaceChar(Lower(p + t), ' ', '-');
    forall k | 0 <= k < |p|
      ensures r[k] == p[k]
    {
      assert (p + t)[k] == p[k];
    }
    assert r[..|p|] == p;
  }

  /** `format_label(status)`: the stripped status behind `ddqa-`, lowered
      (ASCII letters only), each space turned into a hyphen. */
  function FormatLabel(status: string): (r: string)
    ensures StartsWith(r, "ddqa-") && Plain(r)
  {
    var s := "ddqa-" + Strip(status);
    PrefixPlain();
    HyphenatedKeepsPrefix("ddqa-", Strip(status));
    HyphenatedPlain(s);
    ReplaceChar(Lower(s), ' ', '-')
  }

  /** A status that is already stripped, lower-case and hyphenated
      becomes its label by the prefix alone. */
  lemma FormatLabelOfPlain(status: string)
    requires Strip(status) == status && Plain(status)
    ensures FormatLabel(status) == "ddqa-" + status
  {
    var s := "ddqa-" + status;
    PrefixPlain();
    forall k | 0 <= k < |s|
      ensures s[k] != ' ' && !('A' <= s[k] <= 'Z')
    {
      if k < 5 {
        assert s[k] == "ddqa-"[k];
      } else {
        assert s[k] == status[k - 5];
      }
    }
    LowerUnchanged(s);
    ReplaceCharUnchanged(s, ' ', '-');
  }

  // ---------------------------------------------------------------------
  // The issue description

  /** `id[:7]`. */
  function ShortId(id: string): (r: string)
    ensures |r| <= 7 && StartsWith(id, r)
    ensures |id| >= 7 ==> |r| == 7
    ensures |id| < 7 ==> r == id
  {
    if |id| <= 7 then id else id[..7]
  }

  /** `{{name}}` for each label, Jira's monospace markup. */
  function LabelMarkup(labels: seq<PullRequestLabel>): (r: seq<string>)
    ensures |r| == |labels|
    ensures forall k :: 0 <= k < |labels| ==> r[k] == "{{" + labels[k].name + "}}"
  {
    seq(|labels|, k requires 0 <= k < |labels| => "{{" + labels[k].name + "}}")
  }

  /** The link line: to the pull request for a digit-only id, to the commit
      (short hash) otherwise. */
  function LinkLine(c: TestCandidate): string {
    if IsDigits(c.id) then "Pull request: [#" + c.id + "|" + c.url + "]"
    else "Commit: [" + ShortId(c.id) + "|" + c.url + "]"
  }

  /** The metadata lines of `__construct_body`. */
  function MetadataLines(c: TestCandidate): (r: seq<string>)
    ensures |r| == 1 + (if c.user != "" then 1 else 0) + (if c.labels != [] then 1 else 0)
    ensures r[0] == LinkLine(c)
    ensures c.user != "" ==> r[1] == "Author: [" + c.user + "|https://github.com/" + c.user + "]"
    ensures c.labels != [] ==> r[|r| - 1] == "Labels: " + Join(LabelMarkup(c.labels), ", ")
  {
    [LinkLine(c)]
      + (if c.user != "" then ["Author: [" + c.user + "|https://github.com/" + c.user + "]"] else [])
      + (if c.labels != [] then ["Labels: " + Join(LabelMarkup(c.labels), ", ")] else [])
  }

  /** `__construct_body(candidate)`: the metadata lines, a blank line, and
      the body rewritten by `convert` (the link, header and code-fence
      rewrites to Jira markup). */
  function ConstructBody(c: TestCandidate, convert: string -> string): (r: string)
    ensures EndsWith(r, "\n\n" + convert(c.body))
    ensures StartsWith(r, LinkLine(c))
  {
    var lines := MetadataLines(c);
    assert Join(lines, "\n") == lines[0] + Join(lines, "\n")[|lines[0]|..];
    Join(lines, "\n") + "\n\n" + convert(c.body)
  }

  /** Fields free of line breaks, as one metadata line needs them. */
  predicate SingleLineFields(c: TestCandidate) {
    && NoLineBreak(c.id) && NoLineBreak(c.url) && NoLineBreak(c.user)
    && forall k :: 0 <= k < |c.labels| ==> NoLineBreak(c.labels[k].name)
  }

  lemma NoLineBreak3(a: string, b: string, c: string)
    requires NoLineBreak(a) && NoLineBreak(b) && NoLineBreak(c)
    ensures NoLineBreak(a + b + c)
  {
    NoLineBreakConcat(a, b);
    NoLineBreakConcat(a + b, c);
  }

  lemma LinkLineSingle(c: TestCandidate)
    requires SingleLineFields(c)
    ensures NoLineBreak(LinkLine(c))
  {
    if IsDigits(c.id) {
      NoLineBreak3(c.id, "|", c.url);
      NoLineBreak3("Pull request: [#", c.id + "|" + c.url, "]");
      assert LinkLine(c) == "Pull request: [#" + (c.id + "|" + c.url) + "]";
    } else {
      var id := ShortId(c.id);
      assert NoLineBreak(id) by {
        assert forall k :: 0 <= k < |id| ==> id[k] == c.id[k];
      }
      NoLineBreak3(id, "|", c.url);
      NoLineBreak3("Commit: [", id + "|" + c.url, "]");
      assert LinkLine(c) == "Commit: [" + (id + "|" + c.url) + "]";
    }
  }

  lemma AuthorLineSingle(user: string)
    requires NoLineBreak(user)
    ensures NoLineBreak("Author: [" + user + "|https://github.com/" + user + "]")
  {
    NoLineBreak3("Author: [", user, "|https://github.com/");
    NoLineBreak3("Author: [" + user + "|https://github.com/", user, "]");
  }

  lemma LabelsLineSingle(labels: seq<PullRequestLabel>)
    requires forall k :: 0 <= k < |labels| ==> NoLineBreak(labels[k].name)
    ensures NoLineBreak("Labels: " + Join(LabelMarkup(labels), ", "))
  {
    var m := LabelMarkup(labels);
    forall k | 0 <= k < |m| ensures NoLineBreak(m[k]) {
      NoLineBreak3("{{", labels[k].name, "}}");
    }
    JoinNoLineBreak(m, ", ");
    NoLineBreakConcat("Labels: ", Join(m, ", "));
  }

  lemma MetadataLinesSingle(c: TestCandidate)
    requires SingleLineFields(c)
    ensures forall k :: 0 <= k < |MetadataLines(c)| ==> MetadataLines(c)[k] != [] && NoLineBreak(MetadataLines(c)[k])
  {
    var lines := MetadataLines(c);
    LinkLineSingle(c);
    if c.user != "" {
      AuthorLineSingle(c.user);
    }
    if c.labels != [] {
      LabelsLineSingle(c.labels);
    }
    forall k | 0 <= k < |lines| ensures lines[k] != [] && NoLineBreak(lines[k]) {
      if k == 0 {
        assert LinkLine(c)[0] in "PC";
      } else if k == 1 && c.user != "" {
        assert lines[1][0] == 'A';
      } else {
        assert lines[k][0] == 'L';
      }
    }
  }

  /** When the candidate's fields hold no line breaks, the metadata section
      reads back line by line as the metadata lines. */
  lemma MetadataRoundTrip(c: TestCandidate, convert: string -> string)
    requires SingleLineFields(c)
    ensures var r := ConstructBody(c, convert);
      var n := |r| - |convert(c.body)| - 2;
      0 <= n && SplitLines(r[..n]) == MetadataLines(c)
  {
    var lines := MetadataLines(c);
    MetadataLinesSingle(c);
    SplitLinesJoin(lines);
    var r := ConstructBody(c, convert);
    assert r == Join(lines, "\n") + ("\n\n" + convert(c.body));
    assert r[..|Join(lines, "\n")|] == Join(lines, "\n");
  }

  // ---------------------------------------------------------------------
  // JQL

  function Quoted(items: seq<string>): (r: seq<string>)
    ensures |r| == |items|
    ensures forall k :: 0 <= k < |items| ==> r[k] == "\"" + items[k] + "\""
  {
    seq(|items|, k requires 0 <= k < |items| => "\"" + items[k] + "\"")
  }

  /** `__format_jql_list(items)`: each item quoted, joined by ", ",
      parenthesised. */
  function FormatJqlList(items: seq<string>): (r: string)
    ensures |r| >= 2 && r[0] == '(' && r[|r| - 1] == ')'
  {
    "(" + Join(Quoted(items), ", ") + ")"
  }

  /** Reads back a list of `"item"`s separated by ", ". */
  function ParseQuotedItems(s: string): Option<seq<string>>
    decreases |s|
  {
    if s == [] then Some([])
    else if s[0] != '"' then None
    else
      var j := IndexOf(s[1..], '"');
      if j == |s| - 1 then None
      else
        var rest := s[j + 2..];
        if rest == [] then Some([s[1..j + 1]])
        else if |rest| > 2 && rest[..2] == ", " then
          match ParseQuotedItems(rest[2..])
          case None => None
          case Some(items) => Some([s[1..j + 1]] + items)
        else None
  }

  /** Reads back a parenthesised JQL list. */
  function ParseJqlList(s: string): Option<seq<string>> {
    if |s| >= 2 && s[0] == '(' && s[|s| - 1] == ')' then ParseQuotedItems(s[1..|s| - 1]) else None
  }

  predicate Unquoted(items: seq<string>) {
    forall k, i :: 0 <= k < |items| && 0 <= i < |items[k]| ==> items[k][i] != '"'
  }

  /** One quoted item, then the end or ", " and more. */
  lemma ParseQuotedCons(x: string, tail: string)
    requires forall i :: 0 <= i < |x| ==> x[i] != '"'
    requires tail == [] || (|tail| > 2 && tail[..2] == ", ")
    ensures ParseQuotedItems("\"" + x + "\"" + tail) ==
      if tail == [] then Some([x])
      else match ParseQuotedItems(tail[2..])
        case None => None
        case Some(items) => Some([x] + items)
  {
    var s := "\"" + x + "\"" + tail;
    assert s[1..] == x + ("\"" + tail);
    IndexOfAfter(x, "\"" + tail, '"');
    assert s[1..|x| + 1] == x;
    assert s[|x| + 2..] == tail;
  }

  lemma {:induction false} ParseQuotedJoin(items: seq<string>)
    requires Unquoted(items)
    ensures ParseQuotedItems(Join(Quoted(items), ", ")) == Some(items)
  {
    if items != [] {
      var x := items[0];
      assert forall i :: 0 <= i < |x| ==> x[i] != '"';
      if |items| == 1 {
        assert Join(Quoted(items), ", ") == "\"" + x + "\"" + [];
        ParseQuotedCons(x, []);
        assert items == [x];
      } else {
        var rest := Join(Quoted(items[1..]), ", ");
        var tail := ", " + rest;
        assert Quoted(items)[1..] == Quoted(items[1..]);
        assert Join(Quoted(items), ", ") == "\"" + x + "\"" + tail;
        assert Unquoted(items[1..]) by {
          forall k, i | 0 <= k < |items| - 1 && 0 <= i < |items[1..][k]| ensures items[1..][k][i] != '"' {
            assert items[1..][k] == items[k + 1];
          }
        }
        ParseQuotedJoin(items[1..]);
        assert |rest| > 0 by {
          assert |Quoted(items[1..])[0]| >= 2;
          JoinLength(Quoted(items[1..]), ", ");
        }
        assert tail[2..] == rest;
        ParseQuotedCons(x, tail);
        assert items == [x] + items[1..];
      }
    }
  }

  lemma JoinLength(xs: seq<string>, sep: string)
    requires xs != []
    ensures |Join(xs, sep)| >= |xs[0]|
  {
  }

  /** A JQL list reads back as its items when none holds a quote. */
  lemma JqlListRoundTrip(items: seq<string>)
    requires Unquoted(items)
    ensures ParseJqlList(FormatJqlList(items)) == Some(items)
  {
    var r := FormatJqlList(items);
    assert r[1..|r| - 1] == Join(Quoted(items), ", ");
    ParseQuotedJoin(items);
  }

  /** The Jira projects of the configured teams, in team order. */
  function Projects(repo: RepoConfig): (r: seq<string>)
    ensures |r| == |repo.teams|
    ensures forall k :: 0 <= k < |r| ==> r[k] == repo.teams[k].1.jiraProject
  {
    seq(|repo.teams|, k requires 0 <= k < |repo.teams| => repo.teams[k].1.jiraProject)
  }

  /** The query of `search_issues`. */
  function SearchQuery(repo: RepoConfig, labels: seq<string>): string {
    "project in " + FormatJqlList(Projects(repo)) + " and labels in " + FormatJqlList(labels)
  }

  /** The query names exactly the teams' projects and the given labels:
      both lists read back from it. */
  lemma SearchQueryParts(repo: RepoConfig, labels: seq<string>)
    requires Unquoted(Projects(repo)) && Unquoted(labels)
    ensures var q := SearchQuery(repo, labels);
      exists n :: (11 <= n && n + 15 <= |q| && q[..11] == "project in " && q[n..n + 15] == " and labels in " &&
        ParseJqlList(q[11..n]) == Some(Projects(repo)) && ParseJqlList(q[n + 15..]) == Some(labels))
  {
    var q := SearchQuery(repo, labels);
    var a := FormatJqlList(Projects(repo));
    var n := 11 + |a|;
    assert q == "project in " + a + " and labels in " + FormatJqlList(labels);
    assert q[11..n] == a;
    assert q[n..n + 15] == " and labels in ";
    assert q[n + 15..] == FormatJqlList(labels);
    JqlListRoundTrip(Projects(repo));
    JqlListRoundTrip(labels);
  }

  // ---------------------------------------------------------------------
  // Retry policy of `__api_request`

  /** Jira asks a client to slow down with `Retry-After` on a 429 (RFC 6585
      section 4) or on a 5xx (RFC 9110 section 10.2.3). */
  predicate RateLimited(r: Response) {
    "retry-after" in r.headers && (r.status == 429 || 500 <= r.status < 600)
  }

  /** What `__api_request` does with one attempt: a rate-limited response is
      waited out for `Retry-After` plus one second (an unparsable value
      raises inside the `try` and counts as a failure); a passing response
      is returned; everything else is a failure. */
  function JiraStep(a: Attempt, parseFloat: string -> Option<real>): Step {
    match a
    case Raised(_) => Failure
    case Got(r, _) =>
      if RateLimited(r) then
        match parseFloat(r.headers["retry-after"])
        case None => Failure
        case Some(v) => Pause(v + 1.0)
      else if Passes(r) then Done(r)
      else Failure
  }

  /** A response is returned only when it passed and was not rate
      limited; a rate-limited one with a readable `Retry-After` is waited
      out; no other attempt leaves the backoff alone. */
  lemma JiraStepCases(a: Attempt, parseFloat: string -> Option<real>)
    ensures JiraStep(a, parseFloat).Done? <==> a.Got? && !RateLimited(a.response) && Passes(a.response)
    ensures JiraStep(a, parseFloat).Done? ==> JiraStep(a, parseFloat).response == a.response
    ensures JiraStep(a, parseFloat).Pause? <==>
      a.Got? && RateLimited(a.response) && parseFloat(a.response.headers["retry-after"]).Some?
    ensures JiraStep(a, parseFloat).Pause? ==>
      JiraStep(a, parseFloat).seconds == parseFloat(a.response.headers["retry-after"]).value + 1.0
  {
  }

  function JiraSteps(attempts: seq<Attempt>, parseFloat: string -> Option<real>): (s: seq<Step>)
    ensures |s| == |attempts|
    ensures forall k :: 0 <= k < |attempts| ==> s[k] == JiraStep(attempts[k], parseFloat)
  {
    seq(|attempts|, k requires 0 <= k < |attempts| => JiraStep(attempts[k], parseFloat))
  }

  /** `__api_request`: the response returned, if the given attempts reach
      one, and the seconds waited before each retry. */
  method ApiRequest(attempts: seq<Attempt>, parseFloat: string -> Option<real>) returns (r: Option<Response>, waits: seq<real>)
    ensures (r, waits) == Run(JiraSteps(attempts, parseFloat), 2)
  {
    ghost var steps := JiraSteps(attempts, parseFloat);
    var retryWait: nat := 2;
    waits := [];
    var i := 0;
    ResumeStart(steps);
    while i < |attempts|
      invariant 0 <= i <= |attempts|
      invariant Run(steps, 2) == Resume(steps, i, retryWait, waits)
    {
      ResumeStep(steps, i, retryWait, waits);
      var step := JiraStep(attempts[i], parseFloat);
      i := i + 1;
      match step
      case Done(response) =>
        return Some(response), waits;
      case Pause(seconds) =>
        waits := waits + [seconds];
      case Failure =>
        waits := waits + [retryWait as real];
        retryWait := retryWait * 2;
    }
    ResumeEnd(steps, retryWait, waits);
    r := None;
  }

  /** The response returned is the first attempt's that passed without a
      rate-limit answer; a rate-limited attempt waits its `Retry-After` plus
      one second and leaves the backoff alone, every other one waits 2, 4,
      8, ... seconds. */
  lemma ApiRequestWaits(attempts: seq<Attempt>, parseFloat: string -> Option<real>)
    ensures var steps := JiraSteps(attempts, parseFloat);
      var (r, ws) := Run(steps, 2);
      && |ws| <= |attempts|
      && (r.Some? ==> (|ws| < |attempts| && attempts[|ws|].Got? && attempts[|ws|].response == r.value &&
            Passes(r.value) && !RateLimited(r.value)))
      && (r.None? ==> |ws| == |attempts|)
      && (forall k :: 0 <= k < |ws| ==> !steps[k].Done?)
      && (forall k :: 0 <= k < |ws| ==> ws[k] == if steps[k].Pause? then steps[k].seconds else Pow2(1 + Failures(steps[..k])) as real)
  {
    var steps := JiraSteps(attempts, parseFloat);
    RunCharacterised(steps, 1);
    var (r, ws) := Run(steps, 2);
    if r.Some? {
      JiraStepCases(attempts[|ws|], parseFloat);
    }
  }

  // ---------------------------------------------------------------------
  // Pagination of `search_issues` and `get_users`

  /** One page of a paginated read: its items and the total the server
      reports. */
  datatype Page<T> = Page(items: seq<T>, total: int)

  /** The items of `pages`, one page after another. */
  function Flatten<T>(pages: seq<Page<T>>): (r: seq<T>)
  {
    if pages == [] then [] else pages[0].items + Flatten(pages[1..])
  }

  /** The paginated read from `offset` on, against the server's answers
      `pages`: the items yielded, the `startAt` of each request, and whether
      the read finished (rather than running out of answers). */
  function Paginate<T>(pages: seq<Page<T>>, offset: nat): (seq<T>, seq<nat>, bool)
    decreases |pages|
  {
    if pages == [] then ([], [], false)
    else
      var next := offset + |pages[0].items|;
      if next >= pages[0].total then (pages[0].items, [offset], true)
      else
        var rest := Paginate(pages[1..], next);
        (pages[0].items + rest.0, [offset] + rest.1, rest.2)
  }

  /** The items of the first `k` pages: the first page's, then those of
      the next `k - 1`. */
  lemma FlattenPrefix<T>(pages: seq<Page<T>>, k: nat)
    requires 0 < k <= |pages|
    ensures Flatten(pages[..k]) == pages[0].items + Flatten(pages[1..][..k - 1])
  {
    assert pages[..k][0] == pages[0];
    assert pages[..k][1..] == pages[1..][..k - 1];
  }

  /** The read makes at most one request per page; it runs out of answers
      only after using every page. */
  lemma {:induction false} PaginateRequests<T>(pages: seq<Page<T>>, offset: nat)
    ensures var (_, starts, complete) := Paginate(pages, offset);
      && |starts| <= |pages|
      && (complete ==> |starts| > 0)
      && (!complete ==> |starts| == |pages|)
    decreases |pages|
  {
    if pages != [] && offset + |pages[0].items| < pages[0].total {
      PaginateRequests(pages[1..], offset + |pages[0].items|);
    }
  }

  /** The items yielded are those of the pages requested, in order. */
  lemma {:induction false} PaginateItems<T>(pages: seq<Page<T>>, offset: nat)
    ensures |Paginate(pages, offset).1| <= |pages|
    ensures Paginate(pages, offset).0 == Flatten(pages[..|Paginate(pages, offset).1|])
    decreases |pages|
  {
    PaginateRequests(pages, offset);
    if pages != [] {
      var next := offset + |pages[0].items|;
      if next < pages[0].total {
        PaginateItems(pages[1..], next);
        FlattenPrefix(pages, |Paginate(pages, offset).1|);
      } else {
        FlattenPrefix(pages, 1);
        assert pages[1..][..0] == [];
      }
    } else {
      assert pages[..0] == [];
    }
  }

  /** Each request starts at the number of items yielded before it. */
  lemma {:induction false} PaginateStarts<T>(pages: seq<Page<T>>, offset: nat)
    ensures var starts := Paginate(pages, offset).1;
      |starts| <= |pages| && forall k :: 0 <= k < |starts| ==> starts[k] == offset + |Flatten(pages[..k])|
    decreases |pages|
  {
    PaginateRequests(pages, offset);
    if pages != [] {
      var next := offset + |pages[0].items|;
      var starts := Paginate(pages, offset).1;
      assert pages[..0] == [];
      if next < pages[0].total {
        PaginateStarts(pages[1..], next);
        forall k | 0 < k < |starts|
          ensures starts[k] == offset + |Flatten(pages[..k])|
        {
          FlattenPrefix(pages, k);
        }
      }
    }
  }

  /** Every request but the last left the count below the total the
      server reported with it. */
  lemma {:induction false} PaginateContinues<T>(pages: seq<Page<T>>, offset: nat)
    ensures var starts := Paginate(pages, offset).1;
      |starts| <= |pages| && forall k :: 0 <= k < |starts| - 1 ==> offset + |Flatten(pages[..k + 1])| < pages[k].total
    decreases |pages|
  {
    PaginateRequests(pages, offset);
    if pages != [] {
      var next := offset + |pages[0].items|;
      var starts := Paginate(pages, offset).1;
      if next < pages[0].total {
        PaginateContinues(pages[1..], next);
        forall k | 0 <= k < |starts| - 1
          ensures offset + |Flatten(pages[..k + 1])| < pages[k].total
        {
          FlattenPrefix(pages, k + 1);
          if k == 0 {
            assert pages[1..][..0] == [];
          } else {
            assert pages[1..][k - 1] == pages[k];
          }
        }
      }
    }
  }

  /** A read that finished stopped because its count reached the total
      reported with the last page. */
  lemma {:induction false} PaginateStops<T>(pages: seq<Page<T>>, offset: nat)
    ensures var (items, starts, complete) := Paginate(pages, offset);
      complete ==> 0 < |starts| <= |pages| && offset + |items| >= pages[|starts| - 1].total
    decreases |pages|
  {
    PaginateRequests(pages, offset);
    if pages != [] && offset + |pages[0].items| < pages[0].total {
      PaginateStops(pages[1..], offset + |pages[0].items|);
    }
  }

  /** Each request starts at the number of items yielded before it, the
      items come out in the server's order, and the read stops exactly at
      the first page after which that number reaches the reported total. */
  lemma PaginateCharacterised<T>(pages: seq<Page<T>>, offset: nat)
    ensures var (items, starts, complete) := Paginate(pages, offset);
      && |starts| <= |pages|
      && items == Flatten(pages[..|starts|])
      && (forall k :: 0 <= k < |starts| ==> starts[k] == offset + |Flatten(pages[..k])|)
      && (forall k :: 0 <= k < |starts| - 1 ==> offset + |Flatten(pages[..k + 1])| < pages[k].total)
      && (complete ==> |starts| > 0 && offset + |items| >= pages[|starts| - 1].total)
      && (!complete ==> |starts| == |pages|)
  {
    PaginateRequests(pages, offset);
    PaginateItems(pages, offset);
    PaginateStarts(pages, offset);
    PaginateContinues(pages, offset);
    PaginateStops(pages, offset);
  }

  /** What a paginated read that has already yielded `items` after the
      requests `starts`, and next asks for `pages[i..]` at `offset`, goes
      on to return. */
  function ResumeRead<T>(pages: seq<Page<T>>, i: nat, offset: nat, items: seq<T>, starts: seq<nat>): (seq<T>, seq<nat>, bool)
    requires i <= |pages|
  {
    var rest := Paginate(pages[i..], offset);
    (items + rest.0, starts + rest.1, rest.2)
  }

  lemma ResumeReadStart<T>(pages: seq<Page<T>>)
    ensures ResumeRead(pages, 0, 0, [], []) == Paginate(pages, 0)
  {
    assert pages[0..] == pages;
    var rest := Paginate(pages, 0);
    assert [] + rest.0 == rest.0 && [] + rest.1 == rest.1;
  }

  lemma ResumeReadEnd<T>(pages: seq<Page<T>>, offset: nat, items: seq<T>, starts: seq<nat>)
    ensures ResumeRead(pages, |pages|, offset, items, starts) == (items, starts, false)
  {
    assert pages[|pages|..] == [];
    assert items + [] == items && starts + [] == starts;
  }

  /** One request of the read: the page at `offset` is yielded, and the
      read stops when the count reaches the total or asks for the next
      page. */
  lemma ResumeReadStep<T>(pages: seq<Page<T>>, i: nat, offset: nat, items: seq<T>, starts: seq<nat>)
    requires i < |pages|
    ensures offset + |pages[i].items| >= pages[i].total ==>
      ResumeRead(pages, i, offset, items, starts) == (items + pages[i].items, starts + [offset], true)
    ensures offset + |pages[i].items| < pages[i].total ==>
      ResumeRead(pages, i, offset, items, starts) ==
      ResumeRead(pages, i + 1, offset + |pages[i].items|, items + pages[i].items, starts + [offset])
  {
    assert pages[i..][0] == pages[i];
    assert pages[i..][1..] == pages[i + 1..];
    var rest := Paginate(pages[i + 1..], offset + |pages[i].items|);
    assert items + (pages[i].items + rest.0) == (items + pages[i].items) + rest.0;
    assert starts + ([offset] + rest.1) == (starts + [offset]) + rest.1;
  }

  /** Yields the items of one page one by one, counting them. */
  method YieldPage<T>(items: seq<T>, offset: nat, page: seq<T>) returns (yielded: seq<T>, count: nat)
    ensures yielded == items + page
    ensures count == offset + |page|
  {
    yielded, count := items, offset;
    var j := 0;
    while j < |page|
      invariant 0 <= j <= |page|
      invariant yielded == items + page[..j]
      invariant count == offset + j
    {
      assert page[..j + 1] == page[..j] + [page[j]];
      yielded := yielded + [page[j]];
      count := count + 1;
      j := j + 1;
    }
    assert page[..j] == page;
  }

  /** The loop of `search_issues` and `get_users`: request a page at the
      current offset, yield its items one by one counting them, stop once
      the count reaches the reported total. */
  method PaginatedRead<T>(pages: seq<Page<T>>) returns (items: seq<T>, starts: seq<nat>, complete: bool)
    ensures (items, starts, complete) == Paginate(pages, 0)
  {
    var offset: nat := 0;
    items, starts := [], [];
    var i := 0;
    ResumeReadStart(pages);
    while i < |pages|
      invariant 0 <= i <= |pages|
      invariant Paginate(pages, 0) == ResumeRead(pages, i, offset, items, starts)
    {
      ResumeReadStep(pages, i, offset, items, starts);
      var page := pages[i];
      starts := starts + [offset];
      items, offset := YieldPage(items, offset, page.items);
      i := i + 1;
      if offset >= page.total {
        return items, starts, true;
      }
    }
    ResumeReadEnd(pages, offset, items, starts);
    complete := false;
  }

  /** A Jira user as `get_users` yields it; `active` is absent or null when
      `None`. */
  datatype JiraUser = JiraUser(accountId: string, active: Option<bool>)

  predicate Active(u: JiraUser) {
    u.active == Some(true)
  }

  /** `get_deactivated_users`: the users whose `active` is missing or
      falsy, in order. */
  function Deactivated(users: seq<JiraUser>): (r: seq<JiraUser>)
    ensures |r| <= |users|
  {
    if users == [] then []
    else (if Active(users[0]) then [] else [users[0]]) + Deactivated(users[1..])
  }

  /** A user is kept exactly when it is one of the users and is not
      active. */
  lemma {:induction false} DeactivatedMembers(users: seq<JiraUser>)
    ensures forall u :: u in Deactivated(users) <==> u in users && !Active(u)
  {
    if users != [] {
      DeactivatedMembers(users[1..]);
      assert users == [users[0]] + users[1..];
    }
  }

  /** Filtering commutes with concatenation: the order of the users is
      kept. */
  lemma {:induction false} DeactivatedAppend(a: seq<JiraUser>, b: seq<JiraUser>)
    ensures Deactivated(a + b) == Deactivated(a) + Deactivated(b)
  {
    if a != [] {
      assert (a + b)[0] == a[0];
      assert (a + b)[1..] == a[1..] + b;
      DeactivatedAppend(a[1..], b);
      var rest, tail := Deactivated(a[1..]), Deactivated(b);
      if Active(a[0]) {
        assert [] + (rest + tail) == rest + tail && [] + rest == rest;
        assert Deactivated(a + b) == rest + tail;
        assert Deactivated(a) == rest;
      } else {
        assert Deactivated(a + b) == [a[0]] + (rest + tail);
        assert Deactivated(a) == [a[0]] + rest;
        AppendAssoc([a[0]], rest, tail);
      }
    } else {
      assert a + b == b;
    }
  }

  lemma DeactivatedSnoc(users: seq<JiraUser>, u: JiraUser)
    ensures Deactivated(users + [u]) == Deactivated(users) + if Active(u) then [] else [u]
  {
    DeactivatedAppend(users, [u]);
    assert [u][1..] == [];
  }

  /** The loop of `get_deactivated_users`: keep the users that are not
      active, in order. */
  method FilterDeactivated(all: seq<JiraUser>) returns (users: seq<JiraUser>)
    ensures users == Deactivated(all)
  {
    users := [];
    var i := 0;
    while i < |all|
      invariant 0 <= i <= |all|
      invariant users == Deactivated(all[..i])
    {
      assert all[..i + 1] == all[..i] + [all[i]];
      DeactivatedSnoc(all[..i], all[i]);
      if !Active(all[i]) {
        users := users + [all[i]];
      }
      i := i + 1;
    }
    assert all[..i] == all;
  }

  /** The deactivated users of a paginated read are those of its pages, in
      page order. */
  lemma DeactivatedOfPages(pages: seq<Page<JiraUser>>)
    ensures Deactivated(Flatten(pages)) ==
      if pages == [] then [] else Deactivated(pages[0].items) + Deactivated(Flatten(pages[1..]))
  {
    if pages != [] {
      DeactivatedAppend(pages[0].items, Flatten(pages[1..]));
    }
  }

  // ---------------------------------------------------------------------
  // Issue creation

  /** The `fields` of one issue-creation request; `assignee` and
      `components` are absent when `None`. */
  datatype IssueFields = IssueFields(
    issueType: string,
    project: string,
    description: string,
    labels: seq<string>,
    summary: string,
    assignee: Option<string>,
    components: Option<seq<string>>)

  /** The fields for one team: its issue type and project, the common
      fields, an assignee only for a non-empty member, a component only
      when the team names one. */
  function IssueFieldsFor(team: TeamConfig, member: Option<string>, description: string, labels: seq<string>, summary: string): (f: IssueFields)
    ensures f.issueType == team.jiraIssueType && f.project == team.jiraProject
    ensures f.description == description && f.labels == labels && f.summary == summary
    ensures f.assignee.Some? <==> member.Some? && member.value != ""
    ensures f.assignee.Some? ==> f.assignee.value == member.value
    ensures f.components.Some? <==> team.jiraComponent != ""
    ensures f.components.Some? ==> f.components.value == [team.jiraComponent]
  {
    IssueFields(team.jiraIssueType, team.jiraProject, description, labels, summary,
      if member.Some? && member.value != "" then member else None,
      if team.jiraComponent != "" then Some([team.jiraComponent]) else None)
  }

  /** The request fields for each assignment, in order. */
  function Requests(repo: RepoConfig, assignments: seq<(string, Option<string>)>, description: string,
                    labels: seq<string>, summary: string): (r: seq<IssueFields>)
    requires forall k :: 0 <= k < |assignments| ==> HasKey(repo.teams, assignments[k].0)
    ensures |r| == |assignments|
    ensures forall k :: 0 <= k < |assignments| ==>
      r[k] == IssueFieldsFor(TeamOf(repo, assignments[k].0), assignments[k].1, description, labels, summary)
  {
    seq(|assignments|, k requires 0 <= k < |assignments| =>
      IssueFieldsFor(TeamOf(repo, assignments[k].0), assignments[k].1, description, labels, summary))
  }

  /** Each assignment's team with the URL of the issue created for it. */
  function Created(server: string, assignments: seq<(string, Option<string>)>, keys: seq<string>): (r: seq<(string, string)>)
    requires |keys| == |assignments|
    ensures |r| == |assignments|
    ensures KeysOf(r) == KeysOf(assignments)
    ensures forall k :: 0 <= k < |assignments| ==> r[k].1 == IssueUrl(server, keys[k])
  {
    seq(|assignments|, k requires 0 <= k < |assignments| => (assignments[k].0, IssueUrl(server, keys[k])))
  }

  lemma RequestsStep(repo: RepoConfig, assignments: seq<(string, Option<string>)>, i: nat, description: string,
                     labels: seq<string>, summary: string)
    requires forall k :: 0 <= k < |assignments| ==> HasKey(repo.teams, assignments[k].0)
    requires i < |assignments|
    ensures Requests(repo, assignments[..i + 1], description, labels, summary) ==
      Requests(repo, assignments[..i], description, labels, summary) +
      [IssueFieldsFor(TeamOf(repo, assignments[i].0), assignments[i].1, description, labels, summary)]
  {
  }

  lemma CreatedStep(server: string, assignments: seq<(string, Option<string>)>, keys: seq<string>, i: nat)
    requires |keys| == |assignments| && i < |assignments|
    ensures Created(server, assignments[..i + 1], keys[..i + 1]) ==
      Created(server, assignments[..i], keys[..i]) + [(assignments[i].0, IssueUrl(server, keys[i]))]
  {
  }

  /** The loop of `create_issues`: one request per assignment, in order,
      and the URL of the issue it created under the assignment's team. */
  method RequestLoop(repo: RepoConfig, server: string, assignments: seq<(string, Option<string>)>, keys: seq<string>,
                     description: string, labels: seq<string>, summary: string)
    returns (requests: seq<IssueFields>, created: seq<(string, string)>)
    requires forall k :: 0 <= k < |assignments| ==> HasKey(repo.teams, assignments[k].0)
    requires |keys| == |assignments|
    ensures requests == Requests(repo, assignments, description, labels, summary)
    ensures created == Created(server, assignments, keys)
  {
    requests, created := [], [];
    var i := 0;
    while i < |assignments|
      invariant 0 <= i <= |assignments|
      invariant requests == Requests(repo, assignments[..i], description, labels, summary)
      invariant created == Created(server, assignments[..i], keys[..i])
    {
      RequestsStep(repo, assignments, i, description, labels, summary);
      CreatedStep(server, assignments, keys, i);
      requests := requests + [IssueFieldsFor(TeamOf(repo, assignments[i].0), assignments[i].1, description, labels, summary)];
      created := created + [(assignments[i].0, IssueUrl(server, keys[i]))];
      i := i + 1;
    }
    assert assignments[..i] == assignments;
    assert keys[..i] == keys;
  }

  // ---------------------------------------------------------------------
  // Transitions

  /** Project -> issue type -> status name -> transition id. */
  type Transitions = map<string, map<string, map<string, string>>>

  /** One call of `__get_transitions` on the memo `mem`, given what the
      cache holds for the issue's project and what the server would list:
      the new memo, and the project map saved to the cache if the server
      was asked. The listed transitions become a map in which a later
      transition to the same status wins (`MapOfLastWins`). */
  function LoadStep(mem: Transitions, cached: map<string, map<string, string>>, project: string, issueType: string,
                    listed: seq<(string, string)>): (Transitions, Option<map<string, map<string, string>>>)
  {
    var known := if project in mem then mem[project] else map[];
    if issueType in known then (mem[project := known], None)
    else
      var merged := known + cached;
      if issueType in merged then (mem[project := merged], None)
      else
        var full := merged[issueType := MapOf(listed)];
        (mem[project := full], Some(full))
  }

  /** After loading, the issue type is known under its project; the server
      is asked only when neither the memo nor the cache knew it, then the
      whole project map is saved; other projects and types already known
      keep their transitions. */
  lemma LoadStepProperties(mem: Transitions, cached: map<string, map<string, string>>, project: string, issueType: string,
                           listed: seq<(string, string)>)
    ensures var (mem', saved) := LoadStep(mem, cached, project, issueType, listed);
      && project in mem' && issueType in mem'[project]
      && (saved.Some? <==> !(project in mem && issueType in mem[project]) && issueType !in cached)
      && (saved.Some? ==> saved.value == mem'[project] && mem'[project][issueType] == MapOf(listed))
      && (forall p :: p in mem && p != project ==> p in mem' && mem'[p] == mem[p])
      && mem'.Keys == mem.Keys + {project}
      && (project in mem ==> mem[project].Keys <= mem'[project].Keys)
      && (project in mem && issueType in mem[project] ==> mem' == mem)
  {
  }

  /** The transitions of an issue's project and type are held. */
  ghost predicate Known(t: Transitions, issue: JiraIssue) {
    issue.project in t && issue.issueType in t[issue.project]
  }

  /** Every project and type `t` holds, `t'` holds too. */
  ghost predicate Extends(t: Transitions, t': Transitions) {
    forall p :: p in t ==> p in t' && t[p].Keys <= t'[p].Keys
  }

  /** Loading one more issue keeps the earlier issues known and what was
      held at the start. */
  lemma KnownKept(start: Transitions, before: Transitions, after: Transitions, issues: seq<JiraIssue>, i: nat)
    requires i < |issues|
    requires forall k :: 0 <= k < i ==> Known(before, issues[k])
    requires Extends(start, before) && Extends(before, after) && Known(after, issues[i])
    ensures forall k :: 0 <= k < i + 1 ==> Known(after, issues[k])
    ensures Extends(start, after)
  {
  }

  /** Loading the same project and type again changes nothing and asks
      nothing. */
  lemma LoadStepIdempotent(mem: Transitions, cached: map<string, map<string, string>>, project: string, issueType: string,
                           listed: seq<(string, string)>, cached2: map<string, map<string, string>>, listed2: seq<(string, string)>)
    ensures var mem' := LoadStep(mem, cached, project, issueType, listed).0;
      LoadStep(mem', cached2, project, issueType, listed2) == (mem', None)
  {
    LoadStepProperties(mem, cached, project, issueType, listed);
    var mem' := LoadStep(mem, cached, project, issueType, listed).0;
    assert mem'[project := mem'[project]] == mem';
  }

  /** The memo and the cached files after `__get_transitions` has run for
      each issue in turn, `listedFor` giving what the server lists for an
      issue key. */
  function LoadEach(root: Path, mem: Transitions, files: map<Path, Doc>, issues: seq<JiraIssue>,
                    listedFor: string -> seq<(string, string)>): (Transitions, map<Path, Doc>)
    decreases |issues|
  {
    if issues == [] then (mem, files)
    else
      var (mem0, files0) := LoadEach(root, mem, files, issues[..|issues| - 1], listedFor);
      var issue := issues[|issues| - 1];
      var (mem1, saved) := LoadStep(mem0, GetTransitions(root, files0, issue.project), issue.project, issue.issueType,
                                    listedFor(issue.key));
      (mem1, if saved.Some? then SaveTransitions(root, files0, issue.project, saved.value) else files0)
  }

  /** After loading each issue: every issue's project and type are held,
      everything held before still is, and the only cached files written
      are the transitions files of the issues' projects. */
  lemma {:induction false} LoadEachKeeps(root: Path, mem: Transitions, files: map<Path, Doc>, issues: seq<JiraIssue>,
                                         listedFor: string -> seq<(string, string)>)
    ensures forall k :: 0 <= k < |issues| ==> Known(LoadEach(root, mem, files, issues, listedFor).0, issues[k])
    ensures Extends(mem, LoadEach(root, mem, files, issues, listedFor).0)
    ensures forall path :: (forall k :: 0 <= k < |issues| ==> path != TransitionsFile(root, issues[k].project)) ==>
      var files' := LoadEach(root, mem, files, issues, listedFor).1;
      (path in files' <==> path in files) && (path in files ==> files'[path] == files[path])
    decreases |issues|
  {
    if issues != [] {
      var init := issues[..|issues| - 1];
      var issue := issues[|issues| - 1];
      LoadEachKeeps(root, mem, files, init, listedFor);
      var (mem0, files0) := LoadEach(root, mem, files, init, listedFor);
      var cached := GetTransitions(root, files0, issue.project);
      LoadStepProperties(mem0, cached, issue.project, issue.issueType, listedFor(issue.key));
      var (mem1, files1) := LoadEach(root, mem, files, issues, listedFor);
      assert forall k :: 0 <= k < |init| ==> init[k] == issues[k];
      KnownKept(mem, mem0, mem1, issues, |issues| - 1);
    }
  }

  /** `update_issue_status(issue, status)`: the transition id to post and
      a copy of the issue with the new status name, updated at `now`. An
      unknown project, type or status is the `KeyError` the lookup raises. */
  function UpdateIssueStatus(mem: Transitions, issue: JiraIssue, status: string, now: int): (r: Result<(string, JiraIssue), string>)
    ensures r.Ok? <==> (issue.project in mem && issue.issueType in mem[issue.project] &&
      status in mem[issue.project][issue.issueType])
    ensures r.Ok? ==> r.value.0 == mem[issue.project][issue.issueType][status]
    ensures r.Ok? ==> var i := r.value.1;
      && i.status.name == status && i.updated == now
      && i.status.id == issue.status.id
      && i.key == issue.key && i.project == issue.project && i.issueType == issue.issueType
      && i.assignee == issue.assignee && i.description == issue.description && i.labels == issue.labels
      && i.summary == issue.summary && i.components == issue.components
  {
    if issue.project in mem && issue.issueType in mem[issue.project] && status in mem[issue.project][issue.issueType] then
      Ok((mem[issue.project][issue.issueType][status], issue.(status := issue.status.(name := status), updated := now)))
    else Err("KeyError")
  }

  // ---------------------------------------------------------------------
  // The client

  class JiraClient {
    const server: string
    const email: string
    const token: string
    const repo: RepoConfig
    const cache: JiraCache
    /** `__transitions`. */
    var transitions: Transitions

    constructor(server: string, email: string, token: string, repo: RepoConfig, cache: JiraCache)
      ensures this.server == server && this.email == email && this.token == token
      ensures this.repo == repo && this.cache == cache && transitions == map[]
    {
      this.server := server;
      this.email := email;
      this.token := token;
      this.repo := repo;
      this.cache := cache;
      transitions := map[];
    }

    /** `get_current_user_id`: the cached id for these credentials when it
        is non-empty, otherwise `fetched` (the `accountId` the server
        reports), which is then cached. */
    method GetCurrentUserId(fetched: string) returns (id: string, requested: bool)
      modifies cache.store
      ensures var cached := GetUserId(cache.root, old(cache.store.files), cache.userKey, email, token);
        && (requested <==> !(cached.Some? && cached.value != ""))
        && (!requested ==> id == cached.value && cache.store.files == old(cache.store.files))
        && (requested ==> id == fetched)
        && (requested ==> cache.store.files == SaveUserId(cache.root, old(cache.store.files), cache.userKey, email, token, fetched))
    {
      var cached := cache.GetUserIdIn(email, token);
      if cached.Some? && cached.value != "" {
        return cached.value, false;
      }
      cache.SaveUserIdIn(email, token, fetched);
      return fetched, true;
    }

    /** `create_issues`: one request per assignment in order, and the URL
        of each created issue (from the key the server returns) under its
        team. */
    method CreateIssues(candidate: TestCandidate, labels: seq<string>, assignments: seq<(string, Option<string>)>,
                        keys: seq<string>, convert: string -> string)
      returns (requests: seq<IssueFields>, created: seq<(string, string)>)
      requires forall k :: 0 <= k < |assignments| ==> HasKey(repo.teams, assignments[k].0)
      requires |keys| == |assignments|
      ensures |requests| == |assignments| && |created| == |assignments|
      ensures forall k :: 0 <= k < |assignments| ==>
        requests[k] == IssueFieldsFor(TeamOf(repo, assignments[k].0), assignments[k].1,
          ConstructBody(candidate, convert), labels, candidate.title)
      ensures KeysOf(created) == KeysOf(assignments)
      ensures forall k :: 0 <= k < |assignments| ==> created[k].1 == IssueUrl(server, keys[k])
    {
      requests, created := RequestLoop(repo, server, assignments, keys, ConstructBody(candidate, convert), labels, candidate.title);
    }

    /** `__get_transitions(issue)`, with `listed` the (status name, id)
        pairs the server lists for the issue. */
    method LoadTransitions(issue: JiraIssue, listed: seq<(string, string)>) returns (fetched: bool)
      modifies this, cache.store
      ensures var cached := GetTransitions(cache.root, old(cache.store.files), issue.project);
        transitions == LoadStep(old(transitions), cached, issue.project, issue.issueType, listed).0
      ensures var cached := GetTransitions(cache.root, old(cache.store.files), issue.project);
        var saved := LoadStep(old(transitions), cached, issue.project, issue.issueType, listed).1;
        && fetched == saved.Some?
        && (saved.None? ==> cache.store.files == old(cache.store.files))
        && (saved.Some? ==> cache.store.files == SaveTransitions(cache.root, old(cache.store.files), issue.project, saved.value))
    {
      var known := if issue.project in transitions then transitions[issue.project] else map[];
      if issue.issueType in known {
        transitions := transitions[issue.project := known];
        return false;
      }
      var cached := cache.GetTransitionsIn(issue);
      known := known + cached;
      if issue.issueType in known {
        transitions := transitions[issue.project := known];
        return false;
      }
      known := known[issue.issueType := MapOf(listed)];
      transitions := transitions[issue.project := known];
      cache.SaveTransitionsIn(issue, known);
      return true;
    }

    /** `search_issues(labels)`: the query, the paginated read of the
        matching issues, and the transitions of each issue loaded as it is
        yielded (`listedFor` gives what the server lists for an issue key). */
    method SearchIssues(labels: seq<string>, pages: seq<Page<JiraIssue>>, listedFor: string -> seq<(string, string)>)
      returns (query: string, issues: seq<JiraIssue>, starts: seq<nat>, complete: bool)
      modifies this, cache.store
      ensures query == SearchQuery(repo, labels)
      ensures (issues, starts, complete) == Paginate(pages, 0)
      ensures (transitions, cache.store.files) == LoadEach(cache.root, old(transitions), old(cache.store.files), issues, listedFor)
      ensures forall k :: 0 <= k < |issues| ==>
        issues[k].project in transitions && issues[k].issueType in transitions[issues[k].project]
      ensures forall p :: p in old(transitions) ==> p in transitions && old(transitions)[p].Keys <= transitions[p].Keys
    {
      query := SearchQuery(repo, labels);
      issues, starts, complete := PaginatedRead(pages);
      var i := 0;
      while i < |issues|
        invariant 0 <= i <= |issues|
        invariant (transitions, cache.store.files) ==
          LoadEach(cache.root, old(transitions), old(cache.store.files), issues[..i], listedFor)
      {
        assert issues[..i + 1][..i] == issues[..i];
        var _ := LoadTransitions(issues[i], listedFor(issues[i].key));
        i := i + 1;
      }
      assert issues[..i] == issues;
      LoadEachKeeps(cache.root, old(transitions), old(cache.store.files), issues, listedFor);
    }

    /** `get_users(ids)` followed by the filter of
        `get_deactivated_users`. */
    method GetDeactivatedUsers(pages: seq<Page<JiraUser>>) returns (users: seq<JiraUser>, starts: seq<nat>)
      ensures var (all, starts', _) := Paginate(pages, 0);
        users == Deactivated(all) && starts == starts'
    {
      var all, complete;
      all, starts, complete := PaginatedRead(pages);
      users := FilterDeactivated(all);
    }

    /** `update_issue_status` on the client's memo. */
    function UpdateStatus(issue: JiraIssue, status: string, now: int): (r: Result<(string, JiraIssue), string>)
      reads this
      ensures r.Ok? <==> (issue.project in transitions && issue.issueType in transitions[issue.project] &&
        status in transitions[issue.project][issue.issueType])
      ensures r.Ok? ==> r.value.1.status.name == status && r.value.1.key == issue.key
    {
      UpdateIssueStatus(transitions, issue, status, now)
    }
  }
}
