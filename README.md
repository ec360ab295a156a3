# ddqa in Dafny

A model of the core of ddqa, Datadog's QA tool for release candidates. The
model covers these parts:

- **Candidates.** ddqa lists the commits between two git refs. It resolves
  each commit to a pull request or to a bare commit, caching what it finds on
  disk. A repeated pull request is dropped. Each team gets a default
  assignment from the candidate's labels.
- **Issue creation.** An assignee is picked per assigned team from the team's
  roster, and Jira issues are created for the assigned teams.
- **Status dashboard.** Matching Jira issues are loaded into a dashboard with
  one column per QA status, a team filter and a member filter.

Around that core the model also covers:

- the GitHub and Jira HTTP clients: their retry loops, pagination, transition
  memo and request fields;
- the on-disk caches both clients keep;
- the configuration validators, token scrubbing, parsing of `git cherry -v`
  output, and elapsed-time formatting.

## Structure

One Dafny module per source component:

| file | module | models |
|---|---|---|
| `wrappers.dfy` | `Wrappers` | `Option` / `Result` |
| `text.dfy` | `Text` | the `str` operations used: `splitlines`, `split`, `strip`, `partition`, `join`, `lower`, `isdigit` |
| `models.dfy` | `Models` | pydantic models (`TestCandidate`, `TeamConfig`, `RepoConfig`, `JiraIssue`) and ordered dictionaries as sequences of pairs |
| `json.dfy` | `JsonValues` | decoded JSON values |
| `scrub.dfy` | `Scrub` | `config/utils.py` |
| `elapsed.dfy`, `decimals.dfy` | `ElapsedTime`, `Decimals` | `utils/time.py`, `Decimal.quantize` |
| `git.dfy` | `Git` | `utils/git.py` |
| `store.dfy` | `CacheStore` | the cache directory as a map from paths to documents |
| `github_cache.dfy` | `GitHubCaching` | `cache/github.py` |
| `jira_cache.dfy` | `JiraCaching` | `cache/jira.py` |
| `retry.dfy` | `Retry` | the retry/backoff loop shared by both HTTP clients |
| `github_repo.dfy` | `GitHubRepo` | `utils/github.py` |
| `jira_config.dfy` | `JiraMembers` | `models/jira.py` (`JiraConfig`) |
| `jira_client.dfy` | `JiraApi` | `utils/jira.py` |
| `dashboard.dfy` | `Dashboard` | `screens/status.py` |
| `create.dfy` | `CreateScreen` | `screens/create.py` |

### How the model represents the source

- **Objects updated in place are classes.** That covers the cache directory
  (`FileStore`), the two caches, the two HTTP clients, `JiraConfig`, the issue
  filters, the status screen, the candidate listing and the configuration
  being scrubbed. Each method states its new state through a pure function of
  the old one, or, where the source leaves an order open (`iterdir`, set
  iteration), through a predicate every allowed outcome meets. The
  properties are proved about those functions and predicates.
- **Ordered dictionaries are sequences of pairs with distinct keys.** Their
  order is observable in ddqa: teams, assignments, members, reviewers and
  created issues.
- **Everything that comes from outside is a parameter.** That covers HTTP
  responses, attempt outcomes, pages, git output, rosters and the outcome of
  issue creation. `secrets.choice` and the order of `iterdir` become a
  nondeterministic choice (`:|`).

## Model

| member | source | states |
|---|---|---|
| Scrub.Contains | src/ddqa/config/utils.py:8 | `'token' in v`: key membership for a table, element membership for a list, and an error exactly for values `in` rejects |
| Scrub.ConfigDocument.constructor | src/ddqa/config/utils.py:7 | the document holds the given configuration |
| Scrub.ScrubConfig | src/ddqa/config/utils.py:7-12 | the document after the call, and the error raised if any, are `Scrubbed` of the old document |
| Scrub.ScrubSectionInPlace | src/ddqa/config/utils.py:8-12 | one masking step on the document: `token` is replaced by `*****` when present, or the step fails |
| Scrub.ScrubFailsIffBadSection | src/ddqa/config/utils.py:8-12 | scrubbing completes without error exactly when the masking step of each of `github` and `jira` succeeds (it fails on a section that `in` rejects, or on a non-table holding `token`) |
| Scrub.ScrubbedTables | src/ddqa/config/utils.py:4-12 | with table sections, scrubbing succeeds; keys are unchanged; other sections are untouched; a present token becomes `*****` and every other key stays |
| Scrub.ScrubSectionStable | src/ddqa/config/utils.py:8-9 | a section already scrubbed is left unchanged by scrubbing it again |
| Scrub.ScrubSectionUntouched | src/ddqa/config/utils.py:8-12 | scrubbing one section keeps the other section scrubbed |
| Scrub.ScrubIdempotent | src/ddqa/config/utils.py:7-12 | scrubbing twice gives the same document and error as scrubbing once |
| Decimals.Abs | src/ddqa/utils/time.py:28 | the absolute value is non-negative and is `x` or `-x` |
| Decimals.Hundredths | src/ddqa/utils/time.py:24 | the nearest whole number of hundredths; a tie goes to the even one |
| Decimals.Quantize2 | src/ddqa/utils/time.py:30 | the value rounded to a multiple of 0.01, within 0.005 of the input |
| Decimals.QuantizeExact | src/ddqa/utils/time.py:24 | a value that already has two decimals is unchanged |
| Decimals.QuantizeIdempotent | src/ddqa/utils/time.py:43 | quantizing twice is quantizing once |
| Decimals.QuantizeMonotonic | src/ddqa/utils/time.py:43 | quantizing preserves order |
| Decimals.QuantizeAboveOne | src/ddqa/utils/time.py:43 | a quantized value exceeds 1.00 exactly when the value exceeds 1.005, since 1.005 rounds to the even 1.00 |
| ElapsedTime.Factor | src/ddqa/utils/time.py:8-23 | every unit factor is at least one second |
| ElapsedTime.FactorsDecrease | src/ddqa/utils/time.py:15-23 | the units go strictly from largest to smallest |
| ElapsedTime.NextUnit | src/ddqa/utils/time.py:33-36 | the first unit that fits into the remaining time; every unit skipped is too large |
| ElapsedTime.LeadingUnit | src/ddqa/utils/time.py:33-39 | from one second on, the largest unit that fits |
| ElapsedTime.TimesIsProduct | src/ddqa/utils/time.py:39 | `quotient * factor` as computed equals the product |
| ElapsedTime.DivMod | src/ddqa/utils/time.py:34 | `divmod`: `x == q * factor + r` with `0 <= r < factor`, and `q >= 1` exactly when the unit fits |
| ElapsedTime.UnitLabel | src/ddqa/utils/time.py:48 | the unit name is pluralised exactly when its value exceeds 1 |
| ElapsedTime.WholeQuotientPlural | src/ddqa/utils/time.py:34-38 | the whole quotient of a unit exceeds 1 exactly when the unit fits at least twice |
| ElapsedTime.SecondValuePlural | src/ddqa/utils/time.py:40-45 | the second unit's value, exact or quantized, exceeds 1 exactly when more than 1.005 of the unit is left |
| ElapsedTime.ExpectedLabels | src/ddqa/utils/time.py:32-48 | from one second on, the leading unit's label is plural exactly when the unit fits at least twice, and a second unit's label exactly when more than 1.005 of it is left after the leading unit |
| ElapsedTime.CollectIsExpected | src/ddqa/utils/time.py:32-46 | the unit loop collects exactly the parts `Expected` describes |
| ElapsedTime.FormatElapsedTime | src/ddqa/utils/time.py:27-48 | the loop's result is `Expected(abs(seconds))`: below one second, the quantized value; otherwise the leading unit and at most one more |
| ElapsedTime.ExpectedShape | src/ddqa/utils/time.py:32-46 | from one second on, one or two parts are shown; the first is the leading unit with the whole quotient; a second part is a smaller unit |
| ElapsedTime.SecondsDropFraction | src/ddqa/utils/time.py:33-39 | from 1 to under 60 seconds, only the whole seconds are shown |
| ElapsedTime.SecondUnitNeedsRemainder | src/ddqa/utils/time.py:35-46 | a second part is shown exactly when a smaller unit exists and the remainder after the leading unit is at least one second |
| Git.SplitFields | src/ddqa/utils/git.py:46 | `split(maxsplit=2)`: sign and hash are non-empty words without spaces; the subject is the non-empty rest of the line |
| Git.SplitFieldsOfComposedLine | src/ddqa/utils/git.py:46 | splitting a line built from a sign, a hash and a subject recovers those three fields |
| Git.CommitsAppend | src/ddqa/utils/git.py:44-52 | the commits of two blocks of lines are the commits of each block, in order |
| Git.CommitsOfLine | src/ddqa/utils/git.py:48-52 | a line signed `-` contributes nothing; any other line contributes its hash and subject |
| Git.CommitsMembership | src/ddqa/utils/git.py:44-52 | a commit is returned exactly when some line not signed `-` names it |
| Git.CommitsLength | src/ddqa/utils/git.py:44-52 | one commit per line not signed `-` |
| Git.GetMutuallyExclusiveCommits | src/ddqa/utils/git.py:43-54 | fails exactly when some line has fewer than three fields, and reports that line; otherwise returns the hash and subject of every line whose sign is not `-`, in order |
| Text.SplitLinesHaveNoBreaks | src/ddqa/utils/git.py:45 | no line `splitlines` yields contains a line break |
| Text.SplitLinesJoin | src/ddqa/cache/github.py:113-119 | `"\n".join(xs).splitlines() == xs` for non-empty lines without breaks |
| Models.BareCandidate | src/ddqa/models/github.py:19-26 | a candidate with only id, title and url set, and every other field at its default |
| Models.LabelNames | src/ddqa/screens/create.py:30 | the set of the candidate's label names |
| Models.ValidateRepo | src/ddqa/models/config/repo.py:13-29 | the repository configuration is accepted exactly when it has at least two QA statuses and at least one team |
| Models.CoerceDescription | src/ddqa/models/jira.py:36-39 | a null or empty description becomes `''`; any other is kept |
| Models.AssignLookup | src/ddqa/screens/create.py:393 | after `d[key] = value` the key maps to the value, every other key to what it did, and distinct keys stay distinct |
| Models.DictOfContents | src/ddqa/utils/github.py:162-167 | a dict built from pairs has distinct keys, exactly the keys of the pairs, and each key maps to the value of its last pair |
| Models.DictOfOrder | src/ddqa/utils/github.py:162-167 | the keys of a dict built from pairs appear in the order of their first occurrence |
| Models.DictOfDistinct | src/ddqa/screens/status.py:344-346 | pairs whose keys are already distinct build a dict equal to themselves |
| Models.LookupLastAt | src/ddqa/screens/status.py:373-375 | a present key is found at an entry holding it, with no later entry for the same key: the last assignment wins |
| Models.LookupLast | src/ddqa/screens/status.py:373-375 | the same, stated as the existence of that last entry |
| CacheStore.FileStore.constructor | src/ddqa/cache/github.py:23-27 | the store the caches work in starts with no files, standing for an empty cache directory (the caches themselves only record their directory) |
| CacheStore.Entries | src/ddqa/cache/github.py:79 | `iterdir()` lists exactly the names of the files directly below the directory |
| CacheStore.StemOfJson | src/ddqa/cache/github.py:84 | the stem of `<name>.json` is `<name>` |
| CacheStore.StemOfDigits | src/ddqa/cache/github.py:84-86 | the stem of a pull-request marker is its number, never `no_pr` |
| GitHubCaching.GlobalConfigRoundTrip | src/ddqa/cache/github.py:57-69 | a saved configuration is loaded back for its source; other sources and all other files are unchanged |
| GitHubCaching.FromCommitSingle | src/ddqa/cache/github.py:74-87 | a commit directory with one entry is answered by that entry |
| GitHubCaching.CacheRoundTrip | src/ddqa/cache/github.py:74-108 | after caching data for a fresh commit, the commit is answered with exactly that data |
| GitHubCaching.CachePullRequestRoundTrip | src/ddqa/cache/github.py:98-106 | the same for a pull request, through the marker file and `pull_requests/<n>.json` |
| GitHubCaching.CacheNoPullRequestRoundTrip | src/ddqa/cache/github.py:107-108 | the same for a bare commit, through `no_pr.json` |
| GitHubCaching.DuplicateRoundTrip | src/ddqa/cache/github.py:89-96 | the marker written for a duplicate pull request leads a fresh commit back to the cached data of that pull request |
| GitHubCaching.GetTeamMembers | src/ddqa/cache/github.py:110-116 | no roster exactly when the team's file is absent |
| GitHubCaching.TeamMembersRoundTrip | src/ddqa/cache/github.py:110-119 | saved members are read back as the same set, whatever the iteration order |
| GitHubCaching.TeamMembersOthersUnchanged | src/ddqa/cache/github.py:118-119 | saving one team's roster leaves every other team's roster as it was |
| GitHubCaching.WriteTeamMembersKeepsLayout | src/ddqa/cache/github.py:45-49 | writing a roster file preserves what each kind of cache file holds |
| GitHubCaching.CacheKeepsLayout | src/ddqa/cache/github.py:98-108 | caching a candidate keeps every cache file holding what its kind should |
| GitHubCaching.DuplicateKeepsLayout | src/ddqa/cache/github.py:93-96 | writing a duplicate marker for a pull request number does the same |
| GitHubCaching.GitHubCache.constructor | src/ddqa/cache/github.py:24-27 | the cache over a well-laid-out directory |
| GitHubCaching.GitHubCache.SaveGlobalConfigIn | src/ddqa/cache/github.py:57-63 | the directory afterwards is `SaveGlobalConfig` of the old one, and stays well laid out |
| GitHubCaching.GitHubCache.LoadGlobalConfigIn | src/ddqa/cache/github.py:65-69 | `{}` when there is no configuration file |
| GitHubCaching.GitHubCache.CacheCandidateDataIn | src/ddqa/cache/github.py:98-108 | the directory afterwards is `CacheCandidateData` of the old one, and stays well laid out |
| GitHubCaching.GitHubCache.DuplicateFromPullRequestNumberIn | src/ddqa/cache/github.py:93-96 | the directory afterwards is `DuplicateFromPullRequestNumber` of the old one, and stays well laid out |
| GitHubCaching.GitHubCache.FromCommitIn | src/ddqa/cache/github.py:74-87 | the answer is one of the answers the commit directory's entries allow |
| GitHubCaching.GitHubCache.SaveTeamMembersIn | src/ddqa/cache/github.py:118-119 | the roster file holds the members joined by newlines, in some order of the set |
| GitHubCaching.Enumerate | src/ddqa/cache/github.py:119 | iterating a set visits each member exactly once |
| JiraCaching.GetUserIds | src/ddqa/cache/jira.py:36-40 | `{}` when there is no file |
| JiraCaching.GetUserId | src/ddqa/cache/jira.py:42-44 | the id stored under the key of the credentials, if any |
| JiraCaching.UserIdRoundTrip | src/ddqa/cache/jira.py:42-49 | a saved id is read back; other keys keep their ids; no other file changes |
| JiraCaching.SharedUserKey | src/ddqa/cache/jira.py:44-48 | credentials are keyed by e-mail followed by token, so two pairs that concatenate to the same text share an entry |
| JiraCaching.TransitionsRoundTrip | src/ddqa/cache/jira.py:51-61 | saved transitions are read back for the project; other projects and the user ids are unaffected |
| JiraCaching.JiraCache.constructor | src/ddqa/cache/jira.py:12-13 | the cache over the given directory |
| JiraCaching.JiraCache.GetUserIdIn | src/ddqa/cache/jira.py:42-44 | returns `GetUserId` of the current directory |
| JiraCaching.JiraCache.SaveUserIdIn | src/ddqa/cache/jira.py:46-49 | the directory afterwards is `SaveUserId` of the old one |
| JiraCaching.JiraCache.GetTransitionsIn | src/ddqa/cache/jira.py:51-57 | returns `GetTransitions` of the current directory |
| JiraCaching.JiraCache.SaveTransitionsIn | src/ddqa/cache/jira.py:59-61 | the directory afterwards is `SaveTransitions` of the old one |
| Retry.Pow2 | src/ddqa/utils/jira.py:240 | the backoff is always at least one second |
| Retry.ResumeStep | src/ddqa/utils/jira.py:226-243 | one pass of the retry loop: a returned response ends it, a requested pause is slept with the backoff unchanged, a failure sleeps the backoff and doubles it |
| Retry.RunCharacterised | src/ddqa/utils/github.py:207-224 | the loop stops at the first attempt that returns, after one wait per earlier attempt; each wait is the server's pause or `2^(e+f)` after `f` failures |
| Retry.RunStops | src/ddqa/utils/jira.py:224-243 | no wait follows an attempt that returned; a response is the attempt right after the waits; with none, every attempt was waited for |
| Retry.RunWaits | src/ddqa/utils/github.py:207-224 | each wait is the pause the server asked for, or `2^(e + f)` after `f` earlier failures when the backoff started at `2^e` |
| Retry.FirstDoneReturned | src/ddqa/utils/jira.py:224-243 | a response is returned exactly when some attempt returns one, and it is the first such |
| GitHubRepo.RepoId | src/ddqa/utils/github.py:65-70 | fails exactly when the remote does not contain `github.com` (the failing index) |
| GitHubRepo.RepoIdOfRemote | src/ddqa/utils/github.py:65-78 | both remote forms (`https://github.com/o/n.git`, `git@github.com:o/n.git`) give `o/n`, with organisation `o` and name `n` |
| GitHubRepo.PartitionWithoutSlash | src/ddqa/utils/github.py:72-78 | an id without `/` is all organisation and has an empty name |
| GitHubRepo.RepoLayout | src/ddqa/utils/github.py:43-84 | the organisation's configuration file lies outside the repository's three cache directories |
| GitHubRepo.UserLogins | src/ddqa/utils/github.py:104-110 | exactly the logins of the users of type `User`, at most one per user; bots are dropped |
| GitHubRepo.UserLoginsAppend | src/ddqa/utils/github.py:104-110 | the logins keep the response order: those of concatenated responses are the logins of each, one after the other |
| GitHubRepo.UserLoginsOne | src/ddqa/utils/github.py:104-110 | a single user contributes its login exactly when its type is `User` |
| GitHubRepo.ReviewPairs | src/ddqa/utils/github.py:165 | each review as its login and lowercased association |
| GitHubRepo.ReviewersDeduplicated | src/ddqa/utils/github.py:161-167 | one reviewer per login, in the order of first review, with the association of the login's last review |
| GitHubRepo.ReviewerNamesAreKeys | src/ddqa/utils/github.py:161-167 | the reviewer names are the keys of the dictionary built from the reviews, in its order |
| GitHubRepo.ReviewersDistinctKnown | src/ddqa/utils/github.py:161-167 | no login appears twice, and a login is listed exactly when some review has it |
| GitHubRepo.ReviewersLast | src/ddqa/utils/github.py:161-167 | each reviewer carries the association of the last review by that login |
| GitHubRepo.NormalizedBody | src/ddqa/utils/github.py:151-154 | the normalised body contains no carriage return |
| GitHubRepo.PullRequestCandidate | src/ddqa/utils/github.py:138-167 | a pull request's candidate: a digit id, the pull URL, the item's title, user and labels, the normalised body and the deduplicated reviewers |
| GitHubRepo.GitHubStepDone | src/ddqa/utils/github.py:214-224 | only a response that passed the status check is returned |
| GitHubRepo.ApiGet | src/ddqa/utils/github.py:206-224 | the loop's response and waits are `Run` of its attempts, starting from a 2-second backoff |
| GitHubRepo.ApiGetWaits | src/ddqa/utils/github.py:214-222 | the response returned is the first attempt that passed, after one wait per earlier attempt; with no response every attempt was waited on; each wait is the rate-limit reset wait after an exhausted 403, or the doubling backoff after a failure |
| GitHubRepo.CacheRoundTripWhenFresh | src/ddqa/utils/github.py:115-119 | on a fresh commit, data cached by `get_candidate` answers the next lookup |
| GitHubRepo.GitHubRepository.constructor | src/ddqa/utils/github.py:30-33 | the repository over a well-laid-out cache directory |
| GitHubRepo.GitHubRepository.LoadGlobalConfig | src/ddqa/utils/github.py:86-90 | `{}` when there is no configuration file |
| GitHubRepo.GitHubRepository.SaveGlobalConfig | src/ddqa/utils/github.py:92-98 | the directory afterwards is `SaveGlobalConfig` of the old one |
| GitHubRepo.GitHubRepository.GetTeamMembers | src/ddqa/utils/github.py:100-113 | the roster is requested exactly on refresh or when no file exists, and the file is rewritten exactly then; the result is the file's set of lines, and after a request it is the set of `User` logins |
| GitHubRepo.GitHubRepository.GetCandidate | src/ddqa/utils/github.py:115-170 | a cached commit is answered from the cache, which is left unchanged. Otherwise the search runs: no item gives a bare commit candidate; a cached pull request gives a duplicate marker; anything else gives a fresh pull-request candidate, which is then cached |
| JiraMembers.CheckMembers | src/ddqa/models/jira.py:47-54 | the members are accepted exactly when there is at least one |
| JiraMembers.JiraConfig.constructor | src/ddqa/models/jira.py:42-45 | the configuration starts without a reverse map |
| JiraMembers.JiraConfig.JiraUserId | src/ddqa/models/jira.py:56-57 | absent exactly when the login is not a member; otherwise the id the login maps to |
| JiraMembers.JiraConfig.JiraUserIds | src/ddqa/models/jira.py:59-66 | the set of non-empty Jira ids of the mapped logins |
| JiraMembers.JiraConfig.GitHubUserId | src/ddqa/models/jira.py:68-73 | the reverse map is built when absent or empty and reused otherwise; the answer is a lookup in it |
| JiraMembers.ReverseLookup | src/ddqa/models/jira.py:70-73 | the reverse lookup finds nothing exactly when no login maps to the id; otherwise it finds the last such login |
| JiraApi.IssueUrl | src/ddqa/utils/jira.py:245-246 | the server URL, then `browse/`, then the key |
| JiraApi.FormatLabel | src/ddqa/utils/jira.py:248-250 | starts with `ddqa-`, with no spaces and no upper-case letters |
| JiraApi.FormatLabelOfPlain | src/ddqa/utils/jira.py:248-250 | a stripped, lower-case, space-free status is kept verbatim after `ddqa-` |
| JiraApi.ShortId | src/ddqa/utils/jira.py:263 | `id[:7]`: a prefix of the id, seven characters long unless the id is shorter |
| JiraApi.MetadataLines | src/ddqa/utils/jira.py:259-268 | the link line first, then an Author line exactly when there is a user, then a Labels line exactly when there are labels |
| JiraApi.ConstructBody | src/ddqa/utils/jira.py:253-286 | the body starts with the link line and ends with a blank line and the converted description |
| JiraApi.MetadataRoundTrip | src/ddqa/utils/jira.py:259-286 | when the fields have no line breaks, the lines before the first blank line are exactly the metadata lines |
| JiraApi.FormatJqlList | src/ddqa/utils/jira.py:288-291 | a parenthesised list |
| JiraApi.JqlListRoundTrip | src/ddqa/utils/jira.py:288-291 | a JQL list of items without quotes reads back as those items |
| JiraApi.Projects | src/ddqa/utils/jira.py:113 | the teams' Jira projects, in team order |
| JiraApi.SearchQueryParts | src/ddqa/utils/jira.py:112-116 | the query is `project in (...) and labels in (...)`, naming exactly the projects and the labels |
| JiraApi.JiraStepCases | src/ddqa/utils/jira.py:226-243 | a response is returned exactly when it passed and is not rate limited; a rate-limited response with a readable `Retry-After` pauses one second longer than asked |
| JiraApi.ApiRequest | src/ddqa/utils/jira.py:224-243 | the loop's response and waits are `Run` of its attempts, starting from a 2-second backoff |
| JiraApi.ApiRequestWaits | src/ddqa/utils/jira.py:231-241 | the response returned is the first attempt that passed without a rate limit; each earlier wait is the server's pause plus one, or the backoff |
| JiraApi.PaginateCharacterised | src/ddqa/utils/jira.py:111-156 | each request starts at the number of items yielded before it; the items are the pages' items in order; the read stops at the first page whose end reaches the announced total |
| JiraApi.PaginateRequests | src/ddqa/utils/jira.py:117-156 | at most one request per page; a finished read made at least one; one that ran out of pages asked for all of them |
| JiraApi.PaginateItems | src/ddqa/utils/jira.py:140-153 | the items yielded are those of the pages requested, in order |
| JiraApi.PaginateStarts | src/ddqa/utils/jira.py:135 | each request starts at the number of items yielded before it |
| JiraApi.PaginateContinues | src/ddqa/utils/jira.py:155-156 | after every request but the last the count was still below the total that page reported |
| JiraApi.PaginateStops | src/ddqa/utils/jira.py:155-156 | a finished read stopped because its count reached the total of its last page |
| JiraApi.ResumeReadStep | src/ddqa/utils/jira.py:117-156 | one request of the read: the page is yielded and the read stops when the count reaches the page's total, else goes on with the next page |
| JiraApi.YieldPage | src/ddqa/utils/jira.py:140-153 | the page's items are yielded after the earlier ones, one count per item |
| JiraApi.PaginatedRead | src/ddqa/utils/jira.py:158-175 | the paging loop yields exactly `Paginate` of the pages |
| JiraApi.DeactivatedMembers | src/ddqa/utils/jira.py:177-182 | a user is kept exactly when it is among the users read and its `active` is missing or false |
| JiraApi.FilterDeactivated | src/ddqa/utils/jira.py:180-182 | the loop keeps, in order, exactly the users the filter keeps |
| JiraApi.DeactivatedAppend | src/ddqa/utils/jira.py:180-182 | filtering preserves order across pages |
| JiraApi.DeactivatedOfPages | src/ddqa/utils/jira.py:158-182 | the deactivated users of a paginated read are those of its pages, page after page |
| JiraApi.IssueFieldsFor | src/ddqa/utils/jira.py:81-99 | the team's issue type and project; the shared description, labels and summary; `assignee` exactly when the member is non-empty; `components` exactly when the team has a component |
| JiraApi.Requests | src/ddqa/utils/jira.py:86-104 | one request per assignment, in order, each with the fields of that assignment's team and member |
| JiraApi.Created | src/ddqa/utils/jira.py:103 | one entry per assignment under its team, holding the browse URL of the key created for it |
| JiraApi.RequestLoop | src/ddqa/utils/jira.py:86-106 | the loop sends `Requests` and collects `Created`, one step per assignment |
| JiraApi.LoadStepProperties | src/ddqa/utils/jira.py:199-216 | afterwards the issue type is known for its project; the server is asked only when neither the memo nor the cache knows it; the save happens exactly then; other projects are untouched |
| JiraApi.LoadStepIdempotent | src/ddqa/utils/jira.py:200-202 | loading the same project and type again changes nothing and asks no one |
| JiraApi.UpdateIssueStatus | src/ddqa/utils/jira.py:184-197 | fails exactly when no transition is known for the status. Otherwise it posts that transition id and returns a copy of the issue with the new status name and time |
| JiraApi.JiraClient.constructor | src/ddqa/utils/jira.py:60-61 | a client with an empty transition memo |
| JiraApi.JiraClient.GetCurrentUserId | src/ddqa/utils/jira.py:63-71 | a non-empty cached id is returned without a request; otherwise the fetched id is returned and saved |
| JiraApi.JiraClient.CreateIssues | src/ddqa/utils/jira.py:73-106 | one request per assignment, in order, with the team's fields; the result has the assignments' keys in order, each mapped to its issue URL |
| JiraApi.JiraClient.LoadTransitions | src/ddqa/utils/jira.py:199-216 | the memo afterwards is `LoadStep` of the old memo; the cache is written exactly when the server was asked |
| JiraApi.LoadEachKeeps | src/ddqa/utils/jira.py:146-149 | after `__get_transitions` for each issue, every issue's project and type are held, nothing held before is lost, and only the issues' projects' transitions files are written |
| JiraApi.JiraClient.SearchIssues | src/ddqa/utils/jira.py:108-156 | the query, the paginated issues, and the new memo and cache `LoadEach` of the old ones over the issues yielded; every issue's type's transitions are in the memo and no project or type already in the memo is lost |
| JiraApi.JiraClient.GetDeactivatedUsers | src/ddqa/utils/jira.py:158-182 | the deactivated users of the paginated read, in order |
| JiraApi.JiraClient.UpdateStatus | src/ddqa/utils/jira.py:184-197 | `UpdateIssueStatus` on the client's memo; the new issue keeps the key and takes the status |
| Dashboard.AddTo | src/ddqa/screens/status.py:44-45 | `setdefault(k, {})[key] = issue`: the bucket gains the issue, and every other entry and bucket is kept |
| Dashboard.Replaced | src/ddqa/screens/status.py:52-63 | every bucket holding the old key now holds the new issue under it; nothing else changes |
| Dashboard.IssueFilter.constructor | src/ddqa/screens/status.py:44-45 | an empty filter |
| Dashboard.IssueFilter.Add | src/ddqa/screens/status.py:44-45 | the buckets afterwards are `AddTo` of the old ones |
| Dashboard.IssueFilter.Update | src/ddqa/screens/status.py:52-63 | the loop over the buckets leaves `Replaced` of the old buckets |
| Dashboard.TeamIndexKeys | src/ddqa/screens/status.py:373-375 | exactly the configured (project, component) pairs resolve |
| Dashboard.TeamIndexLastWins | src/ddqa/screens/status.py:373-375 | a pair resolves to the last team configured with it |
| Dashboard.TeamStatusesInvert | src/ddqa/screens/status.py:361-371 | a native status maps back to a QA status that names it, the last such in order; an unnamed status is absent |
| Dashboard.FirstConfigured | src/ddqa/screens/status.py:381-383 | the first of the issue's components that is configured for its project |
| Dashboard.GetTeam | src/ddqa/screens/status.py:377-385 | without components, the team of (project, ''); otherwise the team of the first configured component; `''` when there is none |
| Dashboard.GetTeamConfigured | src/ddqa/screens/status.py:377-385 | a resolved team is a configured team |
| Dashboard.GetQaStatus | src/ddqa/screens/status.py:387-388 | fails when the team has no status map; otherwise the mapped QA status, or the initial status when the native status is unmapped |
| Dashboard.QaStatusKnown | src/ddqa/screens/status.py:337-339 | with consistent status maps, an issue that resolves to a team has a QA status, and it is one of the columns |
| Dashboard.LoadAllPlaces | src/ddqa/screens/status.py:401-423 | every issue that resolves to a team is cached and filed under its team and its member. Every filed entry is such an issue, under its own team or member. `issues_found` holds exactly when some issue resolves to a team |
| Dashboard.LoadAllPlaced | src/ddqa/screens/status.py:407-417 | with distinct keys, every issue that resolves to a team is cached and filed under its team and its member |
| Dashboard.LoadAllOnlyKept | src/ddqa/screens/status.py:407-417 | every issue cached or filed is one of the issues that resolves to a team, filed under that team and member |
| Dashboard.LoadAllFound | src/ddqa/screens/status.py:407-423 | the screen found issues exactly when some issue resolves to a team |
| Dashboard.LoadedExactlyOnce | src/ddqa/screens/status.py:413-417 | with distinct keys, a kept issue sits in its own team bucket and member bucket and in no other |
| Dashboard.Sum | src/ddqa/screens/status.py:566 | the sum covers the last count |
| Dashboard.CompletionOf | src/ddqa/screens/status.py:561-573 | no figure when there are no rows. Otherwise done is the last column's count, total the sum, and the percentage `Percentage` of them, between 0 and 100 |
| Dashboard.RatioBounds | src/ddqa/screens/status.py:569 | the exact ratio lies between 0 and 100 and is 100 exactly when all are done, 0 exactly when none is |
| Dashboard.Percentage | src/ddqa/screens/status.py:569-571 | between 0 and 100; the exact ratio when none or all are done; otherwise `Quantize2` of it (two decimals, ties to even), within half a hundredth of the exact ratio |
| Dashboard.MoveEnabled | src/ddqa/screens/status.py:486-493 | nothing happens where `get_qa_status` raises; otherwise the Move button is enabled exactly when the current user is the assignee and the pressed status is not `GetQaStatus` of the issue |
| Dashboard.MoveToOwnColumnDisabled | src/ddqa/screens/status.py:486-493 | on a consistent screen, choosing the issue's own column never enables Move, whoever is assigned |
| Dashboard.MoveLeavesCurrentColumn | src/ddqa/screens/status.py:486-493 | on a consistent screen, an enabled Move starts from one of the screen's columns, names a different status, and is open only to the assignee |
| Dashboard.StatusScreen.constructor | src/ddqa/screens/status.py:337-359 | empty filters and columns |
| Dashboard.StatusScreen.LoadIssue | src/ddqa/screens/status.py:407-417 | the state afterwards is `LoadOne` of the old state |
| Dashboard.StatusScreen.Load | src/ddqa/screens/status.py:401-423 | the state afterwards is `LoadAll` of the old state |
| Dashboard.StatusColumnsMembers | src/ddqa/screens/status.py:344-346 | the columns dict has a column for exactly the configured QA statuses |
| Dashboard.StatusColumnsShape | src/ddqa/screens/status.py:344-346 | each QA status is one column, however often it is configured, and the columns follow the order of first occurrence |
| Dashboard.StatusColumnsOfDistinct | src/ddqa/screens/status.py:344-346 | with no QA status repeated the columns are the QA statuses as configured |
| Dashboard.StatusScreen.CompletionStatus | src/ddqa/screens/status.py:561-573 | one count per column of `statuses`, in its order, each the column's size, and the figure `CompletionOf` them |
| CreateScreen.DefaultAssignments | src/ddqa/screens/create.py:27-35 | one switch per configured team, in team order |
| CreateScreen.DefaultAssignmentRule | src/ddqa/screens/create.py:30-35 | a team is assigned by default exactly when no label is ignored and some label is one of the team's |
| CreateScreen.StatusIndicator | src/ddqa/screens/create.py:37-43 | `✓` exactly when some team is assigned, `''` otherwise |
| CreateScreen.DefaultIndicator | src/ddqa/screens/create.py:28-43 | a new candidate shows `✓` exactly when one of its labels is some team's label and none is an ignored label |
| CreateScreen.IgnoredNeverAssigned | src/ddqa/screens/create.py:31-33 | a candidate with an ignored label is assigned to no team |
| CreateScreen.ListedModelsComplete | src/ddqa/screens/create.py:86-102 | the listed models are resolved models; every bare commit is listed; every id is represented; no pull request number is listed twice |
| CreateScreen.ListedFromModels | src/ddqa/screens/create.py:86-102 | every listed model is one of the models read |
| CreateScreen.BareCommitsListed | src/ddqa/screens/create.py:88-102 | every model that is not a pull request number is listed |
| CreateScreen.IdsRepresented | src/ddqa/screens/create.py:88-102 | every id read is listed at least once |
| CreateScreen.NumbersListedOnce | src/ddqa/screens/create.py:88-93 | no pull request number is listed twice |
| CreateScreen.ListedPositions | src/ddqa/screens/create.py:86-97 | the positions of the listed models, increasing, each a model listed as the first of its number and the one listed at that index |
| CreateScreen.ListedPositionsComplete | src/ddqa/screens/create.py:86-97 | every model listed as the first of its number has its position recorded |
| CreateScreen.ListedBeforePosition | src/ddqa/screens/create.py:95 | the `k`-th listed model is preceded by `k` listed ones, so `index = i - ignored` is `k` and `ignored` is its position less `k` |
| CreateScreen.ProgressStep | src/ddqa/screens/create.py:88-100 | a listed model adds the label `index + 1 / total - ignored` with `ignored` the models skipped so far; a skipped one adds none |
| CreateScreen.ProgressBounds | src/ddqa/screens/create.py:99-100 | label `k` reads `k + 1 / total - (p - k)` with `p` the position of the `k`-th listed model, and its denominator lies between `k + 1` and the total |
| CreateScreen.Listing | src/ddqa/screens/create.py:96-97 | each listed model becomes a candidate with its default assignments |
| CreateScreen.ListedCandidates | src/ddqa/screens/create.py:86-102 | the candidates are the listed models, in order, each with one switch per team |
| CreateScreen.SeenBefore | src/ddqa/screens/create.py:88-93 | with the numbers seen so far, a model is listed exactly when it is not a number already seen, and the seen set grows by its number |
| CreateScreen.CreateDisabled | src/ddqa/screens/create.py:222-225 | the Create button is disabled exactly when no candidate is assigned |
| CreateScreen.CreateDisabledKeepsNone | src/ddqa/screens/create.py:114-117 | the Create button is disabled exactly when creating would keep no candidate |
| CreateScreen.Eligible | src/ddqa/screens/create.py:142-145 | the roster without the author and the reviewers |
| CreateScreen.AssignedTeams | src/ddqa/screens/create.py:138-140 | exactly the teams switched on |
| CreateScreen.Kept | src/ddqa/screens/create.py:114-120 | exactly the assigned candidates |
| CreateScreen.KeptAppend | src/ddqa/screens/create.py:114-117 | keeping preserves order |
| CreateScreen.ListCandidates | src/ddqa/screens/create.py:79-102 | the loop lists `ListedCandidates`, counts `IgnoredCount` skipped duplicates, and shows for each listed model the label `index + 1 / total - ignored` with `ignored` the models skipped before it |
| CreateScreen.PickAssignees | src/ddqa/screens/create.py:137-148 | one pick per assigned team, in order: an eligible member, or `''` when none is eligible |
| CreateScreen.CreatePass | src/ddqa/screens/create.py:134-174 | the loop finishes exactly when issue creation never fails. Each candidate processed gets valid picks. The status is `Finished` or the failure message |
| CreateScreen.CandidateListing.constructor | src/ddqa/screens/create.py:47-54 | an empty listing with the two refs |
| CreateScreen.WrittenFromZero | src/ddqa/screens/create.py:95-97 | writing keys 0, 1, ... into a dict keyed 0, 1, ... replaces the entries present under those keys in place and appends the rest |
| CreateScreen.CandidateListing.Load | src/ddqa/screens/create.py:71-109 | `ListedCandidates` are written under keys 0, 1, ... of the listing. The status is the ref range when nothing is listed, and otherwise `Ready for creation` or `No candidates assigned` |
| CreateScreen.CandidateListing.SwitchChanged | src/ddqa/screens/create.py:388-396 | only the candidate under the cursor changes, in the switched team; the button state, the sidebar status text of `update_assignment_status` (create.py:222-225) and the indicator follow |
| CreateScreen.CandidateListing.Create | src/ddqa/screens/create.py:111-174 | the listing keeps only the assigned candidates, in order; the creation pass runs over them |
| CreateScreen.CandidateListing.FilterAssigned | src/ddqa/screens/create.py:114-117 | the assigned candidates of the listing, in order |

## Left out

- The Textual widgets, rendering and key bindings are not modelled: sidebars, tables, buttons, dropdowns and the candidate rendering pane. The texts the handlers put into them are modelled as results where the core computes them: the progress labels, the Create screen's sidebar status and the completion figure. The result table built after each created issue (`create.py:156-168`) is one of them.
- The HTTP transport is not modelled (`utils/network.py`, `check_status` messages, authentication). Responses and attempt outcomes are inputs.
- Reading the clock is not modelled. The GitHub rate-limit wait takes the attempt's clock reading as a field. `datetime.now` in `update_issue_status` is a `now` parameter.
- File-system mechanics are not modelled: `write_atomic`, `touch`, `ensure_dir_exists` and temporary files. Each write is one atomic update of the path map. JSON encoding and decoding are taken to round-trip exactly.
- The Jira user key (SHA-256 then base64url of e-mail followed by token) is an opaque function `userKey`.
- The regex rewrites of links, headers and code fences in `__construct_body` are an opaque `convert` function. The metadata section is modelled.
- Configuration loading, validation beyond the two validators modelled, and the CLI are not modelled.
- The git subprocess is not modelled: `capture` and the error path of `__on_mount` when git fails (`create.py:72-77`). The output of `git cherry -v` is the input.
- The candidates `get_candidate` resolves on the Create screen are the input `models`. Team rosters are the function `roster`.
- The issue-creation request on the Create screen is the input `failure`: the candidate index at which `create_issues` raises, and its message. The call at `create.py:151` passes no labels to `create_issues`, whose signature requires them (`utils/jira.py:73-79`). Each function is modelled by its own signature.
- `status.py:364` reads `app.qa_statuses`, which is not defined on the application. The per-team QA status maps are therefore an input of the dashboard.
- `ElapsedTime.FormatElapsedTime`: shows the parts as (unit, value) pairs. It does not model how `Decimal` values are printed as text.
- `Decimals.Quantize2`: uses exact rational arithmetic. It does not model the 28-digit precision context of Python's `decimal` module.
- `JiraApi.FormatLabel`: lowers ASCII letters only. `strip` and `lower` are not modelled on non-ASCII characters, and neither is Unicode case folding.
- `str.isdigit` is taken on ASCII digits only, so other Unicode digits are not modelled. `str.isspace` is taken on a fixed list of whitespace characters (`Text.IsSpace`).
- `GitHubRepo.ApiGet`: the source retries forever. The model ends with no response when the given attempts run out. An unparsable rate-limit header counts as a failed attempt.
- `JiraApi.ApiRequest`: the source retries forever. The model ends with no response when the given attempts run out. An unparsable `Retry-After` header counts as a failed attempt.
- `JiraApi.PaginatedRead`: the read ends when the given pages run out, even if the server would answer more pages.
- `JiraApi.JiraClient.LoadTransitions`: the memo entry for the project is written once, with its final value. The source creates the entry with `setdefault`, merges the cached map into it and then adds the fetched type. The states in between are not modelled.
- `JiraApi.JiraClient.SearchIssues`: the transitions of the issues are loaded after the paginated read, not between pages. The order of requests is therefore not modelled.
- `Dashboard.StatusScreen.LoadIssue` (and `Load`, `LoadOne`, `LoadAll` and the `StatusScreen` constructor, through `Valid`): they require `Consistent`. Every team the index resolves to must have a status map, and every mapped QA status must be a column. The `KeyError` the source raises otherwise, at `status.py:388` for a team without a status map and at `status.py:417` for an unknown QA status, is not modelled for loading. That includes the filters already updated for the issue before the raise. `GetQaStatus` on its own does return `None` for the first case.
- Response headers are a map keyed by lower-cased name, since httpx compares header names without regard to case. A header sent on several lines, which httpx joins with commas, is one entry with the joined value.
- `Dashboard.StatusScreen.Load`: the columns hold issue keys, not table rows. `get_current_user_id` after the loop is modelled separately, in `JiraClient.GetCurrentUserId`.
- `CreateScreen.PickAssignees`: `secrets.choice(sorted(...))` is an arbitrary eligible member. Team exclusion lists (`exclude_members`) are not applied, because `create.py` does not apply them.
- The status-screen actions that move an issue (the Move button handler) are modelled only as `MoveEnabled` and `JiraApi.UpdateIssueStatus`. The subsequent table and filter refresh is modelled as `IssueFilter.Update`.
