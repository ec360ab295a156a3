/** `JiraCache` (src/ddqa/cache/jira.py): below `<cache>/jira`, the Jira
    account id of each set of credentials and the workflow transitions of
    each project:

      user_ids.json                    user key -> account id
      projects/<project>/transitions.json
                                       issue type -> status name -> transition id

    The user key is a digest of the e-mail address followed by the token;
    the digest (SHA-256, then base64url) is an opaque function `userKey`. */
module JiraCaching {
  import opened Wrappers
  import opened Models
  import opened CacheStore

  function UserIdsFile(root: Path): Path { root + ["jira", "user_ids.json"] }

  function TransitionsFile(root: Path, project: string): Path {
    root + ["jira", "projects", project, "transitions.json"]
  }

  /** `get_user_ids()`: the stored map, or `{}` when the file is absent. */
  function GetUserIds(root: Path, files: map<Path, Doc>): (r: map<string, string>)
    ensures UserIdsFile(root) !in files ==> r == map[]
  {
    var p := UserIdsFile(root);
    if p in files && files[p].UserIdsDoc? then files[p].ids else map[]
  }

  /** `get_user_id(email, token)`: the id stored under the credentials' key. */
  function GetUserId(root: Path, files: map<Path, Doc>, userKey: string -> string, email: string, token: string): (r: Option<string>)
    ensures r.None? <==> userKey(email + token) !in GetUserIds(root, files)
    ensures r.Some? ==> r.value == GetUserIds(root, files)[userKey(email + token)]
  {
    var ids := GetUserIds(root, files);
    var k := userKey(email + token);
    if k in ids then Some(ids[k]) else None
  }

  /** `save_user_id(email, token, id)`: read, set one key, write back. */
  function SaveUserId(root: Path, files: map<Path, Doc>, userKey: string -> string, email: string, token: string, id: string): map<Path, Doc> {
    files[UserIdsFile(root) := UserIdsDoc(GetUserIds(root, files)[userKey(email + token) := id])]
  }

  /** `get_transitions(issue)` for the issue's project, or `{}`. */
  function GetTransitions(root: Path, files: map<Path, Doc>, project: string): (r: map<string, map<string, string>>)
    ensures TransitionsFile(root, project) !in files ==> r == map[]
  {
    var p := TransitionsFile(root, project);
    if p in files && files[p].TransitionsDoc? then files[p].byType else map[]
  }

  /** `save_transitions(issue, transitions)`: the project's file is
      overwritten with the whole map. */
  function SaveTransitions(root: Path, files: map<Path, Doc>, project: string, transitions: map<string, map<string, string>>): map<Path, Doc> {
    files[TransitionsFile(root, project) := TransitionsDoc(transitions)]
  }

  /** A saved id is read back for the same credentials; every other stored
      key keeps its id, and no other file changes. */
  lemma UserIdRoundTrip(root: Path, files: map<Path, Doc>, userKey: string -> string, email: string, token: string, id: string)
    ensures GetUserId(root, SaveUserId(root, files, userKey, email, token, id), userKey, email, token) == Some(id)
    ensures forall k :: k in GetUserIds(root, files) && k != userKey(email + token) ==>
      k in GetUserIds(root, SaveUserId(root, files, userKey, email, token, id)) &&
      GetUserIds(root, SaveUserId(root, files, userKey, email, token, id))[k] == GetUserIds(root, files)[k]
    ensures GetUserIds(root, SaveUserId(root, files, userKey, email, token, id)).Keys ==
      GetUserIds(root, files).Keys + {userKey(email + token)}
    ensures forall p :: p in files && p != UserIdsFile(root) ==>
      SaveUserId(root, files, userKey, email, token, id)[p] == files[p]
  {
  }

  /** Credentials are keyed by their concatenation only: two pairs whose
      e-mail and token run together to the same text share one entry. */
  lemma SharedUserKey(root: Path, files: map<Path, Doc>, userKey: string -> string, e1: string, t1: string, e2: string, t2: string, id: string)
    requires e1 + t1 == e2 + t2
    ensures GetUserId(root, SaveUserId(root, files, userKey, e1, t1, id), userKey, e2, t2) == Some(id)
  {
  }

  lemma TransitionsFilesDistinct(root: Path, project: string, other: string)
    requires project != other
    ensures TransitionsFile(root, project) != TransitionsFile(root, other)
    ensures TransitionsFile(root, project) != UserIdsFile(root)
  {
    assert TransitionsFile(root, project)[|root| + 2] == project;
    assert TransitionsFile(root, other)[|root| + 2] == other;
  }

  /** Saved transitions are read back for every issue of the same project;
      other projects' transitions and the stored user ids are unaffected. */
  lemma TransitionsRoundTrip(root: Path, files: map<Path, Doc>, project: string, transitions: map<string, map<string, string>>, other: string)
    requires other != project
    ensures GetTransitions(root, SaveTransitions(root, files, project, transitions), project) == transitions
    ensures GetTransitions(root, SaveTransitions(root, files, project, transitions), other) == GetTransitions(root, files, other)
    ensures GetUserIds(root, SaveTransitions(root, files, project, transitions)) == GetUserIds(root, files)
  {
    TransitionsFilesDistinct(root, project, other);
  }

  /** The Jira part of the cache directory. */
  class JiraCache {
    const root: Path
    const userKey: string -> string
    const store: FileStore

    constructor(root: Path, userKey: string -> string, store: FileStore)
      ensures this.root == root && this.userKey == userKey && this.store == store
    {
      this.root := root;
      this.userKey := userKey;
      this.store := store;
    }

    method GetUserIdIn(email: string, token: string) returns (r: Option<string>)
      ensures r == GetUserId(root, store.files, userKey, email, token)
    {
      var ids := GetUserIds(root, store.files);
      var k := userKey(email + token);
      r := if k in ids then Some(ids[k]) else None;
    }

    method SaveUserIdIn(email: string, token: string, id: string)
      modifies store
      ensures store.files == SaveUserId(root, old(store.files), userKey, email, token, id)
    {
      var ids := GetUserIds(root, store.files);
      ids := ids[userKey(email + token) := id];
      store.files := store.files[UserIdsFile(root) := UserIdsDoc(ids)];
    }

    method GetTransitionsIn(issue: JiraIssue) returns (r: map<string, map<string, string>>)
      ensures r == GetTransitions(root, store.files, issue.project)
    {
      var p := TransitionsFile(root, issue.project);
      r := if p in store.files && store.files[p].TransitionsDoc? then store.files[p].byType else map[];
    }

    method SaveTransitionsIn(issue: JiraIssue, transitions: map<string, map<string, string>>)
      modifies store
      ensures store.files == SaveTransitions(root, old(store.files), issue.project, transitions)
    {
      store.files := store.files[TransitionsFile(root, issue.project) := TransitionsDoc(transitions)];
    }
  }
}
