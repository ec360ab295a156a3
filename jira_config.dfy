/** `JiraConfig` (src/ddqa/models/jira.py): the Jira server and the map from
    GitHub logins to Jira account ids, with a reverse map built on first
    use and kept afterwards. */
module JiraMembers {
  import opened Wrappers
  import opened Models

  /** `check_members`: a configuration without members is rejected. */
  function CheckMembers(members: seq<(string, string)>): (r: Result<seq<(string, string)>, string>)
    ensures r.Ok? <==> members != []
    ensures r.Ok? ==> r.value == members
  {
    if members == [] then Err("must have at least one member") else Ok(members)
  }

  /** The Jira ids of the given GitHub ids that are mapped to a non-empty
      id. */
  ghost function MappedIds(members: seq<(string, string)>, githubIds: seq<string>): set<string> {
    set k | 0 <= k < |githubIds| && Lookup(members, githubIds[k]).Some? && Lookup(members, githubIds[k]).value != "" ::
      Lookup(members, githubIds[k]).value
  }

  class JiraConfig {
    const jiraServer: string
    var members: seq<(string, string)>
    /** `__reversed_members`: `None` until the first reverse lookup. */
    var reversedMembers: Option<seq<(string, string)>>

    constructor(jiraServer: string, members: seq<(string, string)>)
      requires CheckMembers(members).Ok?
      ensures this.jiraServer == jiraServer && this.members == members && reversedMembers == None
    {
      this.jiraServer := jiraServer;
      this.members := members;
      reversedMembers := None;
    }

    /** `get_jira_user_id_from_github_user_id(g)`: `members.get(g)`. */
    function JiraUserId(githubId: string): (r: Option<string>)
      reads this
      ensures r.None? <==> !HasKey(members, githubId)
      ensures r.Some? ==> (githubId, r.value) in members
    {
      Lookup(members, githubId)
    }

    /** `get_jira_user_ids_from_github_user_ids(ids)`: the mapped Jira ids,
        skipping unmapped logins and empty ids. */
    method JiraUserIds(githubIds: seq<string>) returns (res: set<string>)
      ensures res == MappedIds(members, githubIds)
    {
      res := {};
      var i := 0;
      while i < |githubIds|
        invariant 0 <= i <= |githubIds|
        invariant res == MappedIds(members, githubIds[..i])
      {
        assert githubIds[..i + 1] == githubIds[..i] + [githubIds[i]];
        var jiraId := JiraUserId(githubIds[i]);
        if jiraId.Some? && jiraId.value != "" {
          res := res + {jiraId.value};
        }
        i := i + 1;
      }
      assert githubIds[..i] == githubIds;
    }

    /** `get_github_user_id_from_jira_user_id(j)`: the reverse map is built
        when absent or empty, and reused otherwise. */
    method GitHubUserId(jiraId: string) returns (r: Option<string>)
      modifies this
      ensures members == old(members)
      ensures old(reversedMembers).Some? && old(reversedMembers).value != [] ==>
        reversedMembers == old(reversedMembers)
      ensures !(old(reversedMembers).Some? && old(reversedMembers).value != []) ==>
        reversedMembers == Some(DictOf(Swapped(members)))
      ensures r == Lookup(reversedMembers.value, jiraId)
    {
      if reversedMembers.None? || reversedMembers.value == [] {
        reversedMembers := Some(DictOf(Swapped(members)));
      }
      r := Lookup(reversedMembers.value, jiraId);
    }
  }

  /** A lookup through a freshly built reverse map finds a GitHub login
      mapped to that Jira id, the last one in member order when several
      are; it finds nothing exactly when no login maps to it. */
  lemma ReverseLookup(members: seq<(string, string)>, jiraId: string)
    ensures var r := Lookup(DictOf(Swapped(members)), jiraId);
      && (r.None? <==> forall k :: 0 <= k < |members| ==> members[k].1 != jiraId)
      && (r.Some? ==> exists k :: (0 <= k < |members| && members[k] == (r.value, jiraId) &&
            forall k' :: k < k' < |members| ==> members[k'].1 != jiraId))
  {
    var sw := Swapped(members);
    DictOfContents(sw);
    if HasKey(sw, jiraId) {
      LookupLast(sw, jiraId);
    } else {
      forall k | 0 <= k < |members| ensures members[k].1 != jiraId {
        assert KeysOf(sw)[k] == jiraId ==> HasKey(sw, jiraId);
      }
    }
  }
}
