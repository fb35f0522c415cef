/** The identity directory: the email join of the GitLab and Slack user lists
    (`populateUsers`) and the process state it replaces wholesale. */
module Directory {
  import opened Wrappers
  import opened Users

  /** Index of the first Slack user whose email is exactly `email`. */
  function FirstSlackMatch(email: string, slack: seq<User>): (r: Option<nat>)
    ensures r.Some? ==> r.value < |slack| && slack[r.value].email == email
    ensures r.Some? ==> forall j :: 0 <= j < r.value ==> slack[j].email != email
    ensures r.None? ==> forall j :: 0 <= j < |slack| ==> slack[j].email != email
    decreases |slack|
  {
    if |slack| == 0 then None
    else if slack[0].email == email then Some(0)
    else
      match FirstSlackMatch(email, slack[1..])
      case None => None
      case Some(i) => Some(i + 1)
  }

  /** The merged record: email and GitLab fields from `g`, Slack fields from `s`. */
  function Correlate(g: User, s: User): User
  {
    User(g.email, s.slackID, s.slackUsername, g.gitlabID, g.gitlabUsername)
  }

  /** What one GitLab user contributes to the directory: nothing, or one record
      merged with the first Slack user sharing its email. */
  function Entry(g: User, slack: seq<User>): seq<User>
  {
    match FirstSlackMatch(g.email, slack)
    case None => []
    case Some(j) => [Correlate(g, slack[j])]
  }

  /** The directory a successful rebuild produces, in GitLab-list order. */
  function Joined(gitlab: seq<User>, slack: seq<User>): seq<User>
    decreases |gitlab|
  {
    if |gitlab| == 0 then []
    else Joined(gitlab[..|gitlab| - 1], slack) + Entry(gitlab[|gitlab| - 1], slack)
  }

  /** `u` is the merge of GitLab user `i` with its first Slack match. */
  ghost predicate ContributedBy(u: User, gitlab: seq<User>, slack: seq<User>, i: int)
  {
    && 0 <= i < |gitlab|
    && FirstSlackMatch(gitlab[i].email, slack).Some?
    && u == Correlate(gitlab[i], slack[FirstSlackMatch(gitlab[i].email, slack).value])
  }

  /** The nested loop of `populateUsers`: for each GitLab user, scan the Slack
      users and keep the first one with the same email. */
  method PopulateUsers(gitlab: seq<User>, slack: seq<User>) returns (internal: seq<User>)
    ensures internal == Joined(gitlab, slack)
  {
    internal := [];
    var i := 0;
    while i < |gitlab|
      invariant 0 <= i <= |gitlab|
      invariant internal == Joined(gitlab[..i], slack)
    {
      var gu := gitlab[i];
      var found: Option<nat> := None;
      var j := 0;
      while j < |slack|
        invariant 0 <= j <= |slack|
        invariant found.None? ==> forall k :: 0 <= k < j ==> slack[k].email != gu.email
        invariant found.Some? ==> found == FirstSlackMatch(gu.email, slack)
      {
        if gu.email == slack[j].email {
          FirstMatchAt(gu.email, slack, j);
          found := Some(j);
          internal := internal + [Correlate(gu, slack[j])];
          break;
        }
        j := j + 1;
      }
      if found.None? {
        NoMatch(gu.email, slack);
      }
      assert gitlab[..i + 1][..i] == gitlab[..i];
      i := i + 1;
    }
    assert gitlab[..|gitlab|] == gitlab;
  }

  lemma FirstMatchAt(email: string, slack: seq<User>, j: nat)
    requires j < |slack| && slack[j].email == email
    requires forall k :: 0 <= k < j ==> slack[k].email != email
    ensures FirstSlackMatch(email, slack) == Some(j)
  {
  }

  lemma NoMatch(email: string, slack: seq<User>)
    requires forall k :: 0 <= k < |slack| ==> slack[k].email != email
    ensures FirstSlackMatch(email, slack) == None
  {
  }

  /** The rebuild distributes over concatenation of the GitLab list: entries
      keep GitLab-list order and each GitLab user contributes independently. */
  lemma {:induction false} JoinedAppend(g1: seq<User>, g2: seq<User>, slack: seq<User>)
    ensures Joined(g1 + g2, slack) == Joined(g1, slack) + Joined(g2, slack)
    decreases |g2|
  {
    if |g2| == 0 {
      assert g1 + g2 == g1;
    } else {
      var g2' := g2[..|g2| - 1];
      assert (g1 + g2)[..|g1 + g2| - 1] == g1 + g2';
      assert (g1 + g2)[|g1 + g2| - 1] == g2[|g2| - 1];
      JoinedAppend(g1, g2', slack);
    }
  }

  /** Every directory entry is the merge of some GitLab user with that user's
      first Slack match, and every GitLab user that has a Slack match yields
      one. Unmatched GitLab users contribute nothing. */
  lemma {:induction false} JoinedMembership(gitlab: seq<User>, slack: seq<User>, u: User)
    ensures u in Joined(gitlab, slack) <==> exists i :: ContributedBy(u, gitlab, slack, i)
    decreases |gitlab|
  {
    if |gitlab| > 0 {
      var n := |gitlab| - 1;
      var init := gitlab[..n];
      JoinedMembership(init, slack, u);
      assert forall i :: 0 <= i < n ==> init[i] == gitlab[i];
      if u in Joined(gitlab, slack) {
        if u in Joined(init, slack) {
          var i :| ContributedBy(u, init, slack, i);
          assert ContributedBy(u, gitlab, slack, i);
        } else {
          assert u in Entry(gitlab[n], slack);
          assert ContributedBy(u, gitlab, slack, n);
        }
      }
      if exists i :: ContributedBy(u, gitlab, slack, i) {
        var i :| ContributedBy(u, gitlab, slack, i);
        if i < n {
          assert ContributedBy(u, init, slack, i);
        } else {
          assert u in Entry(gitlab[n], slack);
        }
      }
    }
  }

  /** Exactly the email intersection: an entry's email occurs in both lists,
      and its Slack half belongs to a Slack user carrying that email. */
  lemma EntriesAreCorrelated(gitlab: seq<User>, slack: seq<User>, u: User)
    requires u in Joined(gitlab, slack)
    ensures exists i :: 0 <= i < |gitlab| && gitlab[i].email == u.email
                        && gitlab[i].gitlabID == u.gitlabID
                        && gitlab[i].gitlabUsername == u.gitlabUsername
    ensures exists j :: 0 <= j < |slack| && slack[j].email == u.email
                        && slack[j].slackID == u.slackID
                        && slack[j].slackUsername == u.slackUsername
  {
    JoinedMembership(gitlab, slack, u);
    var i :| ContributedBy(u, gitlab, slack, i);
    var j := FirstSlackMatch(gitlab[i].email, slack).value;
    assert slack[j].email == u.email;
  }

  /** A GitLab user whose email no Slack user carries is dropped. */
  lemma UnmatchedDropped(gitlab: seq<User>, slack: seq<User>, u: User)
    requires u in Joined(gitlab, slack)
    ensures exists j :: 0 <= j < |slack| && slack[j].email == u.email
  {
    EntriesAreCorrelated(gitlab, slack, u);
  }

  /** When every GitLab user has a Slack match, nobody is dropped. */
  lemma {:induction false} AllMatchedKeepsEveryone(gitlab: seq<User>, slack: seq<User>)
    requires forall i :: 0 <= i < |gitlab| ==> FirstSlackMatch(gitlab[i].email, slack).Some?
    ensures |Joined(gitlab, slack)| == |gitlab|
    decreases |gitlab|
  {
    if |gitlab| > 0 {
      var init := gitlab[..|gitlab| - 1];
      assert forall i :: 0 <= i < |init| ==> init[i] == gitlab[i];
      AllMatchedKeepsEveryone(init, slack);
      assert FirstSlackMatch(gitlab[|gitlab| - 1].email, slack).Some?;
    }
  }

  /** The outcome of one `ListUsers` call: an error, a nil list, or a list. */
  datatype Listing = ListError | ListNil | Listed(users: seq<User>)

  /** The process-wide state: the directory (`None` until the first successful
      rebuild) and the allow-list of active users. */
  datatype State = State(users: Option<seq<User>>, activeUsers: seq<User>)

  /** One run of `populateUsers`: the Slack list is fetched first, then the
      GitLab list; if either failed or was nil the state is kept, otherwise
      the directory is replaced by the join, even when the join is empty. */
  function Refresh(st: State, slackList: Listing, gitlabList: Listing): (st': State)
    ensures st'.activeUsers == st.activeUsers
    ensures !slackList.Listed? || !gitlabList.Listed? ==> st' == st
    ensures slackList.Listed? && gitlabList.Listed? ==>
              st'.users == Some(Joined(gitlabList.users, slackList.users))
  {
    if !slackList.Listed? then st
    else if !gitlabList.Listed? then st
    else st.(users := Some(Joined(gitlabList.users, slackList.users)))
  }

  /** Running the same rebuild twice is the same as running it once. */
  lemma RefreshIdempotent(st: State, slackList: Listing, gitlabList: Listing)
    ensures Refresh(Refresh(st, slackList, gitlabList), slackList, gitlabList)
         == Refresh(st, slackList, gitlabList)
  {
  }

  /** A successful rebuild does not depend on the old directory at all: the
      replacement is wholesale, nothing is merged with stale entries. */
  lemma RefreshReplacesWholesale(st1: State, st2: State, slackList: Listing, gitlabList: Listing)
    requires slackList.Listed? && gitlabList.Listed?
    ensures Refresh(st1, slackList, gitlabList).users == Refresh(st2, slackList, gitlabList).users
  {
  }

  /** A successful fetch with no common email still swaps in an empty
      directory rather than keeping the old one. */
  lemma EmptyJoinStillReplaces(st: State, gitlab: seq<User>, slack: seq<User>)
    requires forall i, j :: 0 <= i < |gitlab| && 0 <= j < |slack| ==> gitlab[i].email != slack[j].email
    ensures Refresh(st, Listed(slack), Listed(gitlab)).users == Some([])
  {
    if Joined(gitlab, slack) != [] {
      var u := Joined(gitlab, slack)[0];
      EntriesAreCorrelated(gitlab, slack, u);
    }
  }
}
