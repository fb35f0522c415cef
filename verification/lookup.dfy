/** `discoverUsers`: the linear scan that resolves the code owner and the
    commenter of an event against the directory. */
module Lookup {
  import opened Wrappers
  import opened Users
  import opened Payload

  /** What a directory entry is matched on. `NoKey` is the owner key of a
      payload with neither a merge request nor a commit: nothing matches it. */
  datatype Key = ByGitlabID(id: int) | ByEmail(email: string) | NoKey

  predicate Matches(u: User, key: Key)
  {
    match key
    case ByGitlabID(id) => u.gitlabID == id
    case ByEmail(email) => u.email == email
    case NoKey => false
  }

  /** Index of the LAST entry matching `key`: the scan has no `break`, so
      later matches overwrite earlier ones. */
  function LastMatch(dir: seq<User>, key: Key): (r: Option<nat>)
    ensures r.Some? ==> r.value < |dir| && Matches(dir[r.value], key)
    ensures r.Some? ==> forall j :: r.value < j < |dir| ==> !Matches(dir[j], key)
    ensures r.None? ==> forall j :: 0 <= j < |dir| ==> !Matches(dir[j], key)
    decreases |dir|
  {
    if |dir| == 0 then None
    else if Matches(dir[|dir| - 1], key) then Some(|dir| - 1)
    else LastMatch(dir[..|dir| - 1], key)
  }

  /** The resolved user: the last match, or Go's zero `User` when none. */
  function Resolve(dir: seq<User>, key: Key): User
  {
    match LastMatch(dir, key)
    case Some(i) => dir[i]
    case None => Zero
  }

  /** `u` is what a last-match-wins scan of `dir` for `key` yields. */
  ghost predicate Resolved(dir: seq<User>, key: Key, u: User)
  {
    || (exists i :: 0 <= i < |dir| && u == dir[i] && Matches(dir[i], key)
                    && forall j :: i < j < |dir| ==> !Matches(dir[j], key))
    || (u == Zero && forall j :: 0 <= j < |dir| ==> !Matches(dir[j], key))
  }

  lemma ResolveIsResolved(dir: seq<User>, key: Key)
    ensures Resolved(dir, key, Resolve(dir, key))
  {
    match LastMatch(dir, key)
    case Some(i) =>
    case None =>
  }

  /** The scan dereferences the attribution block, and the commit author when
      there is no merge request, for every entry; with an empty directory it
      reads neither. A nil commit author is not modelled: it panics in Go. */
  predicate DiscoverSafe(root: RootRequest, users: Option<seq<User>>)
  {
    users.Some? && |users.value| > 0 ==>
      && root.objectAttributes.Some?
      && (root.mergeRequest.None? && root.commit.Some? ==> root.commit.value.author.Some?)
  }

  /** The code owner's key: the merge request's author id when a merge request
      is present (its nested last commit is ignored), else the commit author's
      email. */
  function OwnerKey(root: RootRequest): Key
    requires root.mergeRequest.None? && root.commit.Some? ==> root.commit.value.author.Some?
  {
    if root.mergeRequest.Some? then ByGitlabID(root.mergeRequest.value.authorID)
    else if root.commit.Some? then ByEmail(root.commit.value.author.value.email)
    else NoKey
  }

  function CommenterKey(root: RootRequest): Key
    requires root.objectAttributes.Some?
  {
    ByGitlabID(root.objectAttributes.value.authorID)
  }

  datatype Discovery = Discovery(codeAuthor: User, commentAuthor: User)

  /** `discoverUsers`: nothing when the directory was never populated,
      otherwise always a pair, each the last matching entry or the zero user. */
  function Discover(root: RootRequest, users: Option<seq<User>>): (r: Option<Discovery>)
    requires DiscoverSafe(root, users)
    ensures r.None? <==> users.None?
    ensures r.Some? && |users.value| == 0 ==> r.value == Discovery(Zero, Zero)
    ensures r.Some? && |users.value| > 0 ==>
              && Resolved(users.value, OwnerKey(root), r.value.codeAuthor)
              && Resolved(users.value, CommenterKey(root), r.value.commentAuthor)
  {
    match users
    case None => None
    case Some(dir) =>
      if |dir| == 0 then Some(Discovery(Zero, Zero))
      else
        ResolveIsResolved(dir, OwnerKey(root));
        ResolveIsResolved(dir, CommenterKey(root));
        Some(Discovery(Resolve(dir, OwnerKey(root)), Resolve(dir, CommenterKey(root))))
  }

  /** The loop of `discoverUsers` as written: one pass that overwrites the
      commenter on every id match and the owner on every key match. */
  method DiscoverUsers(root: RootRequest, users: Option<seq<User>>) returns (r: Option<Discovery>)
    requires DiscoverSafe(root, users)
    ensures r == Discover(root, users)
  {
    if users.None? {
      return None;
    }
    var dir := users.value;
    if |dir| == 0 {
      // The loop body never runs, so neither pointer is dereferenced.
      return Some(Discovery(Zero, Zero));
    }
    var codeAuthor := Zero;
    var commentAuthor := Zero;
    var i := 0;
    while i < |dir|
      invariant 0 <= i <= |dir|
      invariant commentAuthor == Resolve(dir[..i], CommenterKey(root))
      invariant codeAuthor == Resolve(dir[..i], OwnerKey(root))
    {
      var user := dir[i];
      assert dir[..i + 1][..i] == dir[..i];
      if root.objectAttributes.value.authorID == user.gitlabID {
        commentAuthor := user;
      }
      if root.mergeRequest.Some? {
        if root.mergeRequest.value.authorID == user.gitlabID {
          codeAuthor := user;
        }
      } else if root.commit.Some? {
        if root.commit.value.author.value.email == user.email {
          codeAuthor := user;
        }
      }
      i := i + 1;
    }
    assert dir[..|dir|] == dir;
    r := Some(Discovery(codeAuthor, commentAuthor));
  }

  /** Lookup only fails when the directory is absent; a populated directory
      with no matching entry yields two zero users, not a failure. */
  lemma NoMatchGivesZeroUsers(root: RootRequest, dir: seq<User>)
    requires DiscoverSafe(root, Some(dir))
    requires |dir| > 0
    requires forall j :: 0 <= j < |dir| ==> !Matches(dir[j], OwnerKey(root))
    requires forall j :: 0 <= j < |dir| ==> !Matches(dir[j], CommenterKey(root))
    ensures Discover(root, Some(dir)) == Some(Discovery(Zero, Zero))
  {
  }

  /** Last match wins: the entry at `i` is chosen exactly when it matches and
      no later entry does, however many earlier entries also match. */
  lemma {:induction false} ResolvePicksLast(dir: seq<User>, key: Key, i: nat)
    requires i < |dir| && Matches(dir[i], key)
    requires forall j :: i < j < |dir| ==> !Matches(dir[j], key)
    ensures LastMatch(dir, key) == Some(i)
    ensures Resolve(dir, key) == dir[i]
    decreases |dir|
  {
    if i < |dir| - 1 {
      var init := dir[..|dir| - 1];
      assert init[i] == dir[i];
      assert forall j :: i < j < |init| ==> init[j] == dir[j];
      ResolvePicksLast(init, key, i);
    }
  }
}
