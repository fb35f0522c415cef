/** The two webhook handlers reduced to decisions: a status code and at most
    one Slack post. The fire-and-forget dispatch is the `post` field. */
module Handlers {
  import opened Wrappers
  import opened Users
  import opened Directory
  import opened Active
  import opened Payload
  import opened Lookup

  /** A request as the handler sees it: no body, a body that failed to
      decode, or a decoded payload. */
  datatype Request = NoBody | BadJson | Decoded(root: RootRequest)

  /** The arguments of one `PostMessage(channel, message, attachment)` call. */
  datatype Post = Post(channel: string, text: string, attachment: string)

  datatype Response = Response(status: int, post: Option<Post>)

  const StatusOK := 200
  const StatusBadRequest := 400
  const StatusInternalServerError := 500

  predicate IsPrefix(p: string, s: string)
  {
    |p| <= |s| && s[..|p|] == p
  }

  predicate IsSuffix(q: string, s: string)
  {
    |q| <= |s| && s[|s| - |q|..] == q
  }

  /** The comment notification text, with a Slack link to the note. */
  function CommentText(commenter: string, url: string): (t: string)
    ensures IsPrefix(commenter + " made a comment on your <" + url, t)
    ensures IsSuffix("|Merge Request>", t)
    ensures |t| == |commenter + " made a comment on your <" + url| + |"|Merge Request>"|
  {
    var head := commenter + " made a comment on your <" + url;
    var t := head + "|Merge Request>";
    assert t[..|head|] == head;
    assert t[|t| - |"|Merge Request>"|..] == "|Merge Request>";
    t
  }

  /** The notification names the commenter first: "<name> made a comment". */
  lemma CommentTextNamesCommenter(commenter: string, url: string)
    ensures IsPrefix(commenter + " made a comment", CommentText(commenter, url))
  {
    var head := commenter + " made a comment on your <" + url;
    assert head[..|commenter + " made a comment"|] == commenter + " made a comment";
  }

  /** The pipeline notification text: a Slack link to the commit, followed by
      " (project/ref)" when both the project and the ref are present. */
  function PipelineText(root: RootRequest): (t: string)
    requires root.commit.Some? && root.objectAttributes.Some?
    ensures IsPrefix("Pipeline failed for your <" + root.commit.value.url + "|Commit>", t)
    ensures root.project.Some? && root.objectAttributes.value.ref.Some? ==>
              IsSuffix(" (" + root.project.value.name + "/" + root.objectAttributes.value.ref.value + ")", t)
    ensures root.project.Some? && root.objectAttributes.value.ref.Some? ==>
              |t| == |"Pipeline failed for your <" + root.commit.value.url + "|Commit>"|
                   + |" (" + root.project.value.name + "/" + root.objectAttributes.value.ref.value + ")"|
    ensures !(root.project.Some? && root.objectAttributes.value.ref.Some?) ==>
              |t| == |"Pipeline failed for your <" + root.commit.value.url + "|Commit>"|
    ensures t[|t| - 1] == ')' <==> root.project.Some? && root.objectAttributes.value.ref.Some?
  {
    var base := "Pipeline failed for your <" + root.commit.value.url + "|Commit>";
    var t :=
      if root.project.Some? && root.objectAttributes.value.ref.Some? then
        base + " (" + root.project.value.name + "/" + root.objectAttributes.value.ref.value + ")"
      else base;
    assert t[..|base|] == base;
    assert root.project.Some? && root.objectAttributes.value.ref.Some? ==>
      var suffix := " (" + root.project.value.name + "/" + root.objectAttributes.value.ref.value + ")";
      t == base + suffix && t[|t| - |suffix|..] == suffix;
    t
  }

  /** What the comment handler needs to avoid a nil dereference in lookup. */
  predicate CommentSafe(req: Request, users: Option<seq<User>>)
  {
    req.Decoded? && CommentRequest(req.root) && Valid(req.root) ==> DiscoverSafe(req.root, users)
  }

  /** A decoded, valid note event that lookup resolves to an active owner who
      is not the same person as the commenter. */
  predicate CommentNotifies(req: Request, st: State)
    requires CommentSafe(req, st.users)
  {
    && req.Decoded? && CommentRequest(req.root) && Valid(req.root) && st.users.Some?
    && var d := Discover(req.root, st.users).value;
       ActiveUser(d.codeAuthor, st.activeUsers) && !Same(d.codeAuthor, d.commentAuthor)
  }

  /** `CommentWebhookHandler`. */
  function CommentWebhook(req: Request, st: State): (r: Response)
    requires CommentSafe(req, st.users)
    ensures r.status == StatusOK || r.status == StatusBadRequest || r.status == StatusInternalServerError
    ensures r.status == StatusBadRequest <==>
              req.NoBody? || (req.Decoded? && !(CommentRequest(req.root) && Valid(req.root)))
    ensures r.status == StatusInternalServerError <==>
              req.BadJson? || (req.Decoded? && CommentRequest(req.root) && Valid(req.root) && st.users.None?)
    ensures r.post.Some? ==> r.status == StatusOK
    ensures r.post.Some? <==> CommentNotifies(req, st)
    ensures r.post.Some? ==>
              var d := Discover(req.root, st.users).value;
              var attrs := req.root.objectAttributes.value;
              r.post.value == Post(d.codeAuthor.slackID, CommentText(d.commentAuthor.gitlabUsername, attrs.url), attrs.note)
  {
    match req
    case NoBody => Response(StatusBadRequest, None)
    case BadJson => Response(StatusInternalServerError, None)
    case Decoded(root) =>
      if !CommentRequest(root) || !Valid(root) then Response(StatusBadRequest, None)
      else
        match Discover(root, st.users)
        case None => Response(StatusInternalServerError, None)
        case Some(d) =>
          if !ActiveUser(d.codeAuthor, st.activeUsers) || Same(d.codeAuthor, d.commentAuthor) then
            Response(StatusOK, None)
          else
            var attrs := root.objectAttributes.value;
            Response(StatusOK, Some(Post(d.codeAuthor.slackID, CommentText(d.commentAuthor.gitlabUsername, attrs.url), attrs.note)))
  }

  /** What the pipeline handler needs to avoid a nil dereference in lookup. */
  predicate PipelineSafe(req: Request, users: Option<seq<User>>)
  {
    && req.Decoded? && PipelineRequest(req.root) && Valid(req.root) && req.root.commit.Some?
    && FailedPipeline(req.root)
    ==> DiscoverSafe(req.root, users)
  }

  /** A decoded, valid, failed pipeline event with a commit whose owner
      resolves to an active user. */
  predicate PipelineNotifies(req: Request, st: State)
    requires PipelineSafe(req, st.users)
  {
    && req.Decoded? && PipelineRequest(req.root) && Valid(req.root) && req.root.commit.Some?
    && FailedPipeline(req.root) && st.users.Some?
    && ActiveUser(Discover(req.root, st.users).value.codeAuthor, st.activeUsers)
  }

  /** `PipelineWebhookHandler`. */
  function PipelineWebhook(req: Request, st: State): (r: Response)
    requires PipelineSafe(req, st.users)
    ensures r.status == StatusOK || r.status == StatusBadRequest || r.status == StatusInternalServerError
    ensures r.status == StatusBadRequest <==>
              || req.NoBody?
              || (req.Decoded? && !(PipelineRequest(req.root) && Valid(req.root) && req.root.commit.Some?))
    ensures r.status == StatusInternalServerError <==>
              || req.BadJson?
              || (&& req.Decoded? && PipelineRequest(req.root) && Valid(req.root) && req.root.commit.Some?
                  && FailedPipeline(req.root) && st.users.None?)
    ensures r.post.Some? ==> r.status == StatusOK
    ensures r.post.Some? <==> PipelineNotifies(req, st)
    ensures r.post.Some? ==>
              r.post.value == Post(Discover(req.root, st.users).value.codeAuthor.slackID, PipelineText(req.root), "")
  {
    match req
    case NoBody => Response(StatusBadRequest, None)
    case BadJson => Response(StatusInternalServerError, None)
    case Decoded(root) =>
      if !PipelineRequest(root) || !Valid(root) || root.commit.None? then Response(StatusBadRequest, None)
      else if !FailedPipeline(root) then Response(StatusOK, None)
      else
        match Discover(root, st.users)
        case None => Response(StatusInternalServerError, None)
        case Some(d) =>
          if !ActiveUser(d.codeAuthor, st.activeUsers) then Response(StatusOK, None)
          else Response(StatusOK, Some(Post(d.codeAuthor.slackID, PipelineText(root), "")))
  }

  /** With a parsed allow-list, every comment notification goes to a real
      directory entry that matches the owner key and is active: the zero user
      of a failed lookup is never notified. */
  lemma CommentPostTargetsOwner(req: Request, st: State)
    requires CommentSafe(req, st.users)
    requires WellFormed(st.activeUsers)
    requires CommentWebhook(req, st).post.Some?
    ensures exists i :: 0 <= i < |st.users.value|
              && st.users.value[i].slackID == CommentWebhook(req, st).post.value.channel
              && Matches(st.users.value[i], OwnerKey(req.root))
              && ActiveUser(st.users.value[i], st.activeUsers)
  {
    OwnerIsDirectoryEntry(req.root, st);
  }

  /** The same guarantee for pipeline notifications. */
  lemma PipelinePostTargetsOwner(req: Request, st: State)
    requires PipelineSafe(req, st.users)
    requires WellFormed(st.activeUsers)
    requires PipelineWebhook(req, st).post.Some?
    ensures exists i :: 0 <= i < |st.users.value|
              && st.users.value[i].slackID == PipelineWebhook(req, st).post.value.channel
              && Matches(st.users.value[i], OwnerKey(req.root))
              && ActiveUser(st.users.value[i], st.activeUsers)
  {
    OwnerIsDirectoryEntry(req.root, st);
  }

  /** An active resolved owner is a directory entry matching the owner key. */
  lemma OwnerIsDirectoryEntry(root: RootRequest, st: State)
    requires DiscoverSafe(root, st.users) && st.users.Some?
    requires WellFormed(st.activeUsers)
    requires ActiveUser(Discover(root, st.users).value.codeAuthor, st.activeUsers)
    ensures |st.users.value| > 0
    ensures exists i :: 0 <= i < |st.users.value|
              && st.users.value[i] == Discover(root, st.users).value.codeAuthor
              && Matches(st.users.value[i], OwnerKey(root))
  {
    ZeroNeverActive(st.activeUsers);
  }

  /** Self-commentary is suppressed: an owner and commenter sharing any one
      attribute get a 200 and no post. */
  lemma SelfCommentSuppressed(req: Request, st: State)
    requires CommentSafe(req, st.users)
    requires req.Decoded? && CommentRequest(req.root) && Valid(req.root) && st.users.Some?
    requires Same(Discover(req.root, st.users).value.codeAuthor, Discover(req.root, st.users).value.commentAuthor)
    ensures CommentWebhook(req, st) == Response(StatusOK, None)
  {
  }

  /** A commenter missing from a populated directory is not a discovery
      error: they become the zero user, so an active owner who shares no
      attribute with the zero user is notified with an empty commenter name. */
  lemma UnknownCommenterNotifiesWithEmptyName(req: Request, st: State)
    requires CommentSafe(req, st.users)
    requires req.Decoded? && CommentRequest(req.root) && Valid(req.root)
    requires st.users.Some? && |st.users.value| > 0
    requires forall j :: 0 <= j < |st.users.value| ==> !Matches(st.users.value[j], CommenterKey(req.root))
    requires ActiveUser(Discover(req.root, st.users).value.codeAuthor, st.activeUsers)
    requires !Same(Discover(req.root, st.users).value.codeAuthor, Zero)
    ensures CommentWebhook(req, st) == Response(StatusOK, Some(Post(
              Discover(req.root, st.users).value.codeAuthor.slackID,
              CommentText("", req.root.objectAttributes.value.url),
              req.root.objectAttributes.value.note)))
  {
  }

  /** The other half: an owner who shares an attribute with the zero user
      counts as the commenter, so an unknown commenter then causes no post. */
  lemma UnknownCommenterSilencedByZeroLikeOwner(req: Request, st: State)
    requires CommentSafe(req, st.users)
    requires req.Decoded? && CommentRequest(req.root) && Valid(req.root)
    requires st.users.Some? && |st.users.value| > 0
    requires forall j :: 0 <= j < |st.users.value| ==> !Matches(st.users.value[j], CommenterKey(req.root))
    requires Same(Discover(req.root, st.users).value.codeAuthor, Zero)
    ensures CommentWebhook(req, st) == Response(StatusOK, None)
  {
  }

  /** An inactive owner is never notified of a comment, and the answer is 200. */
  lemma InactiveOwnerSuppressed(req: Request, st: State)
    requires CommentSafe(req, st.users)
    requires req.Decoded? && CommentRequest(req.root) && Valid(req.root) && st.users.Some?
    requires !ActiveUser(Discover(req.root, st.users).value.codeAuthor, st.activeUsers)
    ensures CommentWebhook(req, st) == Response(StatusOK, None)
  {
  }

  /** A pipeline event that did not fail gets 200 and no post without the
      directory being consulted: the answer is the same for any state. */
  lemma NonFailedPipelineIgnoresState(root: RootRequest, st1: State, st2: State)
    requires PipelineRequest(root) && Valid(root) && root.commit.Some?
    requires !FailedPipeline(root)
    ensures PipelineWebhook(Decoded(root), st1) == Response(StatusOK, None)
    ensures PipelineWebhook(Decoded(root), st1) == PipelineWebhook(Decoded(root), st2)
  {
  }

  /** End to end: after a successful rebuild, with a parsed allow-list, a
      comment notification goes to the Slack ID of a Slack user whose email is
      also a GitLab user's email, and that GitLab user is active. */
  lemma RefreshedCommentPostIsCorrelated(st: State, slack: seq<User>, gitlab: seq<User>, req: Request)
    requires WellFormed(st.activeUsers)
    requires CommentSafe(req, Refresh(st, Listed(slack), Listed(gitlab)).users)
    requires CommentWebhook(req, Refresh(st, Listed(slack), Listed(gitlab))).post.Some?
    ensures exists j :: 0 <= j < |slack|
              && slack[j].slackID == CommentWebhook(req, Refresh(st, Listed(slack), Listed(gitlab))).post.value.channel
              && exists i :: 0 <= i < |gitlab| && gitlab[i].email == slack[j].email
                             && ActiveUser(gitlab[i], st.activeUsers)
  {
    var st' := Refresh(st, Listed(slack), Listed(gitlab));
    CommentPostTargetsOwner(req, st');
    var dir := st'.users.value;
    var k :| 0 <= k < |dir| && dir[k].slackID == CommentWebhook(req, st').post.value.channel
             && ActiveUser(dir[k], st'.activeUsers);
    EntriesAreCorrelated(gitlab, slack, dir[k]);
    var i :| 0 <= i < |gitlab| && gitlab[i].email == dir[k].email && gitlab[i].gitlabUsername == dir[k].gitlabUsername;
    var j :| 0 <= j < |slack| && slack[j].email == dir[k].email && slack[j].slackID == dir[k].slackID;
    assert st'.activeUsers == st.activeUsers;
    assert ActiveUser(dir[k], st.activeUsers);
    var a :| 0 <= a < |st.activeUsers| && st.activeUsers[a].gitlabUsername == dir[k].gitlabUsername;
    assert st.activeUsers[a].gitlabUsername == gitlab[i].gitlabUsername;
  }
}
