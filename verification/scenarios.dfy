/** The test fixtures (a two-user directory, both users active, and the two
    comment payloads) and the scenarios the handler tests pin down. */
module Scenarios {
  import opened Wrappers
  import opened Users
  import opened Directory
  import opened Active
  import opened Payload
  import opened Lookup
  import opened Handlers

  const Stephen1 := User("stephen1@molecule.io", "SLACKID1", "smeriwether1", 1, "smeriwether1")
  const Stephen2 := User("stephen2@molecule.io", "SLACKID2", "smeriwether2", 2, "smeriwether2")
  const FixtureUsers := [Stephen1, Stephen2]

  /** The test setup: the directory doubles as the allow-list. */
  const Fixture := State(Some(FixtureUsers), FixtureUsers)

  const MergeRequestNoteURL := "http://example.com/gitlab-org/gitlab-test/merge_requests/1#note_1244"
  const CommitNoteURL := "http://example.com/gitlab-org/gitlab-test/commit/cfe32cf61b73a0d5e9f13e774abde7#note_1243"
  const CommitURL := "http://example.com/gitlab-org/gitlab-test/commit/cfe32cf61b73a0d5e9f13e774abde7ff789b1660"

  /** A note by GitLab user 1 on a merge request authored by user 2, whose
      last commit is nevertheless authored by stephen1. */
  function MergeRequestComment(commenterID: int): RootRequest
  {
    RootRequest(
      NoteKind,
      Some(Project("Gitlab Test")),
      Some(ObjectAttributes("This MR needs work.", commenterID, MergeRequestNoteURL, None, None)),
      Some(MergeRequest(2, Some(Commit(
        "http://example.com/gitlab-org/gitlab-test/commit/562e173be03b8ff2efb05345d12df188154",
        Some(Author("Stephen 1 Meriwether", "stephen1@molecule.io")))))),
      None)
  }

  /** A note by GitLab user 2 on a commit authored by stephen1@molecule.io. */
  const CommitComment := RootRequest(
    NoteKind,
    Some(Project("Gitlab Test")),
    Some(ObjectAttributes("This is a commit comment. How does this work?", 2, CommitNoteURL, None, None)),
    None,
    Some(Commit(CommitURL, Some(Author("Stephen 1 Meriwether", "stephen1@molecule.io")))))

  /** The owner of the merge-request note is found by the merge request's
      author id (user 2); the nested last commit's email is not consulted. */
  lemma MergeRequestOwnerByAuthorID()
    ensures MergeRequestComment(1).mergeRequest.value.lastCommit.value.author.value.email == Stephen1.email
    ensures Discover(MergeRequestComment(1), Fixture.users) == Some(Discovery(Stephen2, Stephen1))
  {
    ResolvePicksLast(FixtureUsers, ByGitlabID(2), 1);
    ResolvePicksLast(FixtureUsers, ByGitlabID(1), 0);
  }

  /** The two fixture users share no attribute. */
  lemma FixtureUsersDiffer()
    ensures !Same(Stephen1, Stephen2) && !Same(Stephen2, Stephen1)
  {
    assert Stephen1.email[7] != Stephen2.email[7];
    assert Stephen1.slackID[7] != Stephen2.slackID[7];
    assert Stephen1.slackUsername[11] != Stephen2.slackUsername[11];
    assert Stephen1.gitlabUsername[11] != Stephen2.gitlabUsername[11];
  }

  lemma FixtureUsersActive()
    ensures ActiveUser(Stephen1, FixtureUsers) && ActiveUser(Stephen2, FixtureUsers)
  {
    assert FixtureUsers[0].gitlabUsername == Stephen1.gitlabUsername;
    assert FixtureUsers[1].gitlabUsername == Stephen2.gitlabUsername;
  }

  /** A merge-request note by smeriwether1 notifies SLACKID2, with a text that
      begins "smeriwether1 made a comment" and the note as attachment. */
  lemma MergeRequestCommentNotifiesAuthor()
    ensures CommentWebhook(Decoded(MergeRequestComment(1)), Fixture)
         == Response(StatusOK, Some(Post("SLACKID2",
              CommentText("smeriwether1", MergeRequestNoteURL), "This MR needs work.")))
    ensures IsPrefix("smeriwether1" + " made a comment",
              CommentWebhook(Decoded(MergeRequestComment(1)), Fixture).post.value.text)
  {
    MergeRequestOwnerByAuthorID();
    FixtureUsersActive();
    FixtureUsersDiffer();
    assert CommentNotifies(Decoded(MergeRequestComment(1)), Fixture);
    CommentTextNamesCommenter("smeriwether1", MergeRequestNoteURL);
  }

  /** A commit note by smeriwether2 notifies SLACKID1, the commit author found
      by email, with a text that begins "smeriwether2 made a comment". */
  lemma CommitCommentNotifiesAuthor()
    ensures CommentWebhook(Decoded(CommitComment), Fixture)
         == Response(StatusOK, Some(Post("SLACKID1",
              CommentText("smeriwether2", CommitNoteURL), "This is a commit comment. How does this work?")))
    ensures IsPrefix("smeriwether2" + " made a comment",
              CommentWebhook(Decoded(CommitComment), Fixture).post.value.text)
  {
    ResolvePicksLast(FixtureUsers, ByEmail("stephen1@molecule.io"), 0);
    ResolvePicksLast(FixtureUsers, ByGitlabID(2), 1);
    assert Discover(CommitComment, Fixture.users) == Some(Discovery(Stephen1, Stephen2));
    FixtureUsersActive();
    FixtureUsersDiffer();
    assert CommentNotifies(Decoded(CommitComment), Fixture);
    CommentTextNamesCommenter("smeriwether2", CommitNoteURL);
  }

  /** With only smeriwether1 active, the merge-request note (owned by
      smeriwether2) is answered 200 and nobody is notified. */
  lemma InactiveOwnerGetsNothing()
    ensures CommentWebhook(Decoded(MergeRequestComment(1)), Fixture.(activeUsers := [Stub("smeriwether1")]))
         == Response(StatusOK, None)
  {
    MergeRequestOwnerByAuthorID();
    assert Stub("smeriwether1").gitlabUsername[11] != Stephen2.gitlabUsername[11];
    assert !ActiveUser(Stephen2, [Stub("smeriwether1")]);
  }

  /** A commenter missing from a populated directory is not a discovery error:
      lookup yields the zero user, and the owner is notified with an empty
      commenter name. */
  lemma UnknownCommenterStillNotifies()
    ensures CommentWebhook(Decoded(MergeRequestComment(99)), Fixture)
         == Response(StatusOK, Some(Post("SLACKID2",
              CommentText("", MergeRequestNoteURL), "This MR needs work.")))
  {
    ResolvePicksLast(FixtureUsers, ByGitlabID(2), 1);
    assert Discover(MergeRequestComment(99), Fixture.users) == Some(Discovery(Stephen2, Zero));
    FixtureUsersActive();
    assert !Same(Stephen2, Zero);
    assert CommentNotifies(Decoded(MergeRequestComment(99)), Fixture);
  }

  /** Before the first rebuild there is no directory, and a valid note is a
      discovery error. */
  lemma UnpopulatedDirectoryIsDiscoveryError()
    ensures CommentWebhook(Decoded(MergeRequestComment(1)), Fixture.(users := None))
         == Response(StatusInternalServerError, None)
  {
  }

  /** A failed pipeline on stephen1's commit of master in "Gitlab Test". */
  const FailedPipelineEvent := RootRequest(
    PipelineKind,
    Some(Project("Gitlab Test")),
    Some(ObjectAttributes("", 0, "", Some(FailedStatus), Some("master"))),
    None,
    Some(Commit(CommitURL, Some(Author("Stephen 1 Meriwether", "stephen1@molecule.io")))))

  /** It notifies SLACKID1, found by the commit author's email, with the
      project and ref appended and no attachment. */
  lemma FailedPipelineNotifiesCommitAuthor()
    ensures PipelineWebhook(Decoded(FailedPipelineEvent), Fixture)
         == Response(StatusOK, Some(Post("SLACKID1", PipelineText(FailedPipelineEvent), "")))
    ensures PipelineText(FailedPipelineEvent)
         == "Pipeline failed for your <" + CommitURL + "|Commit>" + " (" + "Gitlab Test" + "/" + "master" + ")"
  {
    ResolvePicksLast(FixtureUsers, ByEmail("stephen1@molecule.io"), 0);
    FixtureUsersActive();
  }

  /** The allow-list parse drops empty pieces and keeps order. */
  lemma ActiveUsersSettingDropsEmptyPieces()
    ensures ParseActiveUsers(JoinWith(["smeriwether1", "", "smeriwether2", ""], ','))
         == Some([Stub("smeriwether1"), Stub("smeriwether2")])
  {
    var parts := ["smeriwether1", "", "smeriwether2", ""];
    var names := ["smeriwether1", "smeriwether2"];
    var setting := JoinWith(parts, ',');
    assert forall i :: 0 <= i < |parts| ==> ',' !in parts[i];
    SplitJoinWith(parts, ',');
    assert Split(setting, ',') == parts;
    assert NonEmpty(parts) == names by {
      assert parts[1..] == ["", "smeriwether2", ""];
      assert parts[1..][1..] == ["smeriwether2", ""];
      assert parts[1..][1..][1..] == [""];
    }
    assert Stubs(names) == [Stub("smeriwether1"), Stub("smeriwether2")];
  }

  /** An empty setting, or one of only commas, is the fatal empty allow-list. */
  lemma EmptyActiveUsersSettingIsFatal()
    ensures ParseActiveUsers(JoinWith(["", "", ""], ',')) == None
    ensures ParseActiveUsers("") == None
  {
    SplitJoinWith(["", "", ""], ',');
  }
}
