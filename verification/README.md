# gitlab-slack-notifier: identity correlation and event filtering

This project models the core of a small relay between GitLab webhooks and Slack.
The relay keeps a directory of users who have both a GitLab and a Slack account with the same email.
For each incoming comment (`note`) or pipeline event, it decides whether to post a Slack message, to whom, and with what text.
Everything is written as pure functions over decoded payloads and a small state record:

- `Directory`: `populateUsers` is a nested-loop email join of the two user lists. A rebuild replaces the directory wholesale, and a failed or nil fetch leaves the state unchanged.
- `Lookup`: `discoverUsers` is a last-match-wins linear scan. It resolves the code owner (by merge-request author id, else by commit-author email) and the commenter (by note author id). It yields Go's zero `User` when nothing matches.
- `Active`: the `ACTIVE_USERS` comma split, which drops empty pieces and does no trimming, and the `activeUser` allow-list test.
- `Users`: the `User` record and the inclusive-OR `Same` test.
- `Payload`: the decoded `RootRequest` fields the handlers read, with `Option` for each Go pointer, and the `Valid`, `CommentRequest`, `PipelineRequest` and `FailedPipeline` predicates.
- `Handlers`: `CommentWebhookHandler` and `PipelineWebhookHandler` as decisions. Each gives a status code (200/400/500) and at most one `Post(channel, text, attachment)`.
- `Auth`: the shared-secret check of `AuthHandler.ServeHTTP`.
- `Scenarios`: the fixtures and scenarios of the handler tests, as concrete lemmas.

Behaviour of the code that the model keeps as written:
- Lookup keeps the LAST matching directory entry, because the scan at main.go:279-294 has no `break`. The join, by contrast, takes the first Slack match (main.go:341).
- A populated directory never yields "not found" (main.go:275-296). An unmatched owner or commenter is the zero `User`, so the 500 "user discovery error" only happens before the first successful rebuild (main.go:299). A commenter missing from the directory can still cause a post. The commenter becomes the zero `User`, and an active owner is notified with an empty commenter name, unless the owner shares an attribute with the zero `User` (an empty email, Slack id, Slack name or GitLab username, or GitLab id 0), in which case `Same` suppresses the post (`Handlers.UnknownCommenterNotifiesWithEmptyName`, `Handlers.UnknownCommenterSilencedByZeroLikeOwner`).
- The pipeline handler resolves the owner through the same `discoverUsers`, so it uses the merge-request author id whenever the payload carries a `merge_request` block (main.go:181, main.go:284-287), and the commit author's email otherwise.

## Model

| member | source | states |
|---|---|---|
| `Users.SameReflexive` | main.go:360-366 | every user is the same person as themself |
| `Users.SameSymmetric` | main.go:360-366 | the same-person test does not depend on argument order |
| `Users.ZeroSameAsZero` | main.go:275-276 | two never-found (zero-value) users count as the same person |
| `Users.SameWeakerThanEquality` | main.go:360-366 | two different users can be the same person by sharing one attribute |
| `Users.SameNotTransitive` | main.go:360-366 | the same-person relation does not chain across a third user |
| `Users.NotSameAsZero` | main.go:360-366 | a user with all five attributes set is not the same person as the zero user |
| `Directory.FirstSlackMatch` | main.go:332-342 | the chosen Slack user carries the email and no earlier Slack user does; none is chosen only when no Slack user carries it |
| `Directory.PopulateUsers` | main.go:330-344 | the nested loop with the inner `break` computes exactly the email join |
| `Directory.JoinedAppend` | main.go:330-344 | the join distributes over concatenation of the GitLab list, so entries stay in GitLab-list order |
| `Directory.JoinedMembership` | main.go:330-344 | a record is in the directory iff it merges some GitLab user with that user's first same-email Slack user |
| `Directory.EntriesAreCorrelated` | main.go:333-340 | each entry's email, GitLab id and username come from one GitLab user, and its Slack id and name from a Slack user with the same email |
| `Directory.UnmatchedDropped` | main.go:331-344 | no entry exists for an email that no Slack user carries |
| `Directory.AllMatchedKeepsEveryone` | main.go:331-344 | when every GitLab user has a Slack match, the directory has one entry per GitLab user |
| `Directory.Refresh` | main.go:319-347 | an error or nil list from either fetch keeps the state; otherwise the directory becomes the join, and the allow-list is untouched |
| `Directory.RefreshIdempotent` | main.go:315-348 | rebuilding twice from the same lists equals rebuilding once |
| `Directory.RefreshReplacesWholesale` | main.go:347 | a successful rebuild does not depend on the previous directory |
| `Directory.EmptyJoinStillReplaces` | main.go:330-347 | successful fetches with no common email install an empty directory |
| `Active.Split` | main.go:57 | the pieces contain no separator and rejoin to the input |
| `Active.SplitJoinWith` | main.go:57 | splitting a separator-joined list of separator-free pieces gives the pieces back |
| `Active.NonEmpty` | main.go:59-62 | keeps exactly the non-empty pieces, never more of them than there are pieces, and is empty iff every piece is empty |
| `Active.NonEmptyAppend` | main.go:59-64 | dropping empty pieces distributes over concatenation, so the kept pieces stay in input order |
| `Active.ParseActiveUsers` | main.go:56-69 | fails (the startup panic) iff every comma piece is empty; otherwise a non-empty list of username-only stubs whose names are exactly the non-empty comma pieces, each non-empty and comma-free |
| `Active.ActiveUser` | main.go:302-312 | true iff some allow-list entry has exactly the user's GitLab username |
| `Active.ParsedIsWellFormed` | main.go:59-64 | a parsed allow-list never holds an empty username |
| `Active.ZeroNeverActive` | main.go:302-312 | the zero user is never active on such an allow-list |
| `Active.ActiveUnderSetting` | main.go:56-69 | under a parsed setting, a user is active iff their username is non-empty and is verbatim one of the comma pieces |
| `Active.ParseJoinedNames` | main.go:56-69 | joining non-empty, comma-free usernames with "," and parsing gives one stub per name, in order |
| `Payload.KindsExclusive` | main.go:386-392 | no payload is both a comment and a pipeline event |
| `Payload.NoReferenceInvalid` | main.go:382-384 | a payload with neither merge request nor commit is invalid |
| `Payload.OnlyExactFailedStatus` | main.go:394-396 | the statuses "running", "success", "pending" and "Failed" (the comparison is case-sensitive), and an absent status, do not count as failed |
| `Lookup.LastMatch` | main.go:279-294 | the chosen entry matches the key and no later entry does; nothing is chosen only when no entry matches |
| `Lookup.ResolveIsResolved` | main.go:275-296 | the resolved user is the last matching entry, or the zero user when none matches |
| `Lookup.Discover` | main.go:274-300 | absent iff the directory is absent; an empty directory gives two zero users; otherwise the owner is last-resolved by the owner key and the commenter by note author id |
| `Lookup.DiscoverUsers` | main.go:274-300 | the single overwriting loop computes the same pair as the last-match specification |
| `Lookup.NoMatchGivesZeroUsers` | main.go:275-296 | a populated directory with no match yields two zero users, not a failure |
| `Lookup.ResolvePicksLast` | main.go:279-294 | an entry is chosen when it matches and no later one does, whatever earlier entries match |
| `Handlers.CommentText` | main.go:261-264 | the text is exactly the commenter's name, " made a comment on your <" and the note URL, followed directly by the "Merge Request" link label |
| `Handlers.CommentTextNamesCommenter` | main.go:261-264 | the text begins with the commenter's name followed by " made a comment" |
| `Handlers.PipelineText` | main.go:196-199 | the text is the commit link followed directly by " (<project name>/<ref>)" when the project and the ref are both present, and exactly the commit link otherwise; it ends in ")" iff both are present |
| `Handlers.CommentWebhook` | main.go:205-272 | 400 iff no body, or not a valid note; 500 iff a decode error, or the directory is absent; a post iff the owner is active and not the same person as the commenter; the post goes to the owner's Slack id, with the note as attachment |
| `Handlers.PipelineWebhook` | main.go:141-203 | 400 iff no body, or not a valid pipeline event with a commit; 500 iff a decode error, or failed with no directory; a post iff failed and the owner is active; the post goes to the owner's Slack id, with an empty attachment |
| `Handlers.OwnerIsDirectoryEntry` | main.go:274-312 | an active resolved owner is a real directory entry matching the owner key |
| `Handlers.CommentPostTargetsOwner` | main.go:240-269 | with a parsed allow-list, every comment post goes to an active directory entry matching the owner key |
| `Handlers.PipelinePostTargetsOwner` | main.go:181-200 | the same for pipeline posts |
| `Handlers.SelfCommentSuppressed` | main.go:251-258 | an owner and commenter sharing any attribute get 200 and no post |
| `Handlers.UnknownCommenterNotifiesWithEmptyName` | main.go:240-269 | with a populated directory where no entry has the note author's id, an active owner sharing no attribute with the zero user gets a post whose text names an empty commenter |
| `Handlers.UnknownCommenterSilencedByZeroLikeOwner` | main.go:253-256 | with no entry matching the note author, an owner sharing any attribute with the zero user is treated as the commenter and nothing is posted, with status 200 |
| `Handlers.InactiveOwnerSuppressed` | main.go:251-258 | an inactive owner gets 200 and no post |
| `Handlers.NonFailedPipelineIgnoresState` | main.go:176-179 | a pipeline event that did not fail gets 200 and no post, the same answer for every directory and allow-list |
| `Handlers.RefreshedCommentPostIsCorrelated` | main.go:330-347 | after a rebuild, a comment post goes to a Slack user whose email is an active GitLab user's email |
| `Auth.Authorize` | main.go:607-620 | "/healthz" is always forwarded; any other path is forwarded iff the token header is present and its first value equals the secret, and is otherwise rejected with 401 |
| `Auth.HealthzBypassesAuth` | main.go:609-612 | the health check passes with any headers and any secret |
| `Auth.MissingTokenRefused` | main.go:614-617 | a request without the token header is refused, a nil URL included |
| `Auth.OnlyFirstTokenValueCounts` | main.go:614 | appending further token values never changes the outcome |
| `Auth.OtherHeadersIrrelevant` | main.go:614 | no header other than the token header affects the outcome |
| `Scenarios.FixtureUsersDiffer` | main_test.go:14-29 | the two fixture users share no attribute |
| `Scenarios.FixtureUsersActive` | main_test.go:30 | both fixture users are active when the directory is the allow-list |
| `Scenarios.MergeRequestOwnerByAuthorID` | main_test.go:174-249 | the merge-request note's owner is user 2 by merge-request author id, though the nested last commit is stephen1's |
| `Scenarios.MergeRequestCommentNotifiesAuthor` | main_test.go:35-61 | the merge-request note gets 200 and a post to SLACKID2, whose text begins "smeriwether1 made a comment" |
| `Scenarios.CommitCommentNotifiesAuthor` | main_test.go:64-90 | the commit note gets 200 and a post to SLACKID1, whose text begins "smeriwether2 made a comment" |
| `Scenarios.InactiveOwnerGetsNothing` | main_test.go:93-123 | with only smeriwether1 active, the merge-request note gets 200 and no post |
| `Scenarios.UnknownCommenterStillNotifies` | main.go:240-269 | in the fixture, a commenter id missing from the directory becomes the zero user and SLACKID2 is notified with an empty name, not a 500 |
| `Scenarios.UnpopulatedDirectoryIsDiscoveryError` | main.go:240-247 | before the first rebuild, a valid note gets 500 |
| `Scenarios.FailedPipelineNotifiesCommitAuthor` | main.go:181-202 | a failed pipeline on stephen1's commit posts to SLACKID1 with " (Gitlab Test/master)" appended |
| `Scenarios.ActiveUsersSettingDropsEmptyPieces` | main.go:57-64 | "smeriwether1,,smeriwether2," parses to the two stubs, in order |
| `Scenarios.EmptyActiveUsersSettingIsFatal` | main.go:66-68 | an empty setting or one of only commas is the fatal empty allow-list |

## Left out

- Process wiring in `main` (main.go:30-135) is left out because it is I/O and concurrency: environment reading, token checks, the 180-minute ticker and its goroutines, TLS file checks, routing, CORS, signal handling. A rebuild is a sequential state transition (`Directory.Refresh`), and the pointer swap is plain replacement.
- The `go slackClient.PostMessage(...)` dispatch is not modelled as asynchronous delivery. The decision's `post` value stands for it.
- JSON decoding is not modelled. A request is `NoBody`, `BadJson` or an already decoded `RootRequest`. Payload fields the handlers never read are omitted, and so are integers out of Go's 64-bit range, which the decoder would reject.
- The GitLab and Slack clients (main.go:512-598) are thin wrappers over external libraries. Their `ListUsers` results are the given `Listing` values. This includes the Slack client's dropping of an empty attachment (main.go:560-563).
- `HealthzHandler`, `ErrorHandler`, `MyAwesomeResponseWriter` and all logging are left out, because they only produce side effects. Response bodies are not modelled; only status codes are.
- A nil commit author dereferenced in the lookup loop (main.go:289) is a Go panic. It is excluded by the precondition `Lookup.DiscoverSafe`, which applies only when the directory is non-empty, there is no merge request, and there is a commit. An empty `X-Gitlab-Token` value list (main.go:614) is excluded in the same way by `Auth.AuthSafe`.
- A nil allow-list is modelled as an empty sequence: `activeUser` returns false for both.
