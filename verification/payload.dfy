/** The decoded GitLab webhook payload, reduced to the fields the handlers
    read, and the predicates that classify it. Every Go pointer is an Option. */
module Payload {
  import opened Wrappers

  datatype Author = Author(name: string, email: string)

  datatype Commit = Commit(url: string, author: Option<Author>)

  /** `lastCommit` is carried only to show that lookup never looks at it. */
  datatype MergeRequest = MergeRequest(authorID: int, lastCommit: Option<Commit>)

  datatype Project = Project(name: string)

  datatype ObjectAttributes = ObjectAttributes(
    note: string,
    authorID: int,
    url: string,
    status: Option<string>,
    ref: Option<string>)

  datatype RootRequest = RootRequest(
    objectKind: string,
    project: Option<Project>,
    objectAttributes: Option<ObjectAttributes>,
    mergeRequest: Option<MergeRequest>,
    commit: Option<Commit>)

  const NoteKind := "note"
  const PipelineKind := "pipeline"
  const FailedStatus := "failed"

  /** The attribution block is there, and so is a merge request or a commit. */
  predicate Valid(root: RootRequest)
  {
    root.objectAttributes.Some? && (root.mergeRequest.Some? || root.commit.Some?)
  }

  predicate CommentRequest(root: RootRequest)
  {
    root.objectKind == NoteKind
  }

  predicate PipelineRequest(root: RootRequest)
  {
    root.objectKind == PipelineKind
  }

  /** Go dereferences the attribution block here, so callers must have one. */
  predicate FailedPipeline(root: RootRequest)
    requires root.objectAttributes.Some?
  {
    root.objectAttributes.value.status == Some(FailedStatus)
  }

  /** No payload is both a comment and a pipeline event. */
  lemma KindsExclusive(root: RootRequest)
    ensures !(CommentRequest(root) && PipelineRequest(root))
  {
  }

  /** A payload with neither a merge request nor a commit is invalid whatever
      its kind and attribution block. */
  lemma NoReferenceInvalid(root: RootRequest)
    requires root.mergeRequest.None? && root.commit.None?
    ensures !Valid(root)
  {
  }

  /** The common non-terminal statuses, a differently-cased "Failed" and an
      absent status never count as a failed pipeline. */
  lemma OnlyExactFailedStatus(root: RootRequest)
    requires root.objectAttributes.Some?
    ensures root.objectAttributes.value.status in
              {Some("running"), Some("success"), Some("pending"), Some("Failed"), None}
            ==> !FailedPipeline(root)
  {
  }
}
