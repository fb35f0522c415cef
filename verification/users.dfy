/** The internal `User` record that correlates one GitLab account with one
    Slack account, and the loose "same person" test between two of them. */
module Users {

  /** One person as the notifier knows them. Go's `int` is 64 bits wide; the
      model never does arithmetic on ids, so an unbounded `int` is faithful. */
  datatype User = User(
    email: string,
    slackID: string,
    slackUsername: string,
    gitlabID: int,
    gitlabUsername: string)

  /** Go's zero value of `User`: what a lookup yields when nothing matched. */
  const Zero: User := User("", "", "", 0, "")

  /** Inclusive-OR identity test: any one shared attribute makes two users
      "the same person". Deliberately weaker than record equality. */
  predicate Same(a: User, b: User)
  {
    || a.email == b.email
    || a.slackID == b.slackID
    || a.slackUsername == b.slackUsername
    || a.gitlabID == b.gitlabID
    || a.gitlabUsername == b.gitlabUsername
  }

  lemma SameReflexive(a: User)
    ensures Same(a, a)
  {
  }

  lemma SameSymmetric(a: User, b: User)
    ensures Same(a, b) <==> Same(b, a)
  {
  }

  /** Two users that were both never found are judged the same person. */
  lemma ZeroSameAsZero()
    ensures Same(Zero, Zero)
  {
  }

  /** Sharing a single attribute is enough, even when every other one differs. */
  lemma SameWeakerThanEquality()
    ensures exists a: User, b: User :: a != b && Same(a, b)
  {
    var a := User("x@example.com", "S1", "one", 1, "one");
    var b := User("x@example.com", "S2", "two", 2, "two");
    assert a != b && Same(a, b);
  }

  /** Because any one attribute suffices, the relation does not chain. */
  lemma SameNotTransitive()
    ensures exists a: User, b: User, c: User :: Same(a, b) && Same(b, c) && !Same(a, c)
  {
    var a := User("a@example.com", "SA", "a", 1, "a");
    var b := User("a@example.com", "SB", "b", 2, "b");
    var c := User("c@example.com", "SB", "c", 3, "c");
    assert Same(a, b) && Same(b, c) && !Same(a, c);
  }

  /** A user all of whose attributes are set differs from the zero user. */
  lemma NotSameAsZero(a: User)
    requires a.email != "" && a.slackID != "" && a.slackUsername != ""
    requires a.gitlabID != 0 && a.gitlabUsername != ""
    ensures !Same(a, Zero)
  {
  }
}
