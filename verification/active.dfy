/** The allow-list of users who may receive notifications: the parse of the
    `ACTIVE_USERS` setting and the `activeUser` membership test. */
module Active {
  import opened Wrappers
  import opened Users

  /** Go's `strings.Split(s, sep)` for a one-character separator: the pieces
      between separators, always at least one, the empty string giving `[""]`. */
  function Split(s: string, sep: char): (parts: seq<string>)
    ensures |parts| >= 1
    ensures forall i :: 0 <= i < |parts| ==> sep !in parts[i]
    ensures JoinWith(parts, sep) == s
    decreases |s|
  {
    if |s| == 0 then [""]
    else
      var rest := Split(s[1..], sep);
      if s[0] == sep then [""] + rest
      else
        var parts := [[s[0]] + rest[0]] + rest[1..];
        assert JoinWith(parts, sep) == s by {
          if |rest| > 1 {
            assert parts[1..] == rest[1..];
            assert JoinWith(rest, sep) == rest[0] + [sep] + JoinWith(rest[1..], sep);
          }
        }
        parts
  }

  /** The pieces glued back together with the separator between them. */
  function JoinWith(parts: seq<string>, sep: char): string
    requires |parts| >= 1
    decreases |parts|
  {
    if |parts| == 1 then parts[0] else parts[0] + [sep] + JoinWith(parts[1..], sep)
  }

  lemma {:induction false} SplitSingle(p: string, sep: char)
    requires sep !in p
    ensures Split(p, sep) == [p]
    decreases |p|
  {
    if |p| > 0 {
      SplitSingle(p[1..], sep);
      assert [p[0]] + p[1..] == p;
    }
  }

  lemma {:induction false} SplitPrefix(p: string, sep: char, t: string)
    requires sep !in p
    ensures Split(p + [sep] + t, sep) == [p] + Split(t, sep)
    decreases |p|
  {
    if |p| == 0 {
      assert p + [sep] + t == [sep] + t;
      assert ([sep] + t)[1..] == t;
    } else {
      var s := p + [sep] + t;
      assert s[0] == p[0];
      assert s[1..] == p[1..] + [sep] + t;
      SplitPrefix(p[1..], sep, t);
      assert [p[0]] + p[1..] == p;
    }
  }

  /** Splitting undoes joining: the pieces are recovered exactly, so `Split`
      is the unique separator-free decomposition of its input. */
  lemma {:induction false} SplitJoinWith(parts: seq<string>, sep: char)
    requires |parts| >= 1
    requires forall i :: 0 <= i < |parts| ==> sep !in parts[i]
    ensures Split(JoinWith(parts, sep), sep) == parts
    decreases |parts|
  {
    if |parts| == 1 {
      SplitSingle(parts[0], sep);
    } else {
      SplitJoinWith(parts[1..], sep);
      SplitPrefix(parts[0], sep, JoinWith(parts[1..], sep));
      assert [parts[0]] + parts[1..] == parts;
    }
  }

  /** The pieces that are not empty, in order. */
  function NonEmpty(xs: seq<string>): (ys: seq<string>)
    ensures |ys| <= |xs|
    ensures forall k :: 0 <= k < |ys| ==> ys[k] != "" && ys[k] in xs
    ensures forall k :: 0 <= k < |xs| && xs[k] != "" ==> xs[k] in ys
    ensures |ys| == 0 <==> forall k :: 0 <= k < |xs| ==> xs[k] == ""
    decreases |xs|
  {
    if |xs| == 0 then []
    else if xs[0] == "" then NonEmpty(xs[1..])
    else [xs[0]] + NonEmpty(xs[1..])
  }

  /** Dropping empty pieces keeps the pieces' order: it distributes over
      concatenation. */
  lemma {:induction false} NonEmptyAppend(a: seq<string>, b: seq<string>)
    ensures NonEmpty(a + b) == NonEmpty(a) + NonEmpty(b)
    decreases |a|
  {
    if |a| > 0 {
      assert (a + b)[0] == a[0];
      assert (a + b)[1..] == a[1..] + b;
      NonEmptyAppend(a[1..], b);
    } else {
      assert a + b == b;
    }
  }

  lemma {:induction false} NonEmptyKeepsAll(xs: seq<string>)
    requires forall k :: 0 <= k < |xs| ==> xs[k] != ""
    ensures NonEmpty(xs) == xs
    decreases |xs|
  {
    if |xs| > 0 {
      NonEmptyKeepsAll(xs[1..]);
      assert [xs[0]] + xs[1..] == xs;
    }
  }

  /** An allow-list entry: a user stub carrying only a GitLab username. */
  function Stub(name: string): User
  {
    User("", "", "", 0, name)
  }

  function Stubs(names: seq<string>): seq<User>
  {
    seq(|names|, i requires 0 <= i < |names| => Stub(names[i]))
  }

  /** The `ACTIVE_USERS` parse at startup: split on ",", drop empty pieces, no
      trimming; `None` stands for the startup panic on an empty result. */
  function ParseActiveUsers(setting: string): (r: Option<seq<User>>)
    ensures r.Some? ==> exists k :: 0 <= k < |Split(setting, ',')| && Split(setting, ',')[k] != ""
    ensures r.None? ==> forall k :: 0 <= k < |Split(setting, ',')| ==> Split(setting, ',')[k] == ""
    ensures r.Some? ==> |r.value| > 0
    ensures r.Some? ==> forall k :: 0 <= k < |r.value| ==>
              && r.value[k] == Stub(r.value[k].gitlabUsername)
              && r.value[k].gitlabUsername != ""
              && ',' !in r.value[k].gitlabUsername
    ensures r.Some? ==> forall k :: 0 <= k < |r.value| ==> r.value[k].gitlabUsername in Split(setting, ',')
    ensures r.Some? ==> forall k :: 0 <= k < |Split(setting, ',')| && Split(setting, ',')[k] != "" ==>
              exists m :: 0 <= m < |r.value| && r.value[m].gitlabUsername == Split(setting, ',')[k]
  {
    var parts := Split(setting, ',');
    var names := NonEmpty(parts);
    if |names| == 0 then None
    else
      assert names[0] != "" && names[0] in parts;
      assert forall m :: 0 <= m < |names| ==> Stubs(names)[m].gitlabUsername == names[m];
      Some(Stubs(names))
  }

  /** No entry names the empty username, as the parse guarantees. */
  ghost predicate WellFormed(active: seq<User>)
  {
    forall k :: 0 <= k < |active| ==> active[k].gitlabUsername != ""
  }

  /** `activeUser`: a scan for an entry whose GitLab username is exactly the
      user's; a nil allow-list behaves as an empty one. */
  function ActiveUser(u: User, active: seq<User>): (b: bool)
    ensures b <==> exists k :: 0 <= k < |active| && active[k].gitlabUsername == u.gitlabUsername
    decreases |active|
  {
    if |active| == 0 then false
    else if active[0].gitlabUsername == u.gitlabUsername then true
    else ActiveUser(u, active[1..])
  }

  /** Whatever the setting, a parsed allow-list holds no empty username. */
  lemma ParsedIsWellFormed(setting: string)
    requires ParseActiveUsers(setting).Some?
    ensures WellFormed(ParseActiveUsers(setting).value)
  {
  }

  /** The zero user (a failed lookup) is never active on a well-formed list. */
  lemma ZeroNeverActive(active: seq<User>)
    requires WellFormed(active)
    ensures !ActiveUser(Zero, active)
  {
  }

  /** A user is active under a parsed setting exactly when their username is
      non-empty and is one of the comma-separated pieces, compared verbatim. */
  lemma ActiveUnderSetting(setting: string, u: User)
    requires ParseActiveUsers(setting).Some?
    ensures ActiveUser(u, ParseActiveUsers(setting).value)
        <==> u.gitlabUsername != "" && u.gitlabUsername in Split(setting, ',')
  {
    var names := NonEmpty(Split(setting, ','));
    var active := ParseActiveUsers(setting).value;
    assert active == Stubs(names);
    if u.gitlabUsername != "" && u.gitlabUsername in Split(setting, ',') {
      var k :| 0 <= k < |names| && names[k] == u.gitlabUsername;
      assert active[k].gitlabUsername == u.gitlabUsername;
    }
  }

  /** Round trip: joining non-empty, comma-free usernames with "," and parsing
      the result gives back one stub per username, in order. */
  lemma ParseJoinedNames(names: seq<string>)
    requires |names| >= 1
    requires forall k :: 0 <= k < |names| ==> names[k] != "" && ',' !in names[k]
    ensures ParseActiveUsers(JoinWith(names, ',')) == Some(Stubs(names))
  {
    SplitJoinWith(names, ',');
    NonEmptyKeepsAll(names);
  }
}
