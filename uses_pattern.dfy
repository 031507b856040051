/**
 * The `uses` pattern of src/validators/job_uses.rs:13-17 (and its copy in
 * src/lib.rs:318-322), written as explicit matchers with the regex crate's
 * leftmost-first semantics. In extended mode the pattern is
 *
 *   ^(?P<Action>([^/]*)/([^/]*)(/(.*))?@(.*)) | (?P<Path>\./[^/]+) | (?P<Docker>docker://(.*)(:(.*))?) | $
 *
 * so `^` anchors the Action alternative only; Path and Docker may start at
 * any position; the empty `$` alternative matches at the end of every
 * string. `.` does not match a newline, `[^/]` does.
 */
module UsesPattern {
  import opened Basics

  /** Which alternative the search matched, with its capture groups. */
  datatype Captures =
    | ActionCap(owner: string, repo: string, path: Option<string>, reference: string)
    | PathCap(start: nat, text: string)
    | DockerCap(start: nat, text: string)
    | EndOnly   // only the trailing `$`: no named group took part

  /**
   * The Action alternative at position 0. Owner is everything before the
   * first `/`. With a second `/`, the greedy optional path group takes the
   * last `@` on that line; failing that, the repo ends at the last `@`
   * before the second `/`. The reference runs to the end of the line.
   */
  function MatchAction(s: string): (r: Option<Captures>)
    ensures r.Some? ==> r.value.ActionCap?
    ensures r.Some? ==> '/' !in r.value.owner && '/' !in r.value.repo
    ensures r.Some? ==> '\n' !in r.value.reference
    ensures r.Some? && r.value.path.Some? ==> '\n' !in r.value.path.value
    ensures r.Some? && '\n' !in s ==> Rebuilt(r.value) == s
    ensures r.Some? && '\n' !in s ==> '@' !in r.value.reference
  {
    var i := IndexFrom(s, '/', 0);
    if i == |s| then None
    else
      var k := IndexFrom(s, '/', i + 1);
      var withPath := if k < |s| then LastIndexIn(s, '@', k + 1, IndexFrom(s, '\n', k + 1)) else None;
      if withPath.Some? then Some(WithPath(s, i, k, withPath.value))
      else
        match LastIndexIn(s, '@', i + 1, k)
        case Some(j) => Some(RepoOnly(s, i, j))
        case None => None
  }

  /** The captured groups put back together as `owner/repo[/path]@reference`. */
  function Rebuilt(c: Captures): string
    requires c.ActionCap?
  {
    c.owner + "/" + c.repo + (if c.path.Some? then "/" + c.path.value else "") + "@" + c.reference
  }

  /** The Action captures when the path group takes part: `s[k + 1..m]` is the path. */
  function WithPath(s: string, i: nat, k: nat, m: nat): (r: Captures)
    requires i < k < m < |s| && s[i] == '/' && s[k] == '/' && s[m] == '@'
    requires forall t :: 0 <= t < k && t != i ==> s[t] != '/'
    requires forall t :: k < t < m ==> s[t] != '\n'
    requires '\n' !in s ==> forall t :: m < t < |s| ==> s[t] != '@'
    ensures r.ActionCap? && r.path.Some?
    ensures '/' !in r.owner && '/' !in r.repo && '\n' !in r.path.value && '\n' !in r.reference
    ensures '\n' !in s ==> Rebuilt(r) == s
    ensures '\n' !in s ==> '@' !in r.reference
  {
    var e := IndexFrom(s, '\n', m + 1);
    Absent(s, '/', 0, i);
    Absent(s, '/', i + 1, k);
    Absent(s, '\n', k + 1, m);
    Absent(s, '\n', m + 1, e);
    if '\n' !in s then
      assert e == |s|;
      Split3(s, i, k, m);
      Absent(s, '@', m + 1, e);
      ActionCap(s[..i], s[i + 1..k], Some(s[k + 1..m]), s[m + 1..e])
    else ActionCap(s[..i], s[i + 1..k], Some(s[k + 1..m]), s[m + 1..e])
  }

  /** The Action captures without a path group: `s[i + 1..j]` is the repo. */
  function RepoOnly(s: string, i: nat, j: nat): (r: Captures)
    requires i < j < |s| && s[i] == '/' && s[j] == '@'
    requires forall t :: 0 <= t < j && t != i ==> s[t] != '/'
    requires '\n' !in s ==> forall t :: j < t < |s| ==> s[t] != '@'
    ensures r.ActionCap? && r.path.None?
    ensures '/' !in r.owner && '/' !in r.repo && '\n' !in r.reference
    ensures '\n' !in s ==> Rebuilt(r) == s
    ensures '\n' !in s ==> '@' !in r.reference
  {
    var e := IndexFrom(s, '\n', j + 1);
    Absent(s, '/', 0, i);
    Absent(s, '/', i + 1, j);
    Absent(s, '\n', j + 1, e);
    if '\n' !in s then
      assert e == |s|;
      Split2(s, i, j);
      Absent(s, '@', j + 1, e);
      ActionCap(s[..i], s[i + 1..j], None, s[j + 1..e])
    else ActionCap(s[..i], s[i + 1..j], None, s[j + 1..e])
  }

  lemma Absent(s: string, c: char, lo: nat, hi: nat)
    requires lo <= hi <= |s|
    requires forall t :: lo <= t < hi ==> s[t] != c
    ensures c !in s[lo..hi]
  {
  }

  /** The Path alternative `\./[^/]+` can start at `p`. */
  predicate PathAt(s: string, p: nat)
  {
    p + 2 < |s| && s[p] == '.' && s[p + 1] == '/' && s[p + 2] != '/'
  }

  /** The Docker alternative `docker://.*` can start at `p`. */
  predicate DockerAt(s: string, p: nat)
  {
    p + 9 <= |s| && s[p..p + 9] == "docker://"
  }

  /** No unanchored alternative can start at any position in [lo, hi). */
  predicate NoMatchBetween(s: string, lo: nat, hi: nat)
  {
    forall q :: lo <= q < hi ==> !PathAt(s, q) && !DockerAt(s, q)
  }

  /** No unanchored alternative can start in [from, |s|). */
  predicate NoLaterMatch(s: string, from: nat)
  {
    NoMatchBetween(s, from, |s|)
  }

  /**
   * The search from position `p` on, once Action is out: the leftmost
   * position where Path or Docker can start wins, Path before Docker at the
   * same position; `$` matches only at the end.
   */
  function ScanFrom(s: string, p: nat): (r: Captures)
    requires p <= |s|
    ensures !r.ActionCap?
    ensures r.EndOnly? <==> NoLaterMatch(s, p)
    ensures r.PathCap? ==> p <= r.start && PathAt(s, r.start) && NoMatchBetween(s, p, r.start)
    ensures r.DockerCap? ==> p <= r.start && DockerAt(s, r.start) && !PathAt(s, r.start)
                             && NoMatchBetween(s, p, r.start)
    decreases |s| - p
  {
    if p == |s| then EndOnly
    else if PathAt(s, p) then PathCap(p, s[p..IndexFrom(s, '/', p + 2)])
    else if DockerAt(s, p) then DockerCap(p, s[p..IndexFrom(s, '\n', p + 9)])
    else ScanFrom(s, p + 1)
  }

  /** `Regex::captures`: always Some, because of the trailing `$`. */
  function Search(s: string): (r: Captures)
    ensures r.ActionCap? <==> MatchAction(s).Some?
    ensures r.EndOnly? <==> MatchAction(s).None? && NoLaterMatch(s, 0)
  {
    match MatchAction(s)
    case Some(c) => c
    case None => ScanFrom(s, 0)
  }

  /** An Action match on a single line has an `@` somewhere after the first `/`. */
  lemma ActionMatchHasAt(s: string)
    requires '\n' !in s && MatchAction(s).Some?
    ensures IndexFrom(s, '/', 0) < |s| && exists j :: IndexFrom(s, '/', 0) < j < |s| && s[j] == '@'
  {
    var i := IndexFrom(s, '/', 0);
    var k := IndexFrom(s, '/', i + 1);
    NoNewline(s, k);
    var withPath := if k < |s| then LastIndexIn(s, '@', k + 1, |s|) else None;
    if withPath.Some? {
      assert s[withPath.value] == '@';
    } else {
      var j := LastIndexIn(s, '@', i + 1, k).value;
      assert s[j] == '@';
    }
  }

  /** Conversely, an `@` after the first `/` makes the Action alternative match. */
  lemma AtGivesActionMatch(s: string, j: nat)
    requires '\n' !in s && IndexFrom(s, '/', 0) < j < |s| && s[j] == '@'
    ensures MatchAction(s).Some?
  {
    var i := IndexFrom(s, '/', 0);
    var k := IndexFrom(s, '/', i + 1);
    NoNewline(s, k);
    if j > k {
      assert LastIndexIn(s, '@', k + 1, |s|).Some?;
    } else {
      assert LastIndexIn(s, '@', i + 1, k).Some?;
    }
  }

  /**
   * On a single line the Action alternative matches exactly when some `@`
   * follows the first `/`.
   */
  lemma ActionMatchesIff(s: string)
    requires '\n' !in s
    ensures MatchAction(s).Some? <==>
              IndexFrom(s, '/', 0) < |s| && exists j :: IndexFrom(s, '/', 0) < j < |s| && s[j] == '@'
  {
    if MatchAction(s).Some? {
      ActionMatchHasAt(s);
    }
    if IndexFrom(s, '/', 0) < |s| && exists j :: IndexFrom(s, '/', 0) < j < |s| && s[j] == '@' {
      var j :| IndexFrom(s, '/', 0) < j < |s| && s[j] == '@';
      AtGivesActionMatch(s, j);
    }
  }

  lemma NoNewline(s: string, from: nat)
    requires '\n' !in s && from <= |s|
    ensures from < |s| ==> IndexFrom(s, '\n', from + 1) == |s|
  {
  }

  lemma Split2(s: string, i: nat, j: nat)
    requires i < j < |s| && s[i] == '/' && s[j] == '@'
    ensures s[..i] + "/" + s[i + 1..j] + "@" + s[j + 1..] == s
  {
    assert s[..j] == s[..i] + [s[i]] + s[i + 1..j];
    assert s == s[..j] + [s[j]] + s[j + 1..];
  }

  lemma Split3(s: string, i: nat, k: nat, m: nat)
    requires i < k < m < |s| && s[i] == '/' && s[k] == '/' && s[m] == '@'
    ensures s[..i] + "/" + s[i + 1..k] + "/" + s[k + 1..m] + "@" + s[m + 1..] == s
  {
    var b := s[..i] + "/" + s[i + 1..k];
    assert b == s[..k] by { assert s[..k] == s[..i] + [s[i]] + s[i + 1..k]; }
    var c := b + "/" + s[k + 1..m];
    assert c == s[..m] by { assert s[..m] == s[..k] + [s[k]] + s[k + 1..m]; }
    assert c + "@" + s[m + 1..] == s by { assert s == s[..m] + [s[m]] + s[m + 1..]; }
  }

  /** A string without `.` or `d` has no Path or Docker match anywhere. */
  lemma NoUnanchoredMatch(s: string)
    requires '.' !in s && 'd' !in s
    ensures NoLaterMatch(s, 0)
  {
    forall q | 0 <= q < |s|
      ensures !PathAt(s, q) && !DockerAt(s, q)
    {
      assert s[q] in s;
      if q + 9 <= |s| {
        assert s[q..q + 9][0] == s[q];
      }
    }
  }

  /** The pattern prefers Action over Path: `./x@y` is owner `.`, repo `x`, reference `y`. */
  lemma ActionBeatsPath()
    ensures Search("./x@y") == ActionCap(".", "x", None, "y")
  {
    assert IndexFrom("./x@y", '/', 0) == 1;
    assert IndexFrom("./x@y", '/', 2) == 5;
    assert LastIndexIn("./x@y", '@', 2, 5) == Some(3);
    assert IndexFrom("./x@y", '\n', 4) == 5;
  }

  /** Path is not anchored: it matches at the first `./` that is followed by a non-`/`. */
  lemma PathMatchesLater()
    ensures Search("x ./a/b") == PathCap(2, "./a")
  {
    assert IndexFrom("x ./a/b", '/', 0) == 3;
    assert IndexFrom("x ./a/b", '/', 4) == 5;
    assert LastIndexIn("x ./a/b", '@', 6, 7) == None;
    assert LastIndexIn("x ./a/b", '@', 4, 5) == None;
    assert !PathAt("x ./a/b", 0) && !DockerAt("x ./a/b", 0);
    assert !PathAt("x ./a/b", 1) && !DockerAt("x ./a/b", 1);
    assert PathAt("x ./a/b", 2);
  }

  /** Neither an empty string nor a reference without `@` is classified. */
  lemma UnclassifiedExamples()
    ensures Search("") == EndOnly
    ensures Search("owner/repo") == EndOnly
  {
    var s := "owner/repo";
    assert IndexFrom(s, '/', 0) == 5;
    assert IndexFrom(s, '/', 6) == 10;
    assert LastIndexIn(s, '@', 6, 10) == None;
    NoUnanchoredMatch(s);
  }
}
