/**
 * `validate_paths` and the non-js `validate_globs` (src/lib.rs:176-238):
 * every path filter of the `push` and `pull_request` triggers must be a
 * glob that compiles and matches at least one file.
 */
module Globs {
  import opened Basics
  import opened Document
  import opened Validation

  /**
   * `glob_count_matches`: the number of files a pattern matches, or the
   * message of the error that stopped it from compiling. The file system
   * decides the count, so the model takes the whole answer as an input.
   */
  type GlobOracle = string -> Result<nat, string>

  const GlobTitle := "Glob does not match any files"

  /**
   * What `validate_globs` accepts without panicking: null, or an array of
   * strings (any other shape reaches `unreachable!` or `unwrap`).
   */
  predicate WellTyped(globs: Value)
  {
    globs.Null? || (globs.Array? && forall k :: 0 <= k < |globs.items| ==> globs.items[k].Str?)
  }

  /**
   * The error one pattern contributes, given what the glob engine said about
   * it. The pattern is shown as its JSON display, quotes included.
   */
  function PatternError(pattern: string, path: string, outcome: Result<nat, string>): (r: Option<ValidationError>)
    ensures r.None? <==> outcome.Ok? && outcome.value > 0
    ensures r.Some? ==> r.value.path == path && r.value.title == GlobTitle
  {
    match outcome
    case Ok(count) =>
      if count == 0 then
        Some(ValidationError(NoFilesMatchingGlob, "glob_not_matched", path, GlobTitle,
                             Some("Glob " + JsonString(pattern) + " in " + path + " does not match any files")))
      else None
    case Err(message) =>
      Some(ValidationError(InvalidGlob, "invalid_glob", path, GlobTitle,
                           Some("Glob " + JsonString(pattern) + " in " + path + " is invalid: " + message)))
  }

  /**
   * A pattern with no match is `glob_not_matched`, one that does not compile
   * is `invalid_glob`; the detail shows the pattern as a JSON string literal.
   */
  lemma PatternErrorCodes(pattern: string, path: string, outcome: Result<nat, string>)
    ensures outcome.Ok? && outcome.value == 0 ==>
              PatternError(pattern, path, outcome).value.kind == NoFilesMatchingGlob &&
              PatternError(pattern, path, outcome).value.code == "glob_not_matched" &&
              PatternError(pattern, path, outcome).value.detail ==
                Some("Glob " + JsonString(pattern) + " in " + path + " does not match any files")
    ensures outcome.Err? ==>
              PatternError(pattern, path, outcome).value.kind == InvalidGlob &&
              PatternError(pattern, path, outcome).value.code == "invalid_glob" &&
              PatternError(pattern, path, outcome).value.detail ==
                Some("Glob " + JsonString(pattern) + " in " + path + " is invalid: " + outcome.error)
  {
  }

  /** Whether the glob engine rejects a pattern or finds no file for it. */
  predicate Fails(pattern: string, glob: GlobOracle)
  {
    glob(pattern).Err? || glob(pattern).value == 0
  }

  function ErrorsOf(e: Option<ValidationError>): seq<ValidationError>
  {
    if e.Some? then [e.value] else []
  }

  /** The strings of an array whose elements are all strings (`g.as_str().unwrap()`). */
  function Patterns(items: seq<Value>): (r: seq<string>)
    requires forall k :: 0 <= k < |items| ==> items[k].Str?
    ensures |r| == |items|
    ensures forall k :: 0 <= k < |items| ==> r[k] == items[k].s
  {
    if |items| == 0 then [] else [items[0].s] + Patterns(items[1..])
  }

  /** The errors of a list of patterns, in list order. */
  function GlobsErrors(patterns: seq<string>, path: string, glob: GlobOracle): (r: seq<ValidationError>)
    ensures |r| <= |patterns|
  {
    if |patterns| == 0 then []
    else
      var last := patterns[|patterns| - 1];
      GlobsErrors(patterns[..|patterns| - 1], path, glob) + ErrorsOf(PatternError(last, path, glob(last)))
  }

  /** What `validate_globs` appends for the value found at `path`: nothing for null. */
  function GlobsAt(globs: Value, path: string, glob: GlobOracle): (r: seq<ValidationError>)
    requires WellTyped(globs)
    ensures globs.Null? ==> r == []
  {
    if globs.Null? then [] else GlobsErrors(Patterns(globs.items), path, glob)
  }

  /** Every error of a location carries that location's path and the shared title. */
  lemma {:induction false} GlobsErrorsAt(patterns: seq<string>, path: string, glob: GlobOracle)
    ensures forall e :: e in GlobsErrors(patterns, path, glob) ==> e.path == path && e.title == GlobTitle
  {
    if |patterns| > 0 {
      GlobsErrorsAt(patterns[..|patterns| - 1], path, glob);
    }
  }

  /** `doc["on"][event][key]`, where indexing anything but an object gives null. */
  function Location(doc: Value, event: string, key: string): Value
  {
    Get(Get(Get(doc, "on"), event), key)
  }

  /** The four filter locations, in the order `validate_paths` visits them. */
  const Locations: seq<string> := ["/on/push/paths", "/on/push/paths-ignore",
                                   "/on/pull_request/paths", "/on/pull_request/paths-ignore"]

  predicate PathsWellTyped(doc: Value)
  {
    WellTyped(Location(doc, "push", "paths")) && WellTyped(Location(doc, "push", "paths-ignore")) &&
    WellTyped(Location(doc, "pull_request", "paths")) && WellTyped(Location(doc, "pull_request", "paths-ignore"))
  }

  /** Everything `validate_paths` appends. */
  function PathsErrors(doc: Value, glob: GlobOracle): seq<ValidationError>
    requires PathsWellTyped(doc)
  {
    GlobsAt(Location(doc, "push", "paths"), "/on/push/paths", glob)
      + GlobsAt(Location(doc, "push", "paths-ignore"), "/on/push/paths-ignore", glob)
      + GlobsAt(Location(doc, "pull_request", "paths"), "/on/pull_request/paths", glob)
      + GlobsAt(Location(doc, "pull_request", "paths-ignore"), "/on/pull_request/paths-ignore", glob)
  }

  /** No short-circuit: the errors of a concatenation of pattern lists are concatenated. */
  lemma {:induction false} GlobsAppend(a: seq<string>, b: seq<string>, path: string, glob: GlobOracle)
    ensures GlobsErrors(a + b, path, glob) == GlobsErrors(a, path, glob) + GlobsErrors(b, path, glob)
  {
    if |b| == 0 {
      assert a + b == a;
    } else {
      assert (a + b)[..|a + b| - 1] == a + b[..|b| - 1];
      GlobsAppend(a, b[..|b| - 1], path, glob);
      AppendAssoc(GlobsErrors(a, path, glob), GlobsErrors(b[..|b| - 1], path, glob),
                  ErrorsOf(PatternError(b[|b| - 1], path, glob(b[|b| - 1]))));
    }
  }

  lemma ErrorOfFailing(pattern: string, path: string, glob: GlobOracle, e: ValidationError)
    requires e in ErrorsOf(PatternError(pattern, path, glob(pattern)))
    ensures Fails(pattern, glob) && Some(e) == PatternError(pattern, path, glob(pattern))
  {
  }

  /** Every error is the error of some pattern the glob engine rejects or finds no file for. */
  lemma {:induction false} GlobsSound(patterns: seq<string>, path: string, glob: GlobOracle)
    ensures forall e :: e in GlobsErrors(patterns, path, glob) ==>
              exists k :: 0 <= k < |patterns| && Fails(patterns[k], glob)
                          && Some(e) == PatternError(patterns[k], path, glob(patterns[k]))
  {
    if |patterns| > 0 {
      var init := patterns[..|patterns| - 1];
      var n := |patterns| - 1;
      GlobsSound(init, path, glob);
      forall e | e in GlobsErrors(patterns, path, glob)
        ensures exists k :: 0 <= k < |patterns| && Fails(patterns[k], glob)
                            && Some(e) == PatternError(patterns[k], path, glob(patterns[k]))
      {
        if e in GlobsErrors(init, path, glob) {
          var k :| 0 <= k < |init| && Fails(init[k], glob) && Some(e) == PatternError(init[k], path, glob(init[k]));
          assert patterns[k] == init[k];
        } else {
          assert e in ErrorsOf(PatternError(patterns[n], path, glob(patterns[n])));
          ErrorOfFailing(patterns[n], path, glob, e);
        }
      }
    }
  }

  /** No failing pattern goes unreported: each one's error is among the errors. */
  lemma {:induction false} GlobsComplete(patterns: seq<string>, path: string, glob: GlobOracle, k: nat)
    requires k < |patterns| && Fails(patterns[k], glob)
    ensures PatternError(patterns[k], path, glob(patterns[k])).value in GlobsErrors(patterns, path, glob)
  {
    var init := patterns[..|patterns| - 1];
    if k < |patterns| - 1 {
      assert init[k] == patterns[k];
      GlobsComplete(init, path, glob, k);
    }
  }

  /** A location passes exactly when every pattern in it compiles and matches some file. */
  lemma GlobsEmptyIff(patterns: seq<string>, path: string, glob: GlobOracle)
    ensures GlobsErrors(patterns, path, glob) == [] <==> forall k :: 0 <= k < |patterns| ==> !Fails(patterns[k], glob)
  {
    GlobsSound(patterns, path, glob);
    if exists k :: 0 <= k < |patterns| && Fails(patterns[k], glob) {
      var k :| 0 <= k < |patterns| && Fails(patterns[k], glob);
      GlobsComplete(patterns, path, glob, k);
    }
    if GlobsErrors(patterns, path, glob) != [] {
      var e := GlobsErrors(patterns, path, glob)[0];
      assert e in GlobsErrors(patterns, path, glob);
    }
  }

  /** Every pattern at a location compiles and matches some file (vacuous for null). */
  predicate LocationPasses(globs: Value, glob: GlobOracle)
    requires WellTyped(globs)
  {
    globs.Null? || forall k :: 0 <= k < |globs.items| ==> !Fails(globs.items[k].s, glob)
  }

  lemma LocationPassesIff(globs: Value, path: string, glob: GlobOracle)
    requires WellTyped(globs)
    ensures GlobsAt(globs, path, glob) == [] <==> LocationPasses(globs, glob)
  {
    if globs.Array? {
      GlobsEmptyIff(Patterns(globs.items), path, glob);
    }
  }

  /** `validate_paths` appends nothing exactly when all four locations pass. */
  lemma PathsPassIff(doc: Value, glob: GlobOracle)
    requires PathsWellTyped(doc)
    ensures PathsErrors(doc, glob) == [] <==>
              LocationPasses(Location(doc, "push", "paths"), glob) &&
              LocationPasses(Location(doc, "push", "paths-ignore"), glob) &&
              LocationPasses(Location(doc, "pull_request", "paths"), glob) &&
              LocationPasses(Location(doc, "pull_request", "paths-ignore"), glob)
  {
    LocationPassesIff(Location(doc, "push", "paths"), "/on/push/paths", glob);
    LocationPassesIff(Location(doc, "push", "paths-ignore"), "/on/push/paths-ignore", glob);
    LocationPassesIff(Location(doc, "pull_request", "paths"), "/on/pull_request/paths", glob);
    LocationPassesIff(Location(doc, "pull_request", "paths-ignore"), "/on/pull_request/paths-ignore", glob);
  }

  /** The four locations are distinct strings (their lengths differ). */
  lemma LocationsDistinct(a: nat, b: nat)
    requires a < |Locations| && b < |Locations| && Locations[a] == Locations[b]
    ensures a == b
  {
    assert |Locations[0]| == 14 && |Locations[1]| == 21 && |Locations[2]| == 22 && |Locations[3]| == 29;
  }

  /** Which of the four runs of a concatenation `a + b + c + d` position `i` falls in. */
  function Segment(i: nat, la: nat, lb: nat, lc: nat): (k: nat)
    ensures k < |Locations|
  {
    if i < la then 0 else if i < la + lb then 1 else if i < la + lb + lc then 2 else 3
  }

  /** Every error of `errors` lies at location `k` of the four. */
  predicate AllAt(errors: seq<ValidationError>, k: nat)
    requires k < |Locations|
  {
    forall e :: e in errors ==> e.path == Locations[k] && e.title == GlobTitle
  }

  lemma AllAtLocation(globs: Value, k: nat, glob: GlobOracle)
    requires WellTyped(globs) && k < |Locations|
    ensures AllAt(GlobsAt(globs, Locations[k], glob), k)
  {
    if globs.Array? {
      GlobsErrorsAt(Patterns(globs.items), Locations[k], glob);
    }
  }

  /** Position `i` of `a + b + c + d` lies at location `Segment(i, ...)`. */
  lemma {:induction false} LocationsOfRuns(a: seq<ValidationError>, b: seq<ValidationError>, c: seq<ValidationError>, d: seq<ValidationError>)
    requires AllAt(a, 0) && AllAt(b, 1) && AllAt(c, 2) && AllAt(d, 3)
    ensures forall i :: 0 <= i < |a + b + c + d| ==>
              (a + b + c + d)[i].path == Locations[Segment(i, |a|, |b|, |c|)] && (a + b + c + d)[i].title == GlobTitle
  {
    var r := a + b + c + d;
    forall i | 0 <= i < |r|
      ensures r[i].path == Locations[Segment(i, |a|, |b|, |c|)] && r[i].title == GlobTitle
    {
      if i < |a| {
        assert r[i] == a[i] && a[i] in a;
      } else if i < |a| + |b| {
        assert r[i] == b[i - |a|] && b[i - |a|] in b;
      } else if i < |a| + |b| + |c| {
        assert r[i] == c[i - |a| - |b|] && c[i - |a| - |b|] in c;
      } else {
        assert r[i] == d[i - |a| - |b| - |c|] && d[i - |a| - |b| - |c|] in d;
      }
    }
  }

  /** Runs at locations 0, 1, 2 and 3, concatenated in that order, are ordered by location. */
  lemma RunsOrdered(a: seq<ValidationError>, b: seq<ValidationError>, c: seq<ValidationError>, d: seq<ValidationError>)
    requires AllAt(a, 0) && AllAt(b, 1) && AllAt(c, 2) && AllAt(d, 3)
    ensures forall e :: e in a + b + c + d ==> e.path in Locations && e.title == GlobTitle
    ensures forall i, j, ki, kj ::
              0 <= i < j < |a + b + c + d| && 0 <= ki < |Locations| && 0 <= kj < |Locations| &&
              (a + b + c + d)[i].path == Locations[ki] && (a + b + c + d)[j].path == Locations[kj]
              ==> ki <= kj
  {
    var r := a + b + c + d;
    LocationsOfRuns(a, b, c, d);
    forall e | e in r
      ensures e.path in Locations && e.title == GlobTitle
    {
      var i :| 0 <= i < |r| && r[i] == e;
    }
    forall i, j, ki, kj | 0 <= i < j < |r| && 0 <= ki < |Locations| && 0 <= kj < |Locations| &&
                          r[i].path == Locations[ki] && r[j].path == Locations[kj]
      ensures ki <= kj
    {
      LocationsDistinct(ki, Segment(i, |a|, |b|, |c|));
      LocationsDistinct(kj, Segment(j, |a|, |b|, |c|));
    }
  }

  /**
   * `validate_paths` reports only the four locations, and reports them in
   * order: an error at location `ki` never follows one at a later location
   * `kj > ki`, so `/on/push/...` errors precede `/on/pull_request/...` ones
   * and `paths` precedes `paths-ignore` within one event.
   */
  lemma PathsErrorsOrdered(doc: Value, glob: GlobOracle)
    requires PathsWellTyped(doc)
    ensures forall e :: e in PathsErrors(doc, glob) ==> e.path in Locations && e.title == GlobTitle
    ensures forall i, j, ki, kj ::
              0 <= i < j < |PathsErrors(doc, glob)| && 0 <= ki < |Locations| && 0 <= kj < |Locations| &&
              PathsErrors(doc, glob)[i].path == Locations[ki] && PathsErrors(doc, glob)[j].path == Locations[kj]
              ==> ki <= kj
  {
    var a := GlobsAt(Location(doc, "push", "paths"), Locations[0], glob);
    var b := GlobsAt(Location(doc, "push", "paths-ignore"), Locations[1], glob);
    var c := GlobsAt(Location(doc, "pull_request", "paths"), Locations[2], glob);
    var d := GlobsAt(Location(doc, "pull_request", "paths-ignore"), Locations[3], glob);
    AllAtLocation(Location(doc, "push", "paths"), 0, glob);
    AllAtLocation(Location(doc, "push", "paths-ignore"), 1, glob);
    AllAtLocation(Location(doc, "pull_request", "paths"), 2, glob);
    AllAtLocation(Location(doc, "pull_request", "paths-ignore"), 3, glob);
    RunsOrdered(a, b, c, d);
    assert PathsErrors(doc, glob) == a + b + c + d;
  }

  lemma GlobsStep(patterns: seq<string>, path: string, glob: GlobOracle, k: nat)
    requires k < |patterns|
    ensures GlobsErrors(patterns[..k + 1], path, glob)
              == GlobsErrors(patterns[..k], path, glob) + ErrorsOf(PatternError(patterns[k], path, glob(patterns[k])))
  {
    assert patterns[..k + 1][..k] == patterns[..k];
  }

  /** The body of the loop in `validate_globs`: one pattern. */
  method CheckGlob(g: string, path: string, glob: GlobOracle, state: ValidationState)
    modifies state`errors
    ensures state.errors == old(state.errors) + ErrorsOf(PatternError(g, path, glob(g)))
  {
    match glob(g) {
      case Ok(count) =>
        if count == 0 {
          state.errors := state.errors + [ValidationError(NoFilesMatchingGlob, "glob_not_matched", path, GlobTitle,
                                          Some("Glob " + JsonString(g) + " in " + path + " does not match any files"))];
        }
      case Err(message) =>
        state.errors := state.errors + [ValidationError(InvalidGlob, "invalid_glob", path, GlobTitle,
                                        Some("Glob " + JsonString(g) + " in " + path + " is invalid: " + message))];
    }
  }

  /** The non-js `validate_globs`: appends exactly GlobsAt(globs, path, glob). */
  method ValidateGlobs(globs: Value, path: string, glob: GlobOracle, state: ValidationState)
    requires WellTyped(globs)
    modifies state`errors
    ensures state.errors == old(state.errors) + GlobsAt(globs, path, glob)
  {
    if globs.Null? {
      return;
    }
    ghost var patterns := Patterns(globs.items);
    var k := 0;
    while k < |globs.items|
      invariant 0 <= k <= |globs.items|
      invariant state.errors == old(state.errors) + GlobsErrors(patterns[..k], path, glob)
    {
      var g := globs.items[k].s;
      GlobsStep(patterns, path, glob, k);
      AppendAssoc(old(state.errors), GlobsErrors(patterns[..k], path, glob), ErrorsOf(PatternError(g, path, glob(g))));
      CheckGlob(g, path, glob, state);
      k := k + 1;
    }
    assert patterns[..k] == patterns;
  }

  /** `validate_paths`: the four locations, in order. */
  method ValidatePaths(doc: Value, glob: GlobOracle, state: ValidationState)
    requires PathsWellTyped(doc)
    modifies state`errors
    ensures state.errors == old(state.errors) + PathsErrors(doc, glob)
  {
    ghost var a := GlobsAt(Location(doc, "push", "paths"), "/on/push/paths", glob);
    ghost var b := GlobsAt(Location(doc, "push", "paths-ignore"), "/on/push/paths-ignore", glob);
    ghost var c := GlobsAt(Location(doc, "pull_request", "paths"), "/on/pull_request/paths", glob);
    ghost var d := GlobsAt(Location(doc, "pull_request", "paths-ignore"), "/on/pull_request/paths-ignore", glob);
    ValidateGlobs(Location(doc, "push", "paths"), "/on/push/paths", glob, state);
    ValidateGlobs(Location(doc, "push", "paths-ignore"), "/on/push/paths-ignore", glob, state);
    AppendAssoc(old(state.errors), a, b);
    ValidateGlobs(Location(doc, "pull_request", "paths"), "/on/pull_request/paths", glob, state);
    AppendAssoc(old(state.errors), a + b, c);
    ValidateGlobs(Location(doc, "pull_request", "paths-ignore"), "/on/pull_request/paths-ignore", glob, state);
    AppendAssoc(old(state.errors), a + b + c, d);
  }
}
