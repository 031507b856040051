/**
 * `ls_files` (src/system/git.rs): the handling of `git ls-files -z` output.
 * The subprocess is an input: either the error that kept it from starting,
 * or its exit status with the captured stdout and stderr.
 */
module Git {
  import opened Basics

  datatype ProcessOutput = ProcessOutput(success: bool, stdout: string, stderr: string)

  const Nul: char := '\0'

  /** Rust's `str::split` on one character: always at least one piece, none holding `sep`. */
  function Split(s: string, sep: char): (r: seq<string>)
    ensures |r| >= 1
    ensures forall k :: 0 <= k < |r| ==> sep !in r[k]
    ensures Join(r, [sep]) == s
    decreases |s|
  {
    var i := IndexFrom(s, sep, 0);
    if i == |s| then
      assert forall t :: 0 <= t < |s| ==> s[t] != sep;
      [s]
    else
      var rest := Split(s[i + 1..], sep);
      assert s == s[..i] + [sep] + s[i + 1..];
      assert forall t :: 0 <= t < i ==> s[..i][t] == s[t];
      [s[..i]] + rest
  }

  /** `.filter(|s| !s.is_empty())`: the non-empty pieces, in order. */
  function NonEmpty(parts: seq<string>): (r: seq<string>)
    ensures |r| <= |parts|
    ensures forall k :: 0 <= k < |r| ==> r[k] != "" && r[k] in parts
  {
    if |parts| == 0 then []
    else (if parts[0] == "" then [] else [parts[0]]) + NonEmpty(parts[1..])
  }

  /**
   * `ls_files`: a start-up error is passed on; a failed run becomes an
   * error carrying stderr; otherwise stdout split on NUL, empty pieces dropped.
   */
  function LsFiles(run: Result<ProcessOutput, string>): (r: Result<seq<string>, string>)
    ensures run.Err? ==> r == Err(run.error)
    ensures run.Ok? && !run.value.success ==> r == Err("git ls-files failed: " + run.value.stderr)
    ensures r.Ok? ==> run.Ok? && run.value.success
    ensures run.Ok? && run.value.success ==> r.Ok?
    ensures r.Ok? ==> forall k :: 0 <= k < |r.value| ==> r.value[k] != "" && Nul !in r.value[k]
  {
    match run
    case Err(e) => Err(e)
    case Ok(output) =>
      if !output.success then Err("git ls-files failed: " + output.stderr)
      else
        var files := NonEmpty(Split(output.stdout, Nul));
        assert forall k :: 0 <= k < |files| ==> files[k] in Split(output.stdout, Nul);
        Ok(files)
  }

  /** What `git ls-files -z` prints for `names`: each name followed by NUL. */
  function Terminated(names: seq<string>): string
  {
    if |names| == 0 then "" else names[0] + [Nul] + Terminated(names[1..])
  }

  /** All pieces run together, separators dropped. */
  function Concat(parts: seq<string>): string
  {
    if |parts| == 0 then "" else parts[0] + Concat(parts[1..])
  }

  /** `s` with every `c` removed. */
  function Without(s: string, c: char): string
  {
    if |s| == 0 then "" else (if s[0] == c then "" else [s[0]]) + Without(s[1..], c)
  }

  lemma {:induction false} WithoutAppend(a: string, b: string, c: char)
    ensures Without(a + b, c) == Without(a, c) + Without(b, c)
  {
    if |a| > 0 {
      assert (a + b)[1..] == a[1..] + b;
      WithoutAppend(a[1..], b, c);
    } else {
      assert a + b == b;
    }
  }

  lemma {:induction false} WithoutAbsent(s: string, c: char)
    requires c !in s
    ensures Without(s, c) == s
  {
    if |s| > 0 {
      assert s == [s[0]] + s[1..];
      WithoutAbsent(s[1..], c);
    }
  }

  /** Splitting on `c` and running the pieces together removes every `c` and keeps the rest in order. */
  lemma {:induction false} ConcatSplit(s: string, c: char)
    ensures Concat(Split(s, c)) == Without(s, c)
    decreases |s|
  {
    var i := IndexFrom(s, c, 0);
    if i == |s| {
      assert forall t :: 0 <= t < |s| ==> s[t] != c;
      WithoutAbsent(s, c);
    } else {
      assert s == s[..i] + ([c] + s[i + 1..]);
      assert forall t :: 0 <= t < i ==> s[..i][t] == s[t];
      ConcatSplit(s[i + 1..], c);
      WithoutAbsent(s[..i], c);
      WithoutAppend(s[..i], [c] + s[i + 1..], c);
      assert ([c] + s[i + 1..])[1..] == s[i + 1..];
    }
  }

  /** Dropping empty pieces does not change what they spell together. */
  lemma {:induction false} ConcatNonEmpty(parts: seq<string>)
    ensures Concat(NonEmpty(parts)) == Concat(parts)
  {
    if |parts| > 0 {
      ConcatNonEmpty(parts[1..]);
      var head := if parts[0] == "" then [] else [parts[0]];
      ConcatAppend(head, NonEmpty(parts[1..]));
    }
  }

  lemma {:induction false} ConcatAppend(a: seq<string>, b: seq<string>)
    ensures Concat(a + b) == Concat(a) + Concat(b)
  {
    if |a| > 0 {
      assert (a + b)[1..] == a[1..] + b;
      ConcatAppend(a[1..], b);
    } else {
      assert a + b == b;
    }
  }

  /**
   * Names keep the order they have in the output: the returned names, run
   * together, are stdout with its NULs removed.
   */
  lemma LsFilesKeepsOrder(run: Result<ProcessOutput, string>)
    requires LsFiles(run).Ok?
    ensures Concat(LsFiles(run).value) == Without(run.value.stdout, Nul)
  {
    ConcatNonEmpty(Split(run.value.stdout, Nul));
    ConcatSplit(run.value.stdout, Nul);
  }

  /** Joining pieces free of `sep` and splitting again gives the pieces back. */
  lemma {:induction false} SplitJoin(parts: seq<string>, sep: char)
    requires |parts| >= 1
    requires forall k :: 0 <= k < |parts| ==> sep !in parts[k]
    ensures Split(Join(parts, [sep]), sep) == parts
  {
    var s := Join(parts, [sep]);
    var p := parts[0];
    if |parts| == 1 {
      assert IndexFrom(s, sep, 0) == |s|;
    } else {
      var rest := Join(parts[1..], [sep]);
      assert s == p + [sep] + rest;
      assert s[|p|] == sep;
      assert forall t :: 0 <= t < |p| ==> s[t] == p[t];
      assert IndexFrom(s, sep, 0) == |p|;
      assert s[..|p|] == p;
      assert s[|p| + 1..] == rest;
      SplitJoin(parts[1..], sep);
      assert parts == [p] + parts[1..];
    }
  }

  lemma {:induction false} TerminatedIsJoin(names: seq<string>)
    ensures Terminated(names) == Join(names + [""], [Nul])
  {
    if |names| > 0 {
      TerminatedIsJoin(names[1..]);
      assert (names + [""])[1..] == names[1..] + [""];
    }
  }

  lemma {:induction false} NonEmptyKeepsNames(names: seq<string>)
    requires forall k :: 0 <= k < |names| ==> names[k] != ""
    ensures NonEmpty(names + [""]) == names
  {
    if |names| > 0 {
      assert (names + [""])[1..] == names[1..] + [""];
      NonEmptyKeepsNames(names[1..]);
    }
  }

  /**
   * Round trip: when stdout lists non-empty, NUL-free names, each followed
   * by NUL, `ls_files` returns exactly those names.
   */
  lemma LsFilesRoundTrip(names: seq<string>, stderr: string)
    requires forall k :: 0 <= k < |names| ==> names[k] != "" && Nul !in names[k]
    ensures LsFiles(Ok(ProcessOutput(true, Terminated(names), stderr))) == Ok(names)
  {
    TerminatedIsJoin(names);
    var parts := names + [""];
    assert forall k :: 0 <= k < |parts| ==> Nul !in parts[k] by {
      forall k | 0 <= k < |parts| ensures Nul !in parts[k] {
        if k < |names| { assert parts[k] == names[k]; }
      }
    }
    SplitJoin(parts, Nul);
    NonEmptyKeepsNames(names);
    assert Split(Terminated(names), Nul) == parts;
    assert NonEmpty(Split(Terminated(names), Nul)) == names;
  }
}
