/**
 * The `uses` validator of src/validators/job_uses.rs: every step's `uses`
 * string is classified by the pattern; a string no named alternative
 * matches is reported as `invalid_uses`; a classified reference is checked
 * remotely only when the remote-checks feature is on.
 */
module JobUses {
  import opened Basics
  import opened Document
  import opened Validation
  import opened UsesPattern
  import opened Models

  /** The locator an Action or Invalid record carries. */
  function Origin(jobName: string): string
  {
    "jobs/" + jobName + "/steps/uses"
  }

  /**
   * The ordered `find_map` over the group names Action, Path, Docker:
   * an Action match builds an Action record, a Path or Docker match an
   * Invalid record holding the matched text, and the bare `$` match nothing.
   */
  function Classify(jobName: string, uses: string): (r: Option<Uses>)
    ensures r.None? <==> Search(uses).EndOnly?
    ensures r.Some? && r.value.ActionUses? <==> MatchAction(uses).Some?
    ensures r.Some? && r.value.ActionUses? ==> r.value.action.origin == Origin(jobName)
    ensures r.Some? && r.value.InvalidUses? ==> r.value.origin == Origin(jobName)
  {
    match Search(uses)
    case ActionCap(owner, repo, path, reference) =>
      Some(ActionUses(Action(owner, repo, path, reference, Origin(jobName))))
    case PathCap(_, text) => Some(InvalidUses(text, Origin(jobName)))
    case DockerCap(_, text) => Some(InvalidUses(text, Origin(jobName)))
    case EndOnly => None
  }

  /** Round trip: a one-line `uses` classified as an Action displays as itself. */
  lemma DisplayRoundTrip(jobName: string, uses: string)
    requires '\n' !in uses
    requires Classify(jobName, uses).Some? && Classify(jobName, uses).value.ActionUses?
    ensures Display(Classify(jobName, uses).value.action) == uses
  {
    var c := MatchAction(uses).value;
    assert Search(uses) == c;
    assert Classify(jobName, uses).value.action == Action(c.owner, c.repo, c.path, c.reference, Origin(jobName));
    DisplayOfCaptures(c, Origin(jobName));
  }

  lemma DisplayOfCaptures(c: Captures, origin: string)
    requires c.ActionCap?
    ensures Display(Action(c.owner, c.repo, c.path, c.reference, origin)) == Rebuilt(c)
  {
    var a := Action(c.owner, c.repo, c.path, c.reference, origin);
    if c.path.Some? {
      calc {
        Display(a);
        c.owner + "/" + c.repo + "/" + c.path.value + "@" + c.reference;
        c.owner + "/" + c.repo + ("/" + c.path.value) + "@" + c.reference;
      }
    }
  }

  /** The `action_not_found` detail of a one-line reference quotes the `uses` string verbatim. */
  lemma NotFoundQuotesUses(jobName: string, uses: string, probe: Probe)
    requires '\n' !in uses
    requires Classify(jobName, uses).Some?
    requires UsesValidate(Classify(jobName, uses).value, true, probe).Err?
    ensures UsesValidate(Classify(jobName, uses).value, true, probe).error.detail
            == Some("Could not find action: " + uses)
  {
    DisplayRoundTrip(jobName, uses);
  }

  /** The `uses` strings of one job's steps: steps that are not a string-valued `uses` are skipped. */
  function StepUses(jobName: string, steps: seq<Value>): seq<(string, string)>
  {
    if |steps| == 0 then []
    else
      var u := Get(steps[0], "uses");
      (if u.Str? then [(jobName, u.s)] else []) + StepUses(jobName, steps[1..])
  }

  /** `all_uses`: job by job, step by step; a job whose `steps` is not an array contributes nothing. */
  function EntriesUses(entries: seq<(string, Value)>): seq<(string, string)>
  {
    if |entries| == 0 then []
    else
      var steps := Get(entries[0].1, "steps");
      (if steps.Array? then StepUses(entries[0].0, steps.items) else []) + EntriesUses(entries[1..])
  }

  /** The step at `k` of job `job` has `uses` string `u`. */
  predicate StepHasUses(job: Value, k: int, u: string)
  {
    var steps := Get(job, "steps");
    steps.Array? && 0 <= k < |steps.items| && Get(steps.items[k], "uses") == Str(u)
  }

  lemma {:induction false} StepUsesMembers(jobName: string, steps: seq<Value>, n: string, u: string)
    ensures (n, u) in StepUses(jobName, steps) <==>
              n == jobName && exists k :: 0 <= k < |steps| && Get(steps[k], "uses") == Str(u)
  {
    if |steps| > 0 {
      StepUsesMembers(jobName, steps[1..], n, u);
      if exists k :: 0 <= k < |steps[1..]| && Get(steps[1..][k], "uses") == Str(u) {
        var k :| 0 <= k < |steps[1..]| && Get(steps[1..][k], "uses") == Str(u);
        assert Get(steps[k + 1], "uses") == Str(u);
      }
      if exists k :: 0 <= k < |steps| && Get(steps[k], "uses") == Str(u) {
        var k :| 0 <= k < |steps| && Get(steps[k], "uses") == Str(u);
        if k > 0 { assert Get(steps[1..][k - 1], "uses") == Str(u); }
      }
    }
  }

  /** A pair is collected exactly when some job of that name has a step with that `uses` string. */
  lemma {:induction false} EntriesUsesMembers(entries: seq<(string, Value)>, n: string, u: string)
    ensures (n, u) in EntriesUses(entries) <==>
              exists i, k :: 0 <= i < |entries| && entries[i].0 == n && StepHasUses(entries[i].1, k, u)
  {
    if |entries| > 0 {
      var steps := Get(entries[0].1, "steps");
      EntriesUsesMembers(entries[1..], n, u);
      if steps.Array? {
        StepUsesMembers(entries[0].0, steps.items, n, u);
        if (n, u) in StepUses(entries[0].0, steps.items) {
          var k :| 0 <= k < |steps.items| && Get(steps.items[k], "uses") == Str(u);
          assert StepHasUses(entries[0].1, k, u);
        }
      }
      if exists i, k :: 0 <= i < |entries[1..]| && entries[1..][i].0 == n && StepHasUses(entries[1..][i].1, k, u) {
        var i, k :| 0 <= i < |entries[1..]| && entries[1..][i].0 == n && StepHasUses(entries[1..][i].1, k, u);
        assert entries[i + 1] == entries[1..][i];
      }
      if exists i, k :: 0 <= i < |entries| && entries[i].0 == n && StepHasUses(entries[i].1, k, u) {
        var i, k :| 0 <= i < |entries| && entries[i].0 == n && StepHasUses(entries[i].1, k, u);
        if i > 0 {
          assert entries[1..][i - 1] == entries[i];
        } else {
          assert entries[0].0 == n;
          assert 0 <= k < |steps.items| && Get(steps.items[k], "uses") == Str(u);
          assert (n, u) in StepUses(entries[0].0, steps.items);
          assert EntriesUses(entries) == StepUses(entries[0].0, steps.items) + EntriesUses(entries[1..]);
        }
      }
    }
  }

  /** Collection keeps the order of the jobs: the uses of a concatenation are concatenated. */
  lemma {:induction false} EntriesUsesAppend(a: seq<(string, Value)>, b: seq<(string, Value)>)
    ensures EntriesUses(a + b) == EntriesUses(a) + EntriesUses(b)
  {
    if |a| > 0 {
      assert (a + b)[1..] == a[1..] + b;
      EntriesUsesAppend(a[1..], b);
      var steps := Get(a[0].1, "steps");
      var head := if steps.Array? then StepUses(a[0].0, steps.items) else [];
      AppendAssoc(head, EntriesUses(a[1..]), EntriesUses(b));
    } else {
      assert a + b == b;
    }
  }

  function AllUses(doc: Value): seq<(string, string)>
  {
    var jobs := Get(doc, "jobs");
    if jobs.Object? then EntriesUses(jobs.entries) else []
  }

  function InvalidUsesError(uses: string): ValidationError
  {
    ValidationError(InvalidGlob, "invalid_uses", "", "", Some("The `uses` " + uses + " is invalid."))
  }

  /**
   * What one collected `uses` adds to the state: `invalid_uses` when no named
   * alternative matched, the remote check's error when the feature is on and
   * it fails, nothing otherwise. Path and Docker references never add one.
   */
  function UseError(jobName: string, uses: string, remoteChecks: bool, probe: Probe): (r: Option<ValidationError>)
    ensures Search(uses).EndOnly? <==> r == Some(InvalidUsesError(uses))
    ensures Search(uses).PathCap? || Search(uses).DockerCap? ==> r.None?
    ensures r.Some? ==> r.value.code == "invalid_uses" || (remoteChecks && r.value.code == "action_not_found")
    ensures !remoteChecks && r.Some? ==> Search(uses).EndOnly?
    ensures remoteChecks && MatchAction(uses).Some? ==>
              var a := Classify(jobName, uses).value.action;
              r == (if probe(ProbeUrl(a)).Some? && probe(ProbeUrl(a)).value != 200
                    then Some(ActionNotFound(a)) else None)
  {
    match Classify(jobName, uses)
    case Some(u) =>
      if remoteChecks then
        match UsesValidate(u, remoteChecks, probe)
        case Err(e) => Some(e)
        case Ok(_) => None
      else None
    case None => Some(InvalidUsesError(uses))
  }

  /** The error of one collected pair, as a list of zero or one. */
  function UseErrors(pair: (string, string), remoteChecks: bool, probe: Probe): seq<ValidationError>
  {
    match UseError(pair.0, pair.1, remoteChecks, probe)
    case Some(e) => [e]
    case None => []
  }

  /** The errors of the collected pairs, in order (defined on the last pair so loops can extend it). */
  function UsesErrorsOf(pairs: seq<(string, string)>, remoteChecks: bool, probe: Probe): (r: seq<ValidationError>)
    ensures |r| <= |pairs|
    ensures forall e :: e in r ==> e.code == "invalid_uses" || (remoteChecks && e.code == "action_not_found")
  {
    if |pairs| == 0 then []
    else
      var last := pairs[|pairs| - 1];
      UsesErrorsOf(pairs[..|pairs| - 1], remoteChecks, probe)
        + UseErrors(last, remoteChecks, probe)
  }

  lemma UsesErrorsOfStep(pairs: seq<(string, string)>, i: nat, remoteChecks: bool, probe: Probe)
    requires i < |pairs|
    ensures UsesErrorsOf(pairs[..i + 1], remoteChecks, probe) == UsesErrorsOf(pairs[..i], remoteChecks, probe)
      + UseErrors(pairs[i], remoteChecks, probe)
  {
    assert pairs[..i + 1][..i] == pairs[..i];
  }

  /** The errors `validate` appends for a whole document; none without a `jobs` object. */
  function UsesErrors(doc: Value, remoteChecks: bool, probe: Probe): seq<ValidationError>
  {
    UsesErrorsOf(AllUses(doc), remoteChecks, probe)
  }

  /** Reference definition: one `invalid_uses` per unclassifiable string, front to back. */
  function Unclassified(pairs: seq<(string, string)>): seq<ValidationError>
  {
    if |pairs| == 0 then []
    else (if Search(pairs[0].1).EndOnly? then [InvalidUsesError(pairs[0].1)] else []) + Unclassified(pairs[1..])
  }

  lemma {:induction false} UnclassifiedAppend(a: seq<(string, string)>, b: seq<(string, string)>)
    ensures Unclassified(a + b) == Unclassified(a) + Unclassified(b)
  {
    if |a| > 0 {
      assert (a + b)[1..] == a[1..] + b;
      UnclassifiedAppend(a[1..], b);
      var head := if Search(a[0].1).EndOnly? then [InvalidUsesError(a[0].1)] else [];
      AppendAssoc(head, Unclassified(a[1..]), Unclassified(b));
    } else {
      assert a + b == b;
    }
  }

  /** Without remote checks the only errors are one `invalid_uses` per unclassifiable string, in order. */
  lemma {:induction false} WithoutRemoteChecksOnlyInvalidUses(pairs: seq<(string, string)>, probe: Probe)
    ensures UsesErrorsOf(pairs, false, probe) == Unclassified(pairs)
  {
    if |pairs| > 0 {
      var init := pairs[..|pairs| - 1];
      var last := pairs[|pairs| - 1];
      WithoutRemoteChecksOnlyInvalidUses(init, probe);
      assert pairs == init + [last];
      UnclassifiedAppend(init, [last]);
      assert [last][1..] == [];
      assert Unclassified([last]) == if Search(last.1).EndOnly? then [InvalidUsesError(last.1)] else [];
    }
  }

  /**
   * `validate_remote_checks` of job_uses.rs: with the feature on, a failed
   * check's error is appended unchanged.
   */
  method ValidateRemoteChecks(uses: Uses, state: ValidationState, remoteChecks: bool, probe: Probe)
    modifies state`errors
    ensures state.errors == old(state.errors) +
      (if remoteChecks && UsesValidate(uses, remoteChecks, probe).Err?
       then [UsesValidate(uses, remoteChecks, probe).error] else [])
  {
    if !remoteChecks {
      return;
    }
    var r := UsesValidate(uses, remoteChecks, probe);
    if r.Err? {
      state.errors := state.errors + [r.error];
    }
  }

  /** The body of `validate`'s loop for one collected `uses`: append its error, if any. */
  method CheckUse(jobName: string, uses: string, state: ValidationState, remoteChecks: bool, probe: Probe)
    modifies state`errors
    ensures state.errors == old(state.errors)
      + UseErrors((jobName, uses), remoteChecks, probe)
  {
    var usesOp := Classify(jobName, uses);
    if usesOp.Some? {
      if remoteChecks {
        ValidateRemoteChecks(usesOp.value, state, remoteChecks, probe);
      }
    } else {
      state.errors := state.errors + [InvalidUsesError(uses)];
    }
  }

  /**
   * `validate`: returns None, leaving the state alone, when `jobs` is not an
   * object; otherwise classifies every collected `uses` and appends its error.
   */
  method Validate(doc: Value, state: ValidationState, remoteChecks: bool, probe: Probe) returns (r: Option<()>)
    modifies state`errors
    ensures r.Some? <==> Get(doc, "jobs").Object?
    ensures state.errors == old(state.errors) + UsesErrors(doc, remoteChecks, probe)
    ensures r.None? ==> state.errors == old(state.errors)
  {
    var jobs := Get(doc, "jobs");
    if !jobs.Object? {
      return None;
    }
    var allUses := EntriesUses(jobs.entries);
    var i := 0;
    while i < |allUses|
      invariant 0 <= i <= |allUses|
      invariant state.errors == old(state.errors) + UsesErrorsOf(allUses[..i], remoteChecks, probe)
    {
      var (jobName, uses) := allUses[i];
      UsesErrorsOfStep(allUses, i, remoteChecks, probe);
      AppendAssoc(old(state.errors), UsesErrorsOf(allUses[..i], remoteChecks, probe),
                  UseErrors(allUses[i], remoteChecks, probe));
      CheckUse(jobName, uses, state, remoteChecks, probe);
      i := i + 1;
    }
    assert allUses[..i] == allUses;
    return Some(());
  }
}
