/**
 * The older remote check kept in src/lib.rs: the legacy `Action` and its
 * `validate` (src/lib.rs:282-311) and `validate_remote_checks`
 * (src/lib.rs:314-377), the one `run` calls when remote checks are on. It classifies each `uses` with the same
 * pattern as src/validators/job_uses.rs, probes only Action matches, and
 * differs from the newer driver in three ways: the URL has no path segment,
 * a transport failure counts as "not found", and a job without a `steps`
 * array or a step without a string `uses` stops the whole scan.
 */
module LegacyRemote {
  import opened Basics
  import opened Document
  import opened Validation
  import opened UsesPattern
  import Models

  /** The URL the legacy `Action::validate` fetches: `/tree/<reference>`, no path. */
  function LegacyUrl(owner: string, repo: string, reference: string): string
  {
    "https://github.com/" + owner + "/" + repo + "/tree/" + reference
  }

  /**
   * The legacy `Action::validate`, given the outcome of the request:
   * `response.ok()?` turns a transport failure into None, so only a
   * completed request with status 200 resolves.
   */
  function LegacyValidate(response: Option<int>): (r: Option<()>)
    ensures r.Some? ==> response.Some?
    ensures r.Some? <==> response == Some(200)
  {
    match response
    case None => None
    case Some(status) => if status == 200 then Some(()) else None
  }

  /** The error pushed for an Action that did not resolve. */
  function UsesNotFound(jobName: string, uses: string): ValidationError
  {
    ValidationError(UnresolvedJob, "uses_not_found", "/jobs/" + jobName + "/steps", "Invalid uses",
                    Some("Could not find the action `" + uses + "`."))
  }

  /**
   * The errors one string `uses` contributes: only an Action match is built
   * (the `find_map` yields None for Path and Docker), and it is reported
   * when its probe does not resolve.
   */
  function StepError(jobName: string, uses: string, probe: Models.Probe): (r: seq<ValidationError>)
    ensures |r| <= 1
    ensures r != [] <==> Search(uses).ActionCap? &&
                         LegacyValidate(probe(LegacyUrl(Search(uses).owner, Search(uses).repo, Search(uses).reference))).None?
    ensures r != [] ==> r == [UsesNotFound(jobName, uses)]
  {
    match Search(uses)
    case ActionCap(owner, repo, _, reference) =>
      if LegacyValidate(probe(LegacyUrl(owner, repo, reference))).None? then [UsesNotFound(jobName, uses)] else []
    case _ => []
  }

  /** The errors pushed so far, and whether the scan went on (false once a `?` returned None). */
  datatype Scan = Scan(errors: seq<ValidationError>, completed: bool)

  /** The loop over one job's steps, from the back: an aborted prefix is final. */
  function StepsScan(jobName: string, steps: seq<Value>, probe: Models.Probe): Scan
  {
    if |steps| == 0 then Scan([], true)
    else
      var prev := StepsScan(jobName, steps[..|steps| - 1], probe);
      var uses := Get(steps[|steps| - 1], "uses");
      if !prev.completed then prev
      else if !uses.Str? then Scan(prev.errors, false)
      else Scan(prev.errors + StepError(jobName, uses.s, probe), true)
  }

  /** One job: a `steps` that is not an array stops the scan. */
  function JobScan(jobName: string, job: Value, probe: Models.Probe): Scan
  {
    var steps := Get(job, "steps");
    if steps.Array? then StepsScan(jobName, steps.items, probe) else Scan([], false)
  }

  /** The loop over the jobs, from the back. */
  function JobsScan(entries: seq<(string, Value)>, probe: Models.Probe): Scan
  {
    if |entries| == 0 then Scan([], true)
    else
      var prev := JobsScan(entries[..|entries| - 1], probe);
      var last := entries[|entries| - 1];
      if !prev.completed then prev
      else
        var job := JobScan(last.0, last.1, probe);
        Scan(prev.errors + job.errors, job.completed)
  }

  /** The whole legacy scan; a `jobs` that is not an object returns at once. */
  function RemoteScan(doc: Value, probe: Models.Probe): Scan
  {
    var jobs := Get(doc, "jobs");
    if jobs.Object? then JobsScan(jobs.entries, probe) else Scan([], false)
  }

  /** Every step has a string `uses`. */
  predicate StepsWellFormed(steps: seq<Value>)
  {
    forall k :: 0 <= k < |steps| ==> Get(steps[k], "uses").Str?
  }

  /** Every job has a `steps` array whose steps all have a string `uses`. */
  predicate JobsWellFormed(entries: seq<(string, Value)>)
  {
    forall i :: 0 <= i < |entries| ==>
      Get(entries[i].1, "steps").Array? && StepsWellFormed(Get(entries[i].1, "steps").items)
  }

  lemma StepsWellFormedLast(steps: seq<Value>)
    requires |steps| > 0
    ensures StepsWellFormed(steps) <==>
              StepsWellFormed(steps[..|steps| - 1]) && Get(steps[|steps| - 1], "uses").Str?
  {
    var init := steps[..|steps| - 1];
    assert forall k :: 0 <= k < |init| ==> init[k] == steps[k];
  }

  lemma JobsWellFormedLast(entries: seq<(string, Value)>)
    requires |entries| > 0
    ensures JobsWellFormed(entries) <==>
              JobsWellFormed(entries[..|entries| - 1]) &&
              Get(entries[|entries| - 1].1, "steps").Array? &&
              StepsWellFormed(Get(entries[|entries| - 1].1, "steps").items)
  {
    var init := entries[..|entries| - 1];
    assert forall i :: 0 <= i < |init| ==> init[i] == entries[i];
  }

  /** The step scan runs to the end exactly when every step has a string `uses`. */
  lemma {:induction false} StepsCompletedIff(jobName: string, steps: seq<Value>, probe: Models.Probe)
    ensures StepsScan(jobName, steps, probe).completed <==> StepsWellFormed(steps)
  {
    if |steps| > 0 {
      var n := |steps| - 1;
      StepsCompletedIff(jobName, steps[..n], probe);
      StepsWellFormedLast(steps);
      assert StepsScan(jobName, steps, probe).completed <==>
               StepsScan(jobName, steps[..n], probe).completed && Get(steps[n], "uses").Str?;
    }
  }

  /** The job scan runs to the end exactly when every job is well formed. */
  lemma {:induction false} JobsCompletedIff(entries: seq<(string, Value)>, probe: Models.Probe)
    ensures JobsScan(entries, probe).completed <==> JobsWellFormed(entries)
  {
    if |entries| > 0 {
      var n := |entries| - 1;
      var last := entries[n];
      JobsCompletedIff(entries[..n], probe);
      JobsWellFormedLast(entries);
      var steps := Get(last.1, "steps");
      if steps.Array? {
        StepsCompletedIff(last.0, steps.items, probe);
      }
      assert JobsScan(entries, probe).completed <==>
               JobsScan(entries[..n], probe).completed && JobScan(last.0, last.1, probe).completed;
    }
  }

  /**
   * `validate_remote_checks` returns Some exactly when `jobs` is an object,
   * every job has a `steps` array and every step a string `uses`.
   */
  lemma RemoteCompletedIff(doc: Value, probe: Models.Probe)
    ensures RemoteScan(doc, probe).completed <==>
              Get(doc, "jobs").Object? && JobsWellFormed(Get(doc, "jobs").entries)
  {
    if Get(doc, "jobs").Object? {
      JobsCompletedIff(Get(doc, "jobs").entries, probe);
    }
  }

  /** Once a prefix of the steps aborts, the later steps change nothing. */
  lemma {:induction false} StepsAbortSticky(jobName: string, steps: seq<Value>, n: nat, probe: Models.Probe)
    requires n <= |steps|
    requires !StepsScan(jobName, steps[..n], probe).completed
    ensures StepsScan(jobName, steps, probe) == StepsScan(jobName, steps[..n], probe)
  {
    if n < |steps| {
      var init := steps[..|steps| - 1];
      assert init[..n] == steps[..n];
      StepsAbortSticky(jobName, init, n, probe);
    } else {
      assert steps[..n] == steps;
    }
  }

  /** Once a prefix of the jobs aborts, the later jobs change nothing. */
  lemma {:induction false} JobsAbortSticky(entries: seq<(string, Value)>, n: nat, probe: Models.Probe)
    requires n <= |entries|
    requires !JobsScan(entries[..n], probe).completed
    ensures JobsScan(entries, probe) == JobsScan(entries[..n], probe)
  {
    if n < |entries| {
      var init := entries[..|entries| - 1];
      assert init[..n] == entries[..n];
      JobsAbortSticky(init, n, probe);
    } else {
      assert entries[..n] == entries;
    }
  }

  /**
   * Every error of a step scan is `uses_not_found` for one of its steps
   * whose `uses` is an Action match that did not resolve.
   */
  lemma {:induction false} StepsScanSound(jobName: string, steps: seq<Value>, probe: Models.Probe)
    ensures forall e :: e in StepsScan(jobName, steps, probe).errors ==>
              exists k :: 0 <= k < |steps| && Get(steps[k], "uses").Str? &&
                          StepError(jobName, Get(steps[k], "uses").s, probe) == [e] &&
                          e == UsesNotFound(jobName, Get(steps[k], "uses").s)
  {
    if |steps| > 0 {
      var init := steps[..|steps| - 1];
      var n := |steps| - 1;
      StepsScanSound(jobName, init, probe);
      forall e | e in StepsScan(jobName, steps, probe).errors
        ensures exists k :: 0 <= k < |steps| && Get(steps[k], "uses").Str? &&
                            StepError(jobName, Get(steps[k], "uses").s, probe) == [e] &&
                            e == UsesNotFound(jobName, Get(steps[k], "uses").s)
      {
        if e in StepsScan(jobName, init, probe).errors {
          var k :| 0 <= k < |init| && Get(init[k], "uses").Str? &&
                   StepError(jobName, Get(init[k], "uses").s, probe) == [e] &&
                   e == UsesNotFound(jobName, Get(init[k], "uses").s);
          assert init[k] == steps[k];
        } else {
          assert e in StepError(jobName, Get(steps[n], "uses").s, probe);
        }
      }
    }
  }

  /**
   * Step `k` of the job `jobName` has a string `uses` whose legacy probe
   * fails, and `e` is the one error that step contributes.
   */
  predicate ReportsStep(jobName: string, job: Value, k: int, e: ValidationError, probe: Models.Probe)
  {
    var steps := Get(job, "steps");
    steps.Array? && 0 <= k < |steps.items| && Get(steps.items[k], "uses").Str? &&
    StepError(jobName, Get(steps.items[k], "uses").s, probe) == [e]
  }

  /**
   * Every error of the legacy scan is the `uses_not_found` of one step of
   * a declared job whose Action did not resolve; its path is that job's
   * `/jobs/<job>/steps`.
   */
  lemma {:induction false} JobsScanSound(entries: seq<(string, Value)>, probe: Models.Probe)
    ensures forall e :: e in JobsScan(entries, probe).errors ==>
              exists i, k :: 0 <= i < |entries| && ReportsStep(entries[i].0, entries[i].1, k, e, probe)
    ensures forall e :: e in JobsScan(entries, probe).errors ==>
              e.code == "uses_not_found" && e.title == "Invalid uses" &&
              exists i :: 0 <= i < |entries| && e.path == "/jobs/" + entries[i].0 + "/steps"
  {
    if |entries| > 0 {
      var init := entries[..|entries| - 1];
      var n := |entries| - 1;
      JobsScanSound(init, probe);
      var steps := Get(entries[n].1, "steps");
      if steps.Array? {
        StepsScanSound(entries[n].0, steps.items, probe);
      }
      forall e | e in JobsScan(entries, probe).errors
        ensures exists i, k :: 0 <= i < |entries| && ReportsStep(entries[i].0, entries[i].1, k, e, probe)
        ensures e.code == "uses_not_found" && e.title == "Invalid uses" &&
                exists i :: 0 <= i < |entries| && e.path == "/jobs/" + entries[i].0 + "/steps"
      {
        if e in JobsScan(init, probe).errors {
          var i, k :| 0 <= i < |init| && ReportsStep(init[i].0, init[i].1, k, e, probe);
          assert init[i] == entries[i];
          ReportsStepError(entries[i].0, entries[i].1, k, e, probe);
        } else {
          var k :| 0 <= k < |steps.items| && Get(steps.items[k], "uses").Str? &&
                   StepError(entries[n].0, Get(steps.items[k], "uses").s, probe) == [e] &&
                   e == UsesNotFound(entries[n].0, Get(steps.items[k], "uses").s);
          assert ReportsStep(entries[n].0, entries[n].1, k, e, probe);
        }
      }
    }
  }

  /** The error a reported step contributes is its `uses_not_found`. */
  lemma ReportsStepError(jobName: string, job: Value, k: int, e: ValidationError, probe: Models.Probe)
    requires ReportsStep(jobName, job, k, e, probe)
    ensures e == UsesNotFound(jobName, Get(Get(job, "steps").items[k], "uses").s)
    ensures e.code == "uses_not_found" && e.title == "Invalid uses" && e.path == "/jobs/" + jobName + "/steps"
  {
  }

  /** The errors of a prefix of the steps are a prefix of the errors of all of them. */
  lemma {:induction false} StepsErrorsGrow(jobName: string, steps: seq<Value>, n: nat, probe: Models.Probe)
    requires n <= |steps|
    ensures StepsScan(jobName, steps[..n], probe).errors <= StepsScan(jobName, steps, probe).errors
  {
    if n < |steps| {
      var init := steps[..|steps| - 1];
      assert init[..n] == steps[..n];
      StepsErrorsGrow(jobName, init, n, probe);
    } else {
      assert steps[..n] == steps;
    }
  }

  /** The errors of a prefix of the jobs are a prefix of the errors of all of them. */
  lemma {:induction false} JobsErrorsGrow(entries: seq<(string, Value)>, n: nat, probe: Models.Probe)
    requires n <= |entries|
    ensures JobsScan(entries[..n], probe).errors <= JobsScan(entries, probe).errors
  {
    if n < |entries| {
      var init := entries[..|entries| - 1];
      assert init[..n] == entries[..n];
      JobsErrorsGrow(init, n, probe);
    } else {
      assert entries[..n] == entries;
    }
  }

  /**
   * A step the scan reaches (the steps before it all have a string `uses`)
   * whose Action does not resolve is reported.
   */
  lemma StepsScanComplete(jobName: string, steps: seq<Value>, k: nat, probe: Models.Probe)
    requires k < |steps|
    requires StepsScan(jobName, steps[..k], probe).completed
    requires Get(steps[k], "uses").Str?
    requires StepError(jobName, Get(steps[k], "uses").s, probe) != []
    ensures UsesNotFound(jobName, Get(steps[k], "uses").s) in StepsScan(jobName, steps, probe).errors
  {
    StepsScanStep(jobName, steps, k, probe);
    StepsErrorsGrow(jobName, steps, k + 1, probe);
    var reached := StepsScan(jobName, steps[..k + 1], probe).errors;
    assert reached[|reached| - 1] == UsesNotFound(jobName, Get(steps[k], "uses").s);
  }

  /**
   * A step the scan reaches (every earlier job and every earlier step of
   * its own job is well formed) whose Action does not resolve is reported.
   */
  lemma JobsScanComplete(entries: seq<(string, Value)>, i: nat, k: nat, probe: Models.Probe)
    requires i < |entries|
    requires JobsScan(entries[..i], probe).completed
    requires Get(entries[i].1, "steps").Array?
    requires k < |Get(entries[i].1, "steps").items|
    requires StepsScan(entries[i].0, Get(entries[i].1, "steps").items[..k], probe).completed
    requires Get(Get(entries[i].1, "steps").items[k], "uses").Str?
    requires StepError(entries[i].0, Get(Get(entries[i].1, "steps").items[k], "uses").s, probe) != []
    ensures UsesNotFound(entries[i].0, Get(Get(entries[i].1, "steps").items[k], "uses").s)
              in JobsScan(entries, probe).errors
  {
    var steps := Get(entries[i].1, "steps").items;
    var reported := UsesNotFound(entries[i].0, Get(steps[k], "uses").s);
    StepsScanComplete(entries[i].0, steps, k, probe);
    assert reported in JobScan(entries[i].0, entries[i].1, probe).errors;
    JobsScanStep(entries, i, probe);
    assert reported in JobsScan(entries[..i + 1], probe).errors;
    JobsErrorsGrow(entries, i + 1, probe);
  }

  /**
   * The two drivers agree on every completed request and disagree on a
   * transport failure: the legacy one reports it, `Action::validate` in
   * src/validators/models.rs lets it pass.
   */
  lemma FailClosedVersusFailOpen(a: Models.Action, response: Option<int>)
    ensures response.Some? ==>
              (LegacyValidate(response).Some? <==> Models.ActionValidate(a, true, response).Ok?)
    ensures response.None? ==>
              LegacyValidate(response).None? && Models.ActionValidate(a, true, response).Ok?
  {
  }

  /** The newer URL is the legacy one with a `/` and the (possibly empty) path appended. */
  lemma UrlsDiffer(a: Models.Action)
    ensures Models.ProbeUrl(a) == LegacyUrl(a.owner, a.repo, a.reference) + "/"
                                  + (if a.path.Some? then a.path.value else "")
  {
  }

  lemma StepsScanStep(jobName: string, steps: seq<Value>, k: nat, probe: Models.Probe)
    requires k < |steps|
    requires StepsScan(jobName, steps[..k], probe).completed
    requires Get(steps[k], "uses").Str?
    ensures StepsScan(jobName, steps[..k + 1], probe)
              == Scan(StepsScan(jobName, steps[..k], probe).errors + StepError(jobName, Get(steps[k], "uses").s, probe), true)
  {
    assert steps[..k + 1][..k] == steps[..k];
  }

  lemma JobsScanStep(entries: seq<(string, Value)>, i: nat, probe: Models.Probe)
    requires i < |entries|
    requires JobsScan(entries[..i], probe).completed
    ensures JobsScan(entries[..i + 1], probe)
              == Scan(JobsScan(entries[..i], probe).errors + JobScan(entries[i].0, entries[i].1, probe).errors,
                      JobScan(entries[i].0, entries[i].1, probe).completed)
  {
    assert entries[..i + 1][..i] == entries[..i];
  }

  /** The inner loop of `validate_remote_checks`: one job's steps. */
  method CheckSteps(jobName: string, steps: seq<Value>, probe: Models.Probe, state: ValidationState)
    returns (completed: bool)
    modifies state`errors
    ensures state.errors == old(state.errors) + StepsScan(jobName, steps, probe).errors
    ensures completed == StepsScan(jobName, steps, probe).completed
  {
    var k := 0;
    while k < |steps|
      invariant 0 <= k <= |steps|
      invariant StepsScan(jobName, steps[..k], probe).completed
      invariant state.errors == old(state.errors) + StepsScan(jobName, steps[..k], probe).errors
    {
      var uses := Get(steps[k], "uses");
      if !uses.Str? {
        assert steps[..k + 1][..k] == steps[..k];
        StepsAbortSticky(jobName, steps, k + 1, probe);
        return false;
      }
      StepsScanStep(jobName, steps, k, probe);
      AppendAssoc(old(state.errors), StepsScan(jobName, steps[..k], probe).errors, StepError(jobName, uses.s, probe));
      match Search(uses.s) {
        case ActionCap(owner, repo, _, reference) =>
          if LegacyValidate(probe(LegacyUrl(owner, repo, reference))).None? {
            state.errors := state.errors + [UsesNotFound(jobName, uses.s)];
          }
        case _ =>
      }
      k := k + 1;
    }
    assert steps[..k] == steps;
    return true;
  }

  /** One turn of the outer loop: `job["steps"].as_array()?`, then the steps. */
  method CheckJob(jobName: string, job: Value, probe: Models.Probe, state: ValidationState)
    returns (completed: bool)
    modifies state`errors
    ensures state.errors == old(state.errors) + JobScan(jobName, job, probe).errors
    ensures completed == JobScan(jobName, job, probe).completed
  {
    var steps := Get(job, "steps");
    if !steps.Array? {
      return false;
    }
    completed := CheckSteps(jobName, steps.items, probe, state);
  }

  /**
   * `validate_remote_checks` (src/lib.rs:314-377): appends the errors of
   * the legacy scan, and returns Some exactly when the scan went through.
   */
  method ValidateRemoteChecks(doc: Value, probe: Models.Probe, state: ValidationState) returns (r: Option<()>)
    modifies state`errors
    ensures state.errors == old(state.errors) + RemoteScan(doc, probe).errors
    ensures r.Some? <==> RemoteScan(doc, probe).completed
  {
    var jobsValue := Get(doc, "jobs");
    if !jobsValue.Object? {
      return None;
    }
    var jobs := jobsValue.entries;
    var i := 0;
    while i < |jobs|
      invariant 0 <= i <= |jobs|
      invariant JobsScan(jobs[..i], probe).completed
      invariant state.errors == old(state.errors) + JobsScan(jobs[..i], probe).errors
    {
      JobsScanStep(jobs, i, probe);
      AppendAssoc(old(state.errors), JobsScan(jobs[..i], probe).errors, JobScan(jobs[i].0, jobs[i].1, probe).errors);
      var completed := CheckJob(jobs[i].0, jobs[i].1, probe, state);
      if !completed {
        JobsAbortSticky(jobs, i + 1, probe);
        return None;
      }
      i := i + 1;
    }
    assert jobs[..i] == jobs;
    return Some(());
  }
}
