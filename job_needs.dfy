/**
 * `validate_job_needs` (src/lib.rs:240-272): every `needs` entry, a string
 * or an array of strings, must name a key of the `jobs` object.
 */
module JobNeeds {
  import opened Basics
  import opened Document
  import opened Validation

  /** `is_invalid_dependency`: only membership among the job names is tested. */
  predicate IsInvalidDependency(jobs: seq<(string, Value)>, need: string)
  {
    need !in Keys(jobs)
  }

  function UnresolvedJobError(jobName: string, need: string): ValidationError
  {
    ValidationError(UnresolvedJob, "unresolved_job", "/jobs/" + jobName + "/needs", "Unresolved job",
                    Some("unresolved job " + need))
  }

  /** The errors for an array `needs`: one per string element that names no job, in array order. */
  function ArrayNeedsErrors(jobs: seq<(string, Value)>, jobName: string, items: seq<Value>): (r: seq<ValidationError>)
    ensures |r| <= |items|
  {
    if |items| == 0 then []
    else
      var last := items[|items| - 1];
      ArrayNeedsErrors(jobs, jobName, items[..|items| - 1])
        + (if last.Str? && IsInvalidDependency(jobs, last.s) then [UnresolvedJobError(jobName, last.s)] else [])
  }

  /** The errors for one job; a `needs` that is neither a string nor an array adds none. */
  function NeedsErrors(jobs: seq<(string, Value)>, jobName: string, job: Value): (r: seq<ValidationError>)
    ensures Get(job, "needs").Str? ==>
              (r == [] <==> Get(job, "needs").s in Keys(jobs))
    ensures Get(job, "needs").Str? && r != [] ==> r == [UnresolvedJobError(jobName, Get(job, "needs").s)]
    ensures !Get(job, "needs").Str? && !Get(job, "needs").Array? ==> r == []
  {
    var needs := Get(job, "needs");
    if needs.Str? then
      if IsInvalidDependency(jobs, needs.s) then [UnresolvedJobError(jobName, needs.s)] else []
    else if needs.Array? then ArrayNeedsErrors(jobs, jobName, needs.items)
    else []
  }

  /** The errors for the jobs in `entries`, in iteration order; `jobs` supplies the key set. */
  function EntriesNeedsErrors(jobs: seq<(string, Value)>, entries: seq<(string, Value)>): seq<ValidationError>
  {
    if |entries| == 0 then []
    else
      var last := entries[|entries| - 1];
      EntriesNeedsErrors(jobs, entries[..|entries| - 1]) + NeedsErrors(jobs, last.0, last.1)
  }

  /** Everything `validate_job_needs` appends; nothing when `jobs` is not an object. */
  function JobNeedsErrors(doc: Value): seq<ValidationError>
  {
    var jobs := Get(doc, "jobs");
    if jobs.Object? then EntriesNeedsErrors(jobs.entries, jobs.entries) else []
  }

  /** Array order is kept: the errors of a concatenation are concatenated. */
  lemma {:induction false} ArrayNeedsAppend(jobs: seq<(string, Value)>, jobName: string, a: seq<Value>, b: seq<Value>)
    ensures ArrayNeedsErrors(jobs, jobName, a + b) == ArrayNeedsErrors(jobs, jobName, a) + ArrayNeedsErrors(jobs, jobName, b)
  {
    if |b| == 0 {
      assert a + b == a;
    } else {
      assert (a + b)[..|a + b| - 1] == a + b[..|b| - 1];
      ArrayNeedsAppend(jobs, jobName, a, b[..|b| - 1]);
    }
  }

  /**
   * Exactly the missing names are reported: every error names a string
   * element absent from `jobs`, and every such element is reported.
   */
  lemma {:induction false} ArrayNeedsExact(jobs: seq<(string, Value)>, jobName: string, items: seq<Value>)
    ensures forall e :: e in ArrayNeedsErrors(jobs, jobName, items) ==>
              exists k :: 0 <= k < |items| && items[k].Str? && items[k].s !in Keys(jobs)
                          && e == UnresolvedJobError(jobName, items[k].s)
    ensures forall k :: 0 <= k < |items| && items[k].Str? && items[k].s !in Keys(jobs) ==>
              UnresolvedJobError(jobName, items[k].s) in ArrayNeedsErrors(jobs, jobName, items)
  {
    if |items| > 0 {
      var init := items[..|items| - 1];
      ArrayNeedsExact(jobs, jobName, init);
      forall e | e in ArrayNeedsErrors(jobs, jobName, items)
        ensures exists k :: 0 <= k < |items| && items[k].Str? && items[k].s !in Keys(jobs)
                            && e == UnresolvedJobError(jobName, items[k].s)
      {
        if e in ArrayNeedsErrors(jobs, jobName, init) {
          var k :| 0 <= k < |init| && init[k].Str? && init[k].s !in Keys(jobs) && e == UnresolvedJobError(jobName, init[k].s);
          assert items[k] == init[k];
        } else {
          assert items[|items| - 1].Str? && e == UnresolvedJobError(jobName, items[|items| - 1].s);
        }
      }
      forall k | 0 <= k < |items| && items[k].Str? && items[k].s !in Keys(jobs)
        ensures UnresolvedJobError(jobName, items[k].s) in ArrayNeedsErrors(jobs, jobName, items)
      {
        if k < |items| - 1 {
          assert init[k] == items[k];
        }
      }
    }
  }

  /** A job that needs itself is accepted: only membership is tested, never cycles. */
  lemma SelfNeedAccepted(jobs: seq<(string, Value)>, i: nat)
    requires i < |jobs|
    requires Get(jobs[i].1, "needs") == Str(jobs[i].0)
    ensures NeedsErrors(jobs, jobs[i].0, jobs[i].1) == []
  {
    assert jobs[i].0 in Keys(jobs);
  }

  /** The job `job` needs `n`, as a string or as a string element of an array. */
  predicate NeedsName(job: Value, n: string)
  {
    var needs := Get(job, "needs");
    needs == Str(n) || (needs.Array? && Str(n) in needs.items)
  }

  /**
   * Every appended error is `unresolved_job` for a declared job and a name
   * that job needs but that is not declared.
   */
  lemma {:induction false} EntriesNeedsSound(jobs: seq<(string, Value)>, entries: seq<(string, Value)>)
    ensures forall e :: e in EntriesNeedsErrors(jobs, entries) ==>
              e.code == "unresolved_job" &&
              exists i, n :: 0 <= i < |entries| && NeedsName(entries[i].1, n) && n !in Keys(jobs)
                             && e == UnresolvedJobError(entries[i].0, n)
  {
    if |entries| > 0 {
      var init := entries[..|entries| - 1];
      var last := entries[|entries| - 1];
      EntriesNeedsSound(jobs, init);
      var needs := Get(last.1, "needs");
      if needs.Array? {
        ArrayNeedsExact(jobs, last.0, needs.items);
      }
      forall e | e in EntriesNeedsErrors(jobs, entries)
        ensures e.code == "unresolved_job" &&
                exists i, n :: 0 <= i < |entries| && NeedsName(entries[i].1, n) && n !in Keys(jobs)
                               && e == UnresolvedJobError(entries[i].0, n)
      {
        if e in EntriesNeedsErrors(jobs, init) {
          var i, n :| 0 <= i < |init| && NeedsName(init[i].1, n) && n !in Keys(jobs) && e == UnresolvedJobError(init[i].0, n);
          assert entries[i] == init[i];
        } else {
          assert e in NeedsErrors(jobs, last.0, last.1);
          var i := |entries| - 1;
          if needs.Array? {
            var k :| 0 <= k < |needs.items| && needs.items[k].Str? && needs.items[k].s !in Keys(jobs)
                     && e == UnresolvedJobError(last.0, needs.items[k].s);
            assert needs.items[k] in needs.items;
            assert NeedsName(entries[i].1, needs.items[k].s);
          } else {
            assert NeedsName(entries[i].1, needs.s);
          }
        }
      }
    }
  }

  /** Every need that names no job is reported against the job that declares it. */
  lemma {:induction false} EntriesNeedsComplete(jobs: seq<(string, Value)>, entries: seq<(string, Value)>, i: nat, n: string)
    requires i < |entries|
    requires NeedsName(entries[i].1, n) && n !in Keys(jobs)
    ensures UnresolvedJobError(entries[i].0, n) in EntriesNeedsErrors(jobs, entries)
  {
    var init := entries[..|entries| - 1];
    if i < |entries| - 1 {
      assert init[i] == entries[i];
      EntriesNeedsComplete(jobs, init, i, n);
    } else {
      var needs := Get(entries[i].1, "needs");
      if needs.Array? {
        ArrayNeedsExact(jobs, entries[i].0, needs.items);
        var k :| 0 <= k < |needs.items| && needs.items[k] == Str(n);
        assert UnresolvedJobError(entries[i].0, n) in NeedsErrors(jobs, entries[i].0, entries[i].1);
      }
    }
  }

  /** Every name some job needs is a declared job. */
  ghost predicate NeedsResolved(jobs: seq<(string, Value)>)
  {
    forall i, n :: 0 <= i < |jobs| && NeedsName(jobs[i].1, n) ==> n in Keys(jobs)
  }

  /**
   * `validate_job_needs` appends nothing exactly when `jobs` is not an
   * object or every name any job needs is declared.
   */
  lemma JobNeedsEmptyIff(doc: Value)
    ensures JobNeedsErrors(doc) == [] <==>
              !Get(doc, "jobs").Object? || NeedsResolved(Get(doc, "jobs").entries)
  {
    var jobs := Get(doc, "jobs");
    if jobs.Object? {
      if JobNeedsErrors(doc) != [] {
        EntriesNeedsSound(jobs.entries, jobs.entries);
        assert JobNeedsErrors(doc)[0] in JobNeedsErrors(doc);
      }
      if !NeedsResolved(jobs.entries) {
        var i, n :| 0 <= i < |jobs.entries| && NeedsName(jobs.entries[i].1, n) && n !in Keys(jobs.entries);
        EntriesNeedsComplete(jobs.entries, jobs.entries, i, n);
      }
    }
  }

  lemma EntriesNeedsStep(jobs: seq<(string, Value)>, i: nat)
    requires i < |jobs|
    ensures EntriesNeedsErrors(jobs, jobs[..i + 1]) == EntriesNeedsErrors(jobs, jobs[..i]) + NeedsErrors(jobs, jobs[i].0, jobs[i].1)
  {
    assert jobs[..i + 1][..i] == jobs[..i];
  }

  lemma ArrayNeedsStep(jobs: seq<(string, Value)>, jobName: string, items: seq<Value>, k: nat)
    requires k < |items|
    ensures ArrayNeedsErrors(jobs, jobName, items[..k + 1]) == ArrayNeedsErrors(jobs, jobName, items[..k])
      + (if items[k].Str? && IsInvalidDependency(jobs, items[k].s) then [UnresolvedJobError(jobName, items[k].s)] else [])
  {
    assert items[..k + 1][..k] == items[..k];
  }

  /** `validate_job_needs`: appends exactly JobNeedsErrors(doc) and changes nothing else. */
  method ValidateJobNeeds(doc: Value, state: ValidationState)
    modifies state`errors
    ensures state.errors == old(state.errors) + JobNeedsErrors(doc)
  {
    var jobsValue := Get(doc, "jobs");
    if jobsValue.Object? {
      var jobs := jobsValue.entries;
      var i := 0;
      while i < |jobs|
        invariant 0 <= i <= |jobs|
        invariant state.errors == old(state.errors) + EntriesNeedsErrors(jobs, jobs[..i])
      {
        EntriesNeedsStep(jobs, i);
        AppendAssoc(old(state.errors), EntriesNeedsErrors(jobs, jobs[..i]), NeedsErrors(jobs, jobs[i].0, jobs[i].1));
        CheckJobNeeds(jobs, jobs[i].0, jobs[i].1, state);
        i := i + 1;
      }
      assert jobs[..i] == jobs;
    }
  }

  /** The body of the loop over the jobs: checks one job's `needs`. */
  method CheckJobNeeds(jobs: seq<(string, Value)>, jobName: string, job: Value, state: ValidationState)
    modifies state`errors
    ensures state.errors == old(state.errors) + NeedsErrors(jobs, jobName, job)
  {
    var needs := Get(job, "needs");
    if needs.Str? {
      if IsInvalidDependency(jobs, needs.s) {
        state.errors := state.errors + [UnresolvedJobError(jobName, needs.s)];
      }
    } else if needs.Array? {
      var k := 0;
      while k < |needs.items|
        invariant 0 <= k <= |needs.items|
        invariant state.errors == old(state.errors) + ArrayNeedsErrors(jobs, jobName, needs.items[..k])
      {
        ArrayNeedsStep(jobs, jobName, needs.items, k);
        var need := needs.items[k];
        AppendAssoc(old(state.errors), ArrayNeedsErrors(jobs, jobName, needs.items[..k]),
                    if need.Str? && IsInvalidDependency(jobs, need.s) then [UnresolvedJobError(jobName, need.s)] else []);
        if need.Str? && IsInvalidDependency(jobs, need.s) {
          state.errors := state.errors + [UnresolvedJobError(jobName, need.s)];
        }
        k := k + 1;
      }
      assert needs.items[..k] == needs.items;
    }
  }
}
