# action-validator: semantic validation, modelled in Dafny

action-validator checks GitHub Actions workflow and action files. A file is
parsed from YAML and checked against a JSON schema. Then the core modelled
here runs the checks a schema cannot express:

- every `needs` entry of a job names a job (`validate_job_needs`);
- every glob under `on.push` / `on.pull_request` `paths` and `paths-ignore`
  compiles and matches a file (`validate_paths` / `validate_globs`);
- every step's `uses` reference is classified and, when remote checks are on,
  probed on GitHub. There are two copies of this: the newer
  `validators::job_uses` with `validators::models`, and the older one kept in
  `src/lib.rs`.

It also models the drivers `run` and `cli::run`, and the parsing of
`git ls-files -z` output.

Every validator only appends to the `errors` of a `ValidationState`. The state
is a class whose fields the drivers update in place. Each validator is a
method with `modifies state`errors`. Its postcondition ties the new error list
to a specification function of the document: `state.errors ==
old(state.errors) + F(doc)`. The properties the source promises are proved as
lemmas about `F`: which errors appear and why, their order, and when none
appear.

Modules:

| file | module | models |
|---|---|---|
| basics.dfy | Basics | Option/Result, string searches, `join` |
| document.dfy | Document | the parsed `serde_json::Value`, `value[key]`, JSON string display |
| config.dfy | Config | `ActionType`, `RunConfig` |
| validation.dfy | Validation | `ValidationError`, `ValidationState` |
| uses_pattern.dfy | UsesPattern | the `uses` regex, as leftmost-first matchers |
| models.dfy | Models | `Action`, `Invalid`, `Display`, both `Action::validate` variants |
| job_uses.dfy | JobUses | `validators::job_uses::validate` and its remote check |
| legacy_remote.dfy | LegacyRemote | the older `validate_remote_checks` in `src/lib.rs` |
| job_needs.dfy | JobNeeds | `validate_job_needs` |
| globs.dfy | Globs | `validate_paths`, `validate_globs` |
| driver.dfy | Driver | `run`, `cli::run` |
| git.dfy | Git | `system::git::ls_files` |

`src/lib.rs` does not declare `mod validators`. With remote checks on, `run`
therefore calls the older `validate_remote_checks` of `src/lib.rs:314-377`,
and `Driver` models exactly that. The newer validator in
`src/validators/job_uses.rs` is modelled on its own, in `JobUses`.

The parts that are outside the program become inputs:

- a glob oracle `pattern -> Ok(match count) | Err(message)`;
- an HTTP probe `url -> Some(status) | None`, where None means no response;
- a schema oracle `(ActionType, document) -> errors`;
- the parse outcome of each file;
- the `git` process result.

## Model

| member | source | states |
|---|---|---|
| `Document.Get` | src/lib.rs:254-256 | indexing a non-object, or an object without the key, yields Null; on an object with the key it yields the value of an entry with that key |
| `Document.JsonString` | src/lib.rs:219 | a pattern with no quote, backslash or control character is shown as itself in double quotes |
| `Validation.ValidationState.constructor` | src/lib.rs:140-144 | a state holds exactly the given errors, action type and file path |
| `Models.Display` | src/validators/models.rs:34-42 | `owner/repo@ref` without a path, `owner/repo/path@ref` with one |
| `Models.ProbeUrl` | src/validators/models.rs:53-60 | the path segment is always written, so a path-less URL ends in `/` |
| `Models.ActionValidate` | src/validators/models.rs:45-75 | without the feature always Ok; with it, Ok iff status 200 when a response came, Ok when none came (fail-open), and any error is `action_not_found` at the Action's origin |
| `Models.UsesValidate` | src/validators/models.rs:18-22 | an Invalid record never fails (`InvalidValidate`); a result is Err exactly for an Action, with remote checks on, whose probe returned a status other than 200, and the error is that Action's `action_not_found` |
| `UsesPattern.MatchAction` | src/validators/job_uses.rs:13-14 | an anchored Action match has owner and repo free of `/` and a reference and path free of newlines; on one line its groups rebuild the string and the reference holds no `@`, so the split is at the last `@` (the greedy groups) |
| `UsesPattern.ScanFrom` | src/validators/job_uses.rs:15-17 | the leftmost Path or Docker start wins, Path first at a tie; only when neither can start anywhere is the result the bare `$` |
| `UsesPattern.Search` | src/validators/job_uses.rs:13-17 | Action is chosen iff the anchored alternative matches; no named group iff no alternative can match anywhere |
| `UsesPattern.ActionMatchesIff` | src/validators/job_uses.rs:14 | on one line, Action matches iff some `@` follows the first `/` |
| `UsesPattern.NoUnanchoredMatch` | src/validators/job_uses.rs:15-16 | a string with no `.` and no `d` cannot match Path or Docker |
| `UsesPattern.ActionBeatsPath` | src/validators/job_uses.rs:38-45 | `./x@y` is an Action (owner `.`, repo `x`, reference `y`), not a Path |
| `UsesPattern.PathMatchesLater` | src/validators/job_uses.rs:15 | Path is unanchored: `x ./a/b` matches Path `./a` at position 2 |
| `UsesPattern.UnclassifiedExamples` | src/validators/job_uses.rs:17 | the empty string and `owner/repo` match only `$` |
| `JobUses.Classify` | src/validators/job_uses.rs:38-67 | no record iff only `$` matched; an Action record iff the Action alternative matched; every record has origin `jobs/<job>/steps/uses` |
| `JobUses.DisplayRoundTrip` | src/validators/job_uses.rs:56-61 | a one-line `uses` classified as Action displays as itself |
| `JobUses.NotFoundQuotesUses` | src/validators/models.rs:66-71 | the `action_not_found` detail of a one-line reference is `Could not find action: ` followed by the `uses` text |
| `JobUses.StepUsesMembers` | src/validators/job_uses.rs:23-30 | a pair is collected from a job's steps iff some step's `uses` is that string |
| `JobUses.EntriesUsesMembers` | src/validators/job_uses.rs:19-35 | a pair is collected iff a job of that name has a `steps` array with a step using that string; other jobs and steps are skipped |
| `JobUses.EntriesUsesAppend` | src/validators/job_uses.rs:21-34 | collection goes job by job: the uses of concatenated jobs are concatenated |
| `JobUses.UseError` | src/validators/job_uses.rs:69-80 | `invalid_uses` exactly when only `$` matched; nothing for Path or Docker; with the feature on, an Action gets its `action_not_found` exactly when its probe returned a status other than 200, and nothing otherwise; with it off, nothing but `invalid_uses` |
| `JobUses.UsesErrorsOf` | src/validators/job_uses.rs:36-81 | at most one error per collected `uses`, each `invalid_uses` or (with the feature) `action_not_found` |
| `JobUses.WithoutRemoteChecksOnlyInvalidUses` | src/validators/job_uses.rs:69-80 | without the feature the errors are exactly one `invalid_uses` per unclassifiable string, in order (checked against an independent front-to-back definition) |
| `JobUses.ValidateRemoteChecks` | src/validators/job_uses.rs:89-96 | with the feature on, a failed check's error is appended unchanged; otherwise nothing changes |
| `JobUses.CheckUse` | src/validators/job_uses.rs:37-80 | one loop iteration appends exactly that `uses`'s error, if any |
| `JobUses.Validate` | src/validators/job_uses.rs:9-87 | returns None and leaves the state alone iff `jobs` is not an object; otherwise appends the errors of every collected `uses`, in order |
| `JobNeeds.ArrayNeedsErrors` | src/lib.rs:261-268 | an array `needs` yields at most one error per element |
| `JobNeeds.NeedsErrors` | src/lib.rs:256-269 | a string `needs` yields nothing iff it is a job name (`IsInvalidDependency` is false), and otherwise exactly one `unresolved_job`; a `needs` of any other type yields nothing |
| `JobNeeds.ArrayNeedsAppend` | src/lib.rs:262-268 | array elements are checked in order with no short-circuit |
| `JobNeeds.ArrayNeedsExact` | src/lib.rs:262-268 | each error is for a string element that names no job, and each such element has its error |
| `JobNeeds.SelfNeedAccepted` | src/lib.rs:241-243 | a job that needs itself is accepted, since `IsInvalidDependency` only tests membership |
| `JobNeeds.EntriesNeedsSound` | src/lib.rs:245-252 | every error is `UnresolvedJobError`: `unresolved_job` at `/jobs/<job>/needs` with detail `unresolved job <name>`, for a name that job needs and that is no job |
| `JobNeeds.EntriesNeedsComplete` | src/lib.rs:254-270 | every needed name that is no job is reported for its job |
| `JobNeeds.JobNeedsEmptyIff` | src/lib.rs:254-271 | no error iff `jobs` is not an object or every needed name is a job |
| `JobNeeds.ValidateJobNeeds` | src/lib.rs:240-272 | appends exactly the job-needs errors of the document |
| `JobNeeds.CheckJobNeeds` | src/lib.rs:256-269 | one job's iteration appends exactly that job's errors |
| `Globs.PatternError` | src/lib.rs:212-231 | no error iff the pattern compiles and matches at least one file; an error has the location's path and the title "Glob does not match any files" |
| `Globs.PatternErrorCodes` | src/lib.rs:214-230 | zero matches is `glob_not_matched`, a compile error `invalid_glob` with the engine's message; the detail quotes the pattern as JSON |
| `Globs.GlobsErrors` | src/lib.rs:210-232 | at most one error per pattern |
| `Globs.GlobsAt` | src/lib.rs:205-208 | a null location adds nothing |
| `Globs.GlobsErrorsAt` | src/lib.rs:215-229 | every error at a location carries that location's path and the shared title |
| `Globs.GlobsAppend` | src/lib.rs:211-232 | patterns are checked in order with no short-circuit |
| `Globs.GlobsSound` | src/lib.rs:211-231 | every error is the error of some pattern that fails to compile or matches no file |
| `Globs.GlobsComplete` | src/lib.rs:211-231 | every failing pattern's error is reported |
| `Globs.GlobsEmptyIff` | src/lib.rs:205-232 | a pattern list adds nothing iff every pattern compiles and matches a file |
| `Globs.LocationPassesIff` | src/lib.rs:205-238 | a location adds nothing iff it is null or all its patterns pass |
| `Globs.PathsPassIff` | src/lib.rs:176-193 | `validate_paths` adds nothing iff all four locations pass |
| `Globs.PathsErrorsOrdered` | src/lib.rs:176-193 | only the four locations are reported, and in visiting order: push before pull_request, `paths` before `paths-ignore` |
| `Globs.CheckGlob` | src/lib.rs:212-231 | one pattern's iteration appends exactly its error, if any |
| `Globs.ValidateGlobs` | src/lib.rs:205-238 | appends exactly the errors of the location's patterns, in order |
| `Globs.ValidatePaths` | src/lib.rs:176-193 | appends the four locations' errors in visiting order |
| `LegacyRemote.LegacyValidate` | src/lib.rs:295-311 | resolves exactly when a response arrived with status 200; no response does not resolve (fail-closed) |
| `LegacyRemote.StepError` | src/lib.rs:327-357 | at most one error per step, and one iff the `uses` is an Action whose probe of `LegacyUrl` (owner, repo and reference, no path) does not resolve; it is `uses_not_found` at `/jobs/<job>/steps` quoting the `uses` |
| `LegacyRemote.StepsCompletedIff` | src/lib.rs:326-327 | a job's step loop runs to the end iff every step has a string `uses` |
| `LegacyRemote.JobsCompletedIff` | src/lib.rs:324-327 | the job loop runs to the end iff every job has a `steps` array of steps with string `uses` |
| `LegacyRemote.RemoteCompletedIff` | src/lib.rs:324-376 | the scan returns `Some(())` iff `jobs` is an object and every job and step is well formed |
| `LegacyRemote.StepsAbortSticky` | src/lib.rs:326-327 | once a step aborts the scan, later steps add nothing |
| `LegacyRemote.JobsAbortSticky` | src/lib.rs:324-326 | once a job aborts the scan, later jobs add nothing |
| `LegacyRemote.StepsScanSound` | src/lib.rs:348-356 | every error of a job's steps is `uses_not_found` for a step whose `uses` is an unresolved Action |
| `LegacyRemote.JobsScanSound` | src/lib.rs:324-356 | every error is the one error of some step of some job (`ReportsStep`): a step with a string `uses` that is an unresolved Action; so it is `uses_not_found` titled "Invalid uses" at that job's `/jobs/<job>/steps` |
| `LegacyRemote.ReportsStepError` | src/lib.rs:348-356 | the error a reported step contributes is its `uses_not_found`, titled "Invalid uses", at `/jobs/<job>/steps` |
| `LegacyRemote.StepsErrorsGrow` | src/lib.rs:326-357 | the errors after a prefix of a job's steps are a prefix of the errors after all of them: the step loop only appends |
| `LegacyRemote.JobsErrorsGrow` | src/lib.rs:324-357 | the errors after a prefix of the jobs are a prefix of the errors after all of them: the job loop only appends |
| `LegacyRemote.StepsScanComplete` | src/lib.rs:326-357 | a step the loop reaches (every earlier step has a string `uses`) whose Action does not resolve has its `uses_not_found` in the job's errors |
| `LegacyRemote.JobsScanComplete` | src/lib.rs:324-357 | a step the scan reaches (every earlier job and every earlier step of its job is well formed) whose Action does not resolve has its `uses_not_found` in the scan's errors |
| `LegacyRemote.FailClosedVersusFailOpen` | src/lib.rs:306-309 | both probes agree when a response arrives; without one the older check fails and the newer one passes |
| `LegacyRemote.UrlsDiffer` | src/lib.rs:298-304 | the newer probe URL is the older one (`LegacyUrl`) followed by `/` and the path |
| `LegacyRemote.CheckSteps` | src/lib.rs:326-374 | the step loop appends exactly the steps' errors and reports whether it completed |
| `LegacyRemote.CheckJob` | src/lib.rs:324-326 | one job appends exactly its errors and reports whether it completed |
| `LegacyRemote.ValidateRemoteChecks` | src/lib.rs:314-377 | appends exactly the scan's errors, and returns Some iff the scan completed |
| `Driver.RunErrors` | src/lib.rs:139-168 | a parse failure leaves exactly its one error; an Action gets only the schema errors |
| `Driver.RemoteChecksOnlyAppend` | src/lib.rs:161-163 | turning remote checks on only appends the remote scan's errors after the others |
| `Driver.WorkflowValidIff` | src/lib.rs:157-165 | a workflow is valid iff the schema, all four glob locations, all needs and (when on) the remote scan report nothing; that scan stops silently at the first malformed job or step, so later references are not probed |
| `Driver.RunWorkflow` | src/lib.rs:152-166 | schema errors, then glob errors, then needs errors, then remote-check errors |
| `Driver.Run` | src/lib.rs:135-174 | the state holds the run's errors, and is finally stamped with the configured action type and file path |
| `Driver.ActionTypeFor` | src/lib.rs:107-110 | a file is an Action iff its name is exactly `action.yml` or `action.yaml` |
| `Driver.SuffixIsNotEnough` | src/lib.rs:108 | `my-action.yml` is a workflow |
| `Driver.CliRun` | src/lib.rs:82-132 | every file is processed; Success iff every file has a name, was read and validated without errors (`ValidationState.IsValid`: no error recorded) |
| `Git.Split` | src/system/git.rs:14 | at least one piece, no piece holds the separator, and joining the pieces gives the input back |
| `Git.NonEmpty` | src/system/git.rs:15 | the kept pieces are non-empty pieces of the input |
| `Git.LsFiles` | src/system/git.rs:3-20 | a start-up error is passed on; a failed run is an error with the stderr text; a started, successful run is Ok, and only such a run; returned names are non-empty and NUL-free |
| `Git.LsFilesKeepsOrder` | src/system/git.rs:13-17 | the names, run together, are stdout with its NULs removed |
| `Git.SplitJoin` | src/system/git.rs:14 | splitting a join of separator-free pieces gives the pieces back |
| `Git.LsFilesRoundTrip` | src/system/git.rs:13-19 | stdout of NUL-terminated, non-empty, NUL-free names gives exactly those names |

## Left out

- YAML parsing (`serde_yaml::from_str`): each file's parse outcome is an input, either the document or the one error the parser produced.
- JSON-schema validation (`src/schemas.rs` is not part of this model): its errors come from an oracle. The returned state's action type and file path are set to None there; `run` overwrites both anyway.
- The glob crate and the filesystem: an oracle gives the match count or the compile error message of a pattern.
- HTTP: `reqwest` calls become a probe that maps a URL to a status, or None when no response arrived.
- The `git` subprocess and lossy UTF-8 decoding: the process result (start-up error, or exit status with stdout and stderr as strings) is an input.
- `println!` debug output, `log` messages and the `verbose` flag: they produce output only.
- The JS/WASM bindings, including the js `validate_globs` stub that only logs: they are host bindings.
- Non-UTF-8 file names: `file_name.to_str()` (src/lib.rs:87) gives None, and `path.to_str().unwrap()` (src/lib.rs:105) then panics after the file was read. The model leaves that panic out. A `SourceFile` whose `fileName` is None stands only for `path.file_name()` returning None (src/lib.rs:86-92), which fails that file and moves on.
- The `remote-checks` compile-time feature: it is a boolean parameter.
- Objects are their entries in iteration order. The order is whatever the map gives; no particular order (such as sorted keys) is relied on. Numbers are reals.
- `UsesPattern.ScanFrom`: the text captured for a Path or Docker match has no lemma of its own. It only feeds Invalid records, which never report.
- The Docker tag group never takes part in a match, because the image group's `.*` consumes the rest of the line. It is not modelled.
- The panics of `g.as_str().unwrap()` and of `unreachable!` in `validate_globs` become preconditions (`Globs.WellTyped`, `Driver.Runnable`): a glob location is null or an array of strings.
- The model follows the code as written, including:
  - alternatives are preferred in the order they are written in the pattern: Action, Path, Docker;
  - only the Action alternative is anchored;
  - Path and Docker references are never probed;
  - an Invalid record never fails;
  - an unclassifiable `uses` is reported only by the newer validator;
  - the older remote check used by `run` is fail-closed and aborts on a malformed job or step, while the newer one is fail-open and skips them.
