/**
 * The drivers of src/lib.rs: `run` (135-174), which validates one parsed
 * document, and `cli::run` (82-132), which runs it over every file named
 * on the command line.
 */
module Driver {
  import opened Basics
  import opened Document
  import opened Config
  import opened Validation
  import opened Globs
  import opened JobNeeds
  import LegacyRemote
  import Models

  /** The outcome of `serde_yaml::from_str` on the file's text. */
  datatype ParseOutcome = Parsed(doc: Value) | ParseFailed(error: ValidationError)

  /**
   * `validate_as_action` / `validate_as_workflow`: the JSON-schema stage,
   * given as the errors it reports for a document of the given type.
   */
  type SchemaOracle = (ActionType, Value) -> seq<ValidationError>

  /**
   * What `run` needs in order not to panic: a parsed workflow's path
   * filters are null or arrays of strings.
   */
  predicate Runnable(config: RunConfig, parsed: ParseOutcome)
  {
    parsed.Parsed? && config.actionType == Workflow ==> PathsWellTyped(parsed.doc)
  }

  /** The errors of a parsed workflow, phase after phase. */
  function WorkflowErrors(doc: Value, remoteChecks: bool, schema: SchemaOracle, glob: GlobOracle,
                          probe: Models.Probe): seq<ValidationError>
    requires PathsWellTyped(doc)
  {
    schema(Workflow, doc) + PathsErrors(doc, glob) + JobNeedsErrors(doc)
      + (if remoteChecks then LegacyRemote.RemoteScan(doc, probe).errors else [])
  }

  /** The errors `run` leaves on the state it returns. */
  function RunErrors(config: RunConfig, parsed: ParseOutcome, schema: SchemaOracle, glob: GlobOracle,
                     probe: Models.Probe): (r: seq<ValidationError>)
    requires Runnable(config, parsed)
    ensures parsed.ParseFailed? ==> r == [parsed.error]
    ensures parsed.Parsed? && config.actionType == Action ==> r == schema(Action, parsed.doc)
  {
    match parsed
    case ParseFailed(error) => [error]
    case Parsed(doc) =>
      if config.actionType == Action then schema(Action, doc)
      else WorkflowErrors(doc, config.remoteChecks, schema, glob, probe)
  }

  /**
   * Turning remote checks on only appends: the errors without them come
   * first, unchanged, followed by those of the legacy remote scan.
   */
  lemma RemoteChecksOnlyAppend(config: RunConfig, parsed: ParseOutcome, schema: SchemaOracle, glob: GlobOracle,
                               probe: Models.Probe)
    requires Runnable(config, parsed)
    ensures RunErrors(config.(remoteChecks := true), parsed, schema, glob, probe)
              == RunErrors(config.(remoteChecks := false), parsed, schema, glob, probe)
                 + (if parsed.Parsed? && config.actionType == Workflow
                    then LegacyRemote.RemoteScan(parsed.doc, probe).errors else [])
  {
    if parsed.Parsed? && config.actionType == Workflow {
      var doc := parsed.doc;
      var base := schema(Workflow, doc) + PathsErrors(doc, glob) + JobNeedsErrors(doc);
      assert RunErrors(config.(remoteChecks := true), parsed, schema, glob, probe)
             == WorkflowErrors(doc, true, schema, glob, probe);
      assert RunErrors(config.(remoteChecks := false), parsed, schema, glob, probe)
             == WorkflowErrors(doc, false, schema, glob, probe);
      assert WorkflowErrors(doc, false, schema, glob, probe) == base + [] == base;
    }
  }

  /**
   * A parsed workflow is valid exactly when the schema stage reports
   * nothing, every glob at the four filter locations compiles and matches a
   * file, every name a job needs is a job, and (with remote checks) the
   * older remote scan reports nothing. That scan stops silently at the
   * first job without a `steps` array or step without a string `uses`, so
   * references after that point are never probed.
   */
  lemma WorkflowValidIff(doc: Value, remoteChecks: bool, schema: SchemaOracle, glob: GlobOracle, probe: Models.Probe)
    requires PathsWellTyped(doc)
    ensures WorkflowErrors(doc, remoteChecks, schema, glob, probe) == [] <==>
              schema(Workflow, doc) == [] &&
              LocationPasses(Location(doc, "push", "paths"), glob) &&
              LocationPasses(Location(doc, "push", "paths-ignore"), glob) &&
              LocationPasses(Location(doc, "pull_request", "paths"), glob) &&
              LocationPasses(Location(doc, "pull_request", "paths-ignore"), glob) &&
              (!Get(doc, "jobs").Object? || NeedsResolved(Get(doc, "jobs").entries)) &&
              (remoteChecks ==> LegacyRemote.RemoteScan(doc, probe).errors == [])
  {
    PathsPassIff(doc, glob);
    JobNeedsEmptyIff(doc);
  }

  /** The Workflow arm of `run`: the schema stage, then globs, needs and (if on) remote checks. */
  method RunWorkflow(doc: Value, remoteChecks: bool, schema: SchemaOracle, glob: GlobOracle,
                     probe: Models.Probe) returns (state: ValidationState)
    requires PathsWellTyped(doc)
    ensures fresh(state)
    ensures state.errors == WorkflowErrors(doc, remoteChecks, schema, glob, probe)
  {
    state := new ValidationState(schema(Workflow, doc), None, None);
    ValidatePaths(doc, glob, state);
    ValidateJobNeeds(doc, state);
    ghost var before := state.errors;
    if remoteChecks {
      var _ := LegacyRemote.ValidateRemoteChecks(doc, probe, state);
    } else {
      assert state.errors == before + [];
    }
  }

  /**
   * `run`: a fresh state holding RunErrors, stamped with the configured
   * action type and file path. On a parse failure the state is first
   * created with the file name (or "file"), which the final stamp replaces.
   */
  method Run(config: RunConfig, parsed: ParseOutcome, schema: SchemaOracle, glob: GlobOracle,
             probe: Models.Probe) returns (state: ValidationState)
    requires Runnable(config, parsed)
    ensures fresh(state)
    ensures state.errors == RunErrors(config, parsed, schema, glob, probe)
    ensures state.actionType == Some(config.actionType)
    ensures state.filePath == config.filePath
  {
    match parsed {
      case ParseFailed(error) =>
        var fileName := if config.fileName.Some? then config.fileName.value else "file";
        state := new ValidationState([error], Some(config.actionType), Some(fileName));
      case Parsed(doc) =>
        if config.actionType == Action {
          state := new ValidationState(schema(Action, doc), None, None);
        } else {
          state := RunWorkflow(doc, config.remoteChecks, schema, glob, probe);
        }
    }
    state.actionType := Some(config.actionType);
    state.filePath := config.filePath;
  }

  datatype RunResult = Success | Failure

  /**
   * One command-line argument: its path, the file name component of the
   * path (None when it has none), and the parse outcome of its text (None
   * when the file could not be read).
   */
  datatype SourceFile = SourceFile(path: string, fileName: Option<string>, contents: Option<ParseOutcome>)

  /** The type is chosen from the exact file name, not from a suffix. */
  function ActionTypeFor(fileName: Option<string>): (t: ActionType)
    ensures t == Action <==> fileName == Some("action.yml") || fileName == Some("action.yaml")
  {
    match fileName
    case Some(name) => if name == "action.yml" || name == "action.yaml" then Action else Workflow
    case None => Workflow
  }

  /** The RunConfig `cli::run` builds for a file. */
  function ConfigFor(f: SourceFile, remoteChecks: bool): RunConfig
  {
    RunConfig(Some(f.path), f.fileName, ActionTypeFor(f.fileName), remoteChecks)
  }

  /** What `cli::run` needs of a file so that `run` does not panic on it. */
  predicate FileRunnable(f: SourceFile, remoteChecks: bool)
  {
    f.fileName.Some? && f.contents.Some? ==> Runnable(ConfigFor(f, remoteChecks), f.contents.value)
  }

  /** A file passes when it has a name, could be read, and validated without errors. */
  predicate FileSucceeds(f: SourceFile, remoteChecks: bool, schema: SchemaOracle, glob: GlobOracle,
                         probe: Models.Probe)
    requires FileRunnable(f, remoteChecks)
  {
    f.fileName.Some? && f.contents.Some? &&
    RunErrors(ConfigFor(f, remoteChecks), f.contents.value, schema, glob, probe) == []
  }

  /**
   * `cli::run`: every file is processed (a failure only clears the flag),
   * and the result is Success exactly when every file succeeds.
   */
  method CliRun(files: seq<SourceFile>, remoteChecks: bool, schema: SchemaOracle, glob: GlobOracle,
                probe: Models.Probe) returns (result: RunResult)
    requires forall i :: 0 <= i < |files| ==> FileRunnable(files[i], remoteChecks)
    ensures result == Success <==>
              forall i :: 0 <= i < |files| ==> FileSucceeds(files[i], remoteChecks, schema, glob, probe)
  {
    var success := true;
    for i := 0 to |files|
      invariant success <==>
                  forall j :: 0 <= j < i ==> FileSucceeds(files[j], remoteChecks, schema, glob, probe)
    {
      var f := files[i];
      if f.fileName.None? {
        success := false;
        continue;
      }
      if f.contents.None? {
        success := false;
        continue;
      }
      var config := RunConfig(Some(f.path), f.fileName, ActionTypeFor(f.fileName), remoteChecks);
      var state := Run(config, f.contents.value, schema, glob, probe);
      if !state.IsValid() {
        success := false;
      }
    }
    result := if success then Success else Failure;
  }

  /** A file named `my-action.yml` is validated as a workflow. */
  lemma SuffixIsNotEnough()
    ensures ActionTypeFor(Some("my-action.yml")) == Workflow
    ensures ActionTypeFor(Some("action.yaml")) == Action
  {
  }
}
