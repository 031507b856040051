/** Validation errors and the state that accumulates them. */
module Validation {
  import opened Basics
  import opened Config

  /**
   * The ValidationError variants the core constructs; `External` stands for
   * the variants built by the YAML and schema stages.
   */
  datatype ErrorKind = NoFilesMatchingGlob | InvalidGlob | UnresolvedJob | Unknown | External

  datatype ValidationError = ValidationError(
    kind: ErrorKind,
    code: string,
    path: string,
    title: string,
    detail: Option<string>)

  /** The per-document result: errors only ever get appended to it. */
  class ValidationState {
    var errors: seq<ValidationError>
    var actionType: Option<ActionType>
    var filePath: Option<string>

    constructor (errors: seq<ValidationError>, actionType: Option<ActionType>, filePath: Option<string>)
      ensures this.errors == errors
      ensures this.actionType == actionType
      ensures this.filePath == filePath
    {
      this.errors := errors;
      this.actionType := actionType;
      this.filePath := filePath;
    }

    /** A document is valid exactly when no error was recorded. */
    predicate IsValid()
      reads this
    {
      errors == []
    }
  }
}
