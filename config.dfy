/** The run configuration the drivers pass down (src/config.rs). */
module Config {
  import opened Basics

  datatype ActionType = Action | Workflow

  /**
   * One file's run settings. The file's text is not held here: the drivers
   * receive its parse outcome separately. `remoteChecks` is passed
   * explicitly; the verbose flag only drives log output and is left out.
   */
  datatype RunConfig = RunConfig(
    filePath: Option<string>,
    fileName: Option<string>,
    actionType: ActionType,
    remoteChecks: bool)
}
