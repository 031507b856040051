/**
 * The classified `uses` references and their checks (src/validators/models.rs).
 * The HTTP GET of the remote check is not performed: its outcome is an input,
 * a status code or None when no response arrived.
 */
module Models {
  import opened Basics
  import opened Validation

  /** An action reference `owner/repo[/path]@reference`, with the locator of the step it came from. */
  datatype Action = Action(owner: string, repo: string, path: Option<string>, reference: string, origin: string)

  /** The `Uses` trait objects the classifier builds: an Action, or an Invalid record holding the matched text. */
  datatype Uses = ActionUses(action: Action) | InvalidUses(uses: string, origin: string)

  /** Outcome of the probe request for a URL: the status code, or None when the request did not complete. */
  type Probe = string -> Option<int>

  /** `fmt::Display for Action`: owner, repo and the optional path joined by `/`, then `@` and the reference. */
  function Display(a: Action): (r: string)
    ensures a.path.None? ==> r == a.owner + "/" + a.repo + "@" + a.reference
    ensures a.path.Some? ==> r == a.owner + "/" + a.repo + "/" + a.path.value + "@" + a.reference
  {
    var p := [a.owner, a.repo] + (if a.path.Some? then [a.path.value] else []);
    assert Join(p[1..], "/") == a.repo + (if a.path.Some? then "/" + a.path.value else "") by {
      if a.path.Some? { assert p[1..][1..] == [a.path.value]; }
    }
    Join(p, "/") + "@" + a.reference
  }

  /**
   * The URL the remote check fetches. The path segment is always written,
   * empty when there is no path, so a path-less URL ends in `/`.
   */
  function ProbeUrl(a: Action): (r: string)
    ensures a.path.None? ==> |r| > 0 && r[|r| - 1] == '/'
  {
    "https://github.com/" + a.owner + "/" + a.repo + "/tree/" + a.reference + "/"
      + (if a.path.Some? then a.path.value else "")
  }

  function ActionNotFound(a: Action): ValidationError
  {
    ValidationError(Unknown, "action_not_found", a.origin, "Action Not Found",
                    Some("Could not find action: " + Display(a)))
  }

  /**
   * `Action::validate`. Without the remote-checks feature it always succeeds.
   * With it, status 200 succeeds, any other status fails with
   * `action_not_found`, and a request that got no response succeeds.
   */
  function ActionValidate(a: Action, remoteChecks: bool, response: Option<int>): (r: Result<(), ValidationError>)
    ensures !remoteChecks ==> r.Ok?
    ensures remoteChecks && response.None? ==> r.Ok?
    ensures remoteChecks && response.Some? ==> (r.Ok? <==> response.value == 200)
    ensures r.Err? ==> r.error.code == "action_not_found" && r.error.path == a.origin
  {
    if !remoteChecks then Ok(())
    else match response
      case Some(status) =>
        if status == 200 then Ok(()) else Err(ActionNotFound(a))
      case None => Ok(())
  }

  /** `Invalid::validate` never reports anything. */
  function InvalidValidate(uses: string, origin: string): (r: Result<(), ValidationError>)
  {
    Ok(())
  }

  /** Dynamic dispatch of `Uses::validate`; only an Action is ever probed. */
  function UsesValidate(u: Uses, remoteChecks: bool, probe: Probe): (r: Result<(), ValidationError>)
    ensures u.InvalidUses? ==> r.Ok?
    ensures r.Err? <==> u.ActionUses? && remoteChecks && probe(ProbeUrl(u.action)).Some?
                        && probe(ProbeUrl(u.action)).value != 200
    ensures r.Err? ==> r.error == ActionNotFound(u.action)
  {
    match u
    case ActionUses(a) => ActionValidate(a, remoteChecks, probe(ProbeUrl(a)))
    case InvalidUses(uses, origin) => InvalidValidate(uses, origin)
  }
}
