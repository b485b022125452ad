/** The error values, result wrappers and client-side validators the
    resources share: the provider's own error messages, the service's
    not-found sentinels, and the path validators of the service's `api`
    package, which are foreign and therefore left uninterpreted. */
module Api {

  /** The remote calls the resources make, named so that a failing one can
      be told apart. */
  datatype Call =
    | SecretWrite | SecretGet | SecretGetWithData | SecretDelete
    | DirCreate | DirGetTree | DirDelete
    | RuleGet | RuleSet | RuleDelete

  datatype Error =
    // raised by the provider itself
    | MissingContent                                 // "either 'data' or 'generate' must be specified"
    | PathHasVersion(path: string)                   // "path '%v' should not have a version number"
    | AccessRuleExists(dir: string, account: string) // "access rule already exists: %s:%s"
    | MalformedID(id: string)                        // "malformed ID: %s is not a valid access rule ID ..."
    | DirNotEmpty(path: string)                      // "cannot remove directory %s: it is not empty"
    | FetchingDir(cause: Error)                      // "error fetching directory: %s"
    // raised by the foreign validators and the random generator
    | InvalidSecretPath(path: string)
    | InvalidDirPath(path: string)
    | GenerateFailed
    // raised by the service
    | SecretNotFound
    | DirNotFound
    | DirAlreadyExists
    | AccessRuleNotFound                             // the sentinel api.ErrAccessRuleNotFound
    | Unavailable(call: Call)                        // any other failure of a remote call

  /** api.IsErrNotFound: the error is one of the service's not-found errors. */
  predicate IsNotFound(e: Error) {
    e.SecretNotFound? || e.DirNotFound? || e.AccessRuleNotFound?
  }

  datatype Option<T> = None | Some(value: T)

  datatype Result<T> = Ok(value: T) | Err(error: Error)

  /** What a Go function returning only `error` returns: nil or an error. */
  datatype Outcome = Pass | Fail(error: Error)

  /** The validators of the `api` package, as uninterpreted predicates:
      api.NewSecretPath, SecretPath.HasVersion and api.ValidateDirPath. */
  datatype Validators = Validators(
    isSecretPath: string -> bool,
    hasVersion: string -> bool,
    isDirPath: string -> bool)

  /** api.NewSecretPath: the path itself, or the validator's error. */
  function NewSecretPath(s: string, v: Validators): Result<string> {
    if v.isSecretPath(s) then Ok(s) else Err(InvalidSecretPath(s))
  }
}
