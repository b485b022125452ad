# SecretHub Terraform provider — the resource rules, in Dafny

The provider maps Terraform's Create/Read/Update/Delete/Import callbacks of
three resources — `secrethub_secret`, `secrethub_access_rule` and
`secrethub_dir` — onto calls of the SecretHub client SDK. This project
models the rules the provider adds of its own:

- **Secret paths** (`resource_secret.dfy`): `newCompoundSecretPath` trims
  every `/` from both ends of each component, drops the components left
  empty and joins the rest with `/`; `getSecretPath` takes the resource's
  `path_prefix`, or the provider's when that is empty, and rejects a path
  that names a version.
- **Secret lifecycle**: Create chooses the contents between `data` and a
  `generate` block, writes a new version and records ID, contents and
  version; Read compares the stored version with the service's latest and
  refetches only on a difference (drift detection); Update is Create;
  Delete ignores the outcome of the remote delete.
- **Access-rule IDs** (`resource_access_rule.dfy`): the ID is
  `<dir>:<account_name>`, and parsing splits on `:` and accepts exactly two
  parts. Create refuses an existing rule, Read clears the ID when the rule
  was deleted elsewhere, Import fills directory and account from the ID.
- **Directories** (`resource_dir.dfy`): Delete refuses a directory holding
  a subdirectory or a secret (the depth-1 tree lists the root itself, hence
  the test `> 1`), treats a missing directory as deleted, and Read clears
  the ID of a directory removed elsewhere.

Supporting modules: `go_strings.dfy` gives the semantics of Go's
`strings.Trim`, `strings.Join` and `strings.Split` for a one-character
cutset or separator, with Split/Join round trips; `api.dfy` holds the error
values, the `Result`/`Outcome` wrappers and the SDK's path validators as
uninterpreted predicates (`Validators`); `sdk.dfy` is an abstract model of
the service behind the SDK client (class `Remote`: directories, the version
history of each secret, access rules, and a set of calls that currently
fail). The Terraform resource state is one class per resource
(`SecretData`, `AccessRuleData`, `DirData`), and each callback is a method
that updates it, and the `Remote`, in the order the Go code does.

Behaviour the model makes explicit:

- The secret resource does not treat "secret not found" on Read as a
  deletion: the error is returned and the ID kept, unlike the directory and
  access-rule resources. The model follows the code here.
- The access-rule ID is recorded before Read parses it, so a directory or
  account name containing `:` leaves a rule set remotely and an ID that the
  same Create's Read rejects as malformed (`ResourceAccessRule.Create`,
  `ResourceAccessRule.RuleIDParses`).
- Access-rule Read clears the ID only for the rule-not-found sentinel; any
  other error is returned. The model of the service (`Sdk.Remote.GetRule`)
  assumes that a rule looked up in a missing directory yields the
  directory-not-found error, not the rule sentinel, so such a Read fails.

## Model

| member | source | states |
|---|---|---|
| GoStrings.TrimLeftDropsCutset | secrethub/resource_secret.go:184 | the left trim keeps a suffix of the string, and everything it drops is the cutset character |
| GoStrings.TrimRightDropsCutset | secrethub/resource_secret.go:184 | the right trim keeps a prefix of the string, and everything it drops is the cutset character |
| GoStrings.Trim | secrethub/resource_secret.go:184 | `strings.Trim` with the one-character cutset `/`: the left trim followed by the right trim; its properties are the lemmas below |
| GoStrings.TrimEnds | secrethub/resource_secret.go:184 | a trimmed component that is not empty has no `/` at either end |
| GoStrings.TrimEmpty | secrethub/resource_secret.go:184-185 | a component trims to the empty string exactly when it consists of `/` only |
| GoStrings.TrimUntouched | secrethub/resource_secret.go:184 | a component without `/` at either end is its own trim |
| GoStrings.Join | secrethub/resource_secret.go:189 | `strings.Join`: the empty string for no parts, the single part for one, otherwise the first part, the separator and the join of the rest |
| GoStrings.JoinEnds | secrethub/resource_secret.go:189 | joining non-empty parts starts with the first part's first character and ends with the last part's last character |
| GoStrings.Split | secrethub/resource_access_rule.go:120 | splitting gives one more part than there are separators, and no part contains the separator |
| GoStrings.SplitPrefix | secrethub/resource_access_rule.go:120 | a separator-free prefix is glued onto the first part of the split |
| GoStrings.SplitJoin | secrethub/resource_access_rule.go:120 | splitting a join of separator-free parts gives the parts back |
| GoStrings.JoinSplit | secrethub/resource_access_rule.go:120 | joining the parts of a split gives the string back |
| ResourceSecret.Kept | secrethub/resource_secret.go:182-188 | no more components are kept than were given |
| ResourceSecret.CompoundPath | secrethub/resource_secret.go:182-189 | the string handed to the path validator: the `/`-join of the kept components |
| ResourceSecret.NewCompoundSecretPath | secrethub/resource_secret.go:181-191 | the loop over the components produces the trimmed, non-empty components in order, and the result is the validator's verdict on their `/`-join |
| ResourceSecret.KeptConcat | secrethub/resource_secret.go:183-188 | components are processed independently and in order: what is kept from `a + b` is what is kept from `a` followed by what is kept from `b` |
| ResourceSecret.KeptSnoc | secrethub/resource_secret.go:183-188 | appending a component appends exactly what that component contributes |
| ResourceSecret.KeptSingle | secrethub/resource_secret.go:184-187 | a component is dropped exactly when it is empty or all `/`, and otherwise kept in trimmed form |
| ResourceSecret.KeptOneClean | secrethub/resource_secret.go:184-187 | a component contributes at most one string, which is non-empty and has no `/` at either end |
| ResourceSecret.KeptClean | secrethub/resource_secret.go:183-188 | every kept component is non-empty and has no `/` at either end |
| ResourceSecret.CompoundPathClean | secrethub/resource_secret.go:184-189 | the joined path is empty or neither starts nor ends with `/` |
| ResourceSecret.CompoundPathIdempotent | secrethub/resource_secret.go:184-189 | a joined path fed back as the only component is returned unchanged |
| ResourceSecret.KeptPair | secrethub/resource_secret.go:183-188 | two components contribute independently, first then second |
| ResourceSecret.CompoundPathOfPair | secrethub/resource_secret.go:183-189 | two components that each contribute one string join as those strings with `/` between them |
| ResourceSecret.CompoundPathOfTwo | secrethub/resource_secret.go:183-189 | two components without `/` at their ends join as `x/y` |
| ResourceSecret.CompoundPathOfPadded | secrethub/resource_secret.go:183-189 | `x/` and `/y` join as `x/y`: the redundant separators are trimmed away |
| ResourceSecret.CompoundPathOfEmptyFirst | secrethub/resource_secret.go:183-189 | an empty first component is dropped, leaving the second as the whole path |
| ResourceSecret.MergePrefixedPath | secrethub/resource_secret_test.go:257-262 | `("myorg/db_passwords", "postgres")` joins to `myorg/db_passwords/postgres` |
| ResourceSecret.MergeAbsPath | secrethub/resource_secret_test.go:263-268 | `("", "myorg2/database/postgres")` joins to `myorg2/database/postgres` |
| ResourceSecret.MergeRedundantSlashes | secrethub/resource_secret_test.go:269-274 | `("myorg/db_passwords/", "/postgres")` joins to `myorg/db_passwords/postgres` |
| ResourceSecret.EffectivePrefix | secrethub/resource_secret.go:160-164 | the resource's `path_prefix`, or the provider's when the resource's is empty |
| ResourceSecret.SecretPathFor | secrethub/resource_secret.go:159-176 | the path is accepted exactly when the validator accepts the composed string and it has no version; a versioned path is rejected with the version error, an invalid one with the validator's error |
| ResourceSecret.SecretPathForWellFormed | secrethub/resource_secret.go:166-175 | an accepted path is valid, carries no version and has no `/` at either end |
| ResourceSecret.PrefixChoice | secrethub/resource_secret.go:160-164 | a non-empty resource prefix makes the provider prefix irrelevant; with an empty resource prefix the provider prefix acts as if the resource had set it |
| ResourceSecret.GetSecretPath | secrethub/resource_secret.go:159-176 | the prefix selection and composition give the path outcome described by `SecretPathFor` |
| ResourceSecret.SelectContent | secrethub/resource_secret.go:71-91 | the "missing data" error occurs exactly when `data` is empty and no `generate` block is given; with a block the generator's output replaces `data`, and its failure fails; otherwise `data` is used |
| ResourceSecret.GeneratedLength | secrethub/resource_secret.go:82-91 | generated contents have exactly the configured `length` |
| ResourceSecret.Create | secrethub/resource_secret.go:67-108 | failures before or at the write change nothing; a successful write appends one version, sets the ID to the path, `data` to the written contents and `version` to the new version number, and the closing Read changes nothing more |
| ResourceSecret.Read | secrethub/resource_secret.go:110-137 | contents and version are refetched only when the stored version differs from the latest; in step, nothing changes; after a successful read the stored version is the latest |
| ResourceSecret.Update | secrethub/resource_secret.go:139-141 | has exactly the effect of Create |
| ResourceSecret.Delete | secrethub/resource_secret.go:143-156 | succeeds whenever the ID is a valid secret path, whatever the remote delete returns; removes the secret unless that call fails |
| ResourceAccessRule.RuleID | secrethub/resource_access_rule.go:62 | the ID Create records: directory path, `:`, account name |
| ResourceAccessRule.ParseID | secrethub/resource_access_rule.go:119-128 | parsing succeeds exactly when the ID holds exactly one `:`, gives two `:`-free halves, and otherwise fails with the malformed-ID error |
| ResourceAccessRule.ParseRuleID | secrethub/resource_access_rule.go:119-127 | for a `:`-free directory and account, parsing `dir:account` gives `(dir, account)` |
| ResourceAccessRule.RuleIDOfParsed | secrethub/resource_access_rule.go:119-127 | whenever parsing gives `(p, a)`, `p + ":" + a` is the ID |
| ResourceAccessRule.RuleIDParses | secrethub/resource_access_rule.go:62-64 | the ID Create records parses exactly when neither directory nor account contains `:` |
| ResourceAccessRule.Create | secrethub/resource_access_rule.go:42-65 | an existing rule is refused and never overwritten; lookup errors other than rule-not-found are passed on; the ID `dir:account` is recorded only after a successful Set |
| ResourceAccessRule.Update | secrethub/resource_access_rule.go:67-81 | sets the configured permission, then reads it back; a failed Set changes nothing |
| ResourceAccessRule.Read | secrethub/resource_access_rule.go:83-107 | a malformed ID fails unchanged; rule-not-found clears the ID and succeeds; other errors fail unchanged; otherwise the stored permission becomes the remote one |
| ResourceAccessRule.Delete | secrethub/resource_access_rule.go:109-117 | removes the rule of the configured directory and account and returns the service's outcome |
| ResourceAccessRule.Import | secrethub/resource_access_rule.go:130-147 | a malformed ID fails before any field is set; otherwise `dir` and `account_name` become the two halves, and the ID is then exactly `dir:account_name` |
| ResourceDir.NotEmpty | secrethub/resource_dir.go:77 | the refusal test on the fetched tree: more than one directory or at least one secret |
| ResourceDir.NotEmptyIffHoldsEntries | secrethub/resource_dir.go:77-79 | the test "more than one directory or any secret" on the depth-1 tree holds exactly when the directory has a subdirectory or a secret |
| ResourceDir.Create | secrethub/resource_dir.go:29-43 | a failed remote create changes nothing; after a successful one the directory exists and the ID equals the path |
| ResourceDir.Read | secrethub/resource_dir.go:45-62 | a not-found error clears the ID and succeeds; any other error is returned wrapped; an existing directory changes nothing |
| ResourceDir.Delete | secrethub/resource_dir.go:64-82 | a missing directory succeeds without a removal; a non-empty one is refused with the not-empty error and left in place; otherwise the remote delete's outcome is returned |
| ResourceDir.Import | secrethub/resource_dir.go:84-98 | `path` is set to the ID exactly when the ID is a valid directory path; otherwise the validator's error is returned and nothing is set |

## Left out

- The SDK client (`client.Secrets()`, `Dirs()`, `AccessRules()`): its
  behaviour belongs to the external SDK. `Sdk.Remote` stands in for it with
  the least behaviour the rules need (a write appends a version, a tree
  lists the root and its direct entries, rules are keyed by directory and
  account); any other failure of a call is an element of `Remote.faults`.
- Sdk.Remote.faults: the set of failing calls is fixed for the whole of one
  callback, so a kind of call answers the same way each time it is made
  within it, and no other client changes the service in between. The
  outcome clauses of the Create methods rely on this: in
  `ResourceAccessRule.Create` the closing Read's `AccessRules().Get` is
  taken to succeed because the first Get succeeded past the fault check,
  whereas the Go code returns whatever that second call returns (a
  transient failure, or a rule removed concurrently, is not modelled).
- `api.NewSecretPath`, `SecretPath.HasVersion`, `api.ValidateDirPath`:
  foreign validators, kept as uninterpreted predicates in `Api.Validators`;
  their error messages are represented by one error value each.
- `randchar.NewGenerator(symbols).Generate(length)`: randomness; modelled as
  a function parameter on which only the length is relied upon
  (`HonoursLength`); its error is the single value `GenerateFailed`.
- `d.Set` errors: the schema types always match, so `d.Set` is modelled as
  never failing, including the checked call in `resourceAccessRuleRead`.
- ResourceAccessRule.ParseID: on a malformed ID the Go function also
  returns two empty strings, which every caller discards; the model returns
  only the error.
- ResourceSecret.GetSecretPath: on an error the Go function also returns
  the path it built, which its caller discards; the model returns only the
  error.
- Byte slices: secret contents are `[]byte` converted to and from `string`;
  the model keeps them as strings.
- The version comparison in Read compares an `interface{}` with the SDK's
  version number; the model compares integers, which is what it does when
  both have Go type `int`.
- The `ancestors` flag of `GetTree` and the returned `*Dir`/`*AccessRule`
  values are not modelled; only errors and tree contents matter to the code.
- Schema-level guarantees enforced by Terraform before the callbacks run
  (`ForceNew`, `ConflictsWith`, `MaxItems: 1`, `Required`) are not
  enforced; where both `data` and `generate` are present the model, like
  the code, lets `generate` win.
- The service resources (`resource_service.go`,
  `resource_service_aws.go`, `resource_service_gcp.go`), the data sources,
  provider configuration, `main.go` and schema declarations: passthroughs
  to the SDK or plugin plumbing; not part of this model.
- `data_source_secret.go` and `provider_test.go` call single-valued
  versions of `getSecretPath` and `newCompoundSecretPath`; the model
  follows the two-valued versions in `resource_secret.go`.
- Concurrency and the Terraform plugin protocol: each callback runs alone
  and synchronously.
