/** An abstract model of the secrets service as the SDK client presents it:
    the set of directories, the version history of every secret, the access
    rules, and the set of calls that currently fail (a network or
    authorisation failure the provider can only pass on). Read-only calls
    are functions of the state; calls that change the service are methods. */
module Sdk {
  import opened Api

  /** One version of a secret, as Versions().GetWithData returns it. */
  datatype SecretVersion = SecretVersion(data: string, version: int)

  /** What Dirs().GetTree returns: the directories and secrets it lists. */
  datatype Tree = Tree(dirs: set<string>, secrets: set<string>)

  /** `c` sits directly below directory `p`: it is `p`, a '/', and one more
      name without '/'. */
  predicate IsChild(c: string, p: string) {
    |c| > |p| + 1 && c[..|p|] == p && c[|p|] == '/' && '/' !in c[|p| + 1..]
  }

  /** The directories directly below `root`. */
  function ChildDirs(dirs: set<string>, root: string): set<string> {
    set c | c in dirs && IsChild(c, root)
  }

  /** The secrets directly below `root`. */
  function ChildSecrets(secrets: set<string>, root: string): set<string> {
    set c | c in secrets && IsChild(c, root)
  }

  /** The tree of `root` down to `depth` levels: the root directory always
      lists itself, and each level below adds the entries it holds. */
  function TreeOf(dirs: set<string>, secrets: set<string>, root: string, depth: nat): Tree {
    if depth == 0 then Tree({root}, {})
    else Tree({root} + ChildDirs(dirs, root), ChildSecrets(secrets, root))
  }

  class Remote {
    var dirs: set<string>
    /** For every secret path, its versions; version n holds secrets[p][n - 1]. */
    var secrets: map<string, seq<string>>
    /** The permission held by an account on a directory, keyed by (dir, account). */
    var rules: map<(string, string), string>
    /** The calls that fail with Unavailable instead of doing their work. */
    var faults: set<Call>

    constructor (dirs: set<string>, secrets: map<string, seq<string>>,
                 rules: map<(string, string), string>, faults: set<Call>)
      ensures this.dirs == dirs && this.secrets == secrets
      ensures this.rules == rules && this.faults == faults
    {
      this.dirs := dirs;
      this.secrets := secrets;
      this.rules := rules;
      this.faults := faults;
    }

    /** The versions written to `path` so far (none if it was never written). */
    function Versions(path: string): seq<string>
      reads this
    {
      if path in secrets then secrets[path] else []
    }

    /** Secrets().Get: the latest version number of the secret. */
    function GetSecret(path: string): Result<int>
      reads this
    {
      if SecretGet in faults then Err(Unavailable(SecretGet))
      else if path !in secrets then Err(SecretNotFound)
      else Ok(|secrets[path]|)
    }

    /** Secrets().Versions().GetWithData: the latest version with its data. */
    function GetSecretWithData(path: string): Result<SecretVersion>
      reads this
    {
      if SecretGetWithData in faults then Err(Unavailable(SecretGetWithData))
      else if path !in secrets || secrets[path] == [] then Err(SecretNotFound)
      else Ok(SecretVersion(secrets[path][|secrets[path]| - 1], |secrets[path]|))
    }

    /** Secrets().Write: appends a new version and returns its number. */
    method WriteSecret(path: string, data: string) returns (r: Result<int>)
      modifies this`secrets
      ensures SecretWrite in faults ==> r == Err(Unavailable(SecretWrite)) && secrets == old(secrets)
      ensures SecretWrite !in faults ==>
        secrets == old(secrets)[path := old(Versions(path)) + [data]] && r == Ok(|secrets[path]|)
    {
      if SecretWrite in faults {
        r := Err(Unavailable(SecretWrite));
      } else {
        secrets := secrets[path := Versions(path) + [data]];
        r := Ok(|secrets[path]|);
      }
    }

    /** Secrets().Delete: removes the secret with all its versions. */
    method DeleteSecret(path: string) returns (r: Outcome)
      modifies this`secrets
      ensures r.Fail? ==> secrets == old(secrets)
      ensures r == if SecretDelete in faults then Fail(Unavailable(SecretDelete))
                   else if path !in old(secrets) then Fail(SecretNotFound)
                   else Pass
      ensures r.Pass? ==> secrets == old(secrets) - {path}
    {
      if SecretDelete in faults {
        r := Fail(Unavailable(SecretDelete));
      } else if path !in secrets {
        r := Fail(SecretNotFound);
      } else {
        secrets := secrets - {path};
        r := Pass;
      }
    }

    /** Dirs().Create: adds a directory that does not exist yet. */
    method CreateDir(path: string) returns (r: Outcome)
      modifies this`dirs
      ensures r == if DirCreate in faults then Fail(Unavailable(DirCreate))
                   else if path in old(dirs) then Fail(DirAlreadyExists)
                   else Pass
      ensures dirs == if r.Pass? then old(dirs) + {path} else old(dirs)
    {
      if DirCreate in faults {
        r := Fail(Unavailable(DirCreate));
      } else if path in dirs {
        r := Fail(DirAlreadyExists);
      } else {
        dirs := dirs + {path};
        r := Pass;
      }
    }

    /** Dirs().GetTree: the tree of an existing directory. */
    function GetTree(path: string, depth: nat): Result<Tree>
      reads this
    {
      if DirGetTree in faults then Err(Unavailable(DirGetTree))
      else if path !in dirs then Err(DirNotFound)
      else Ok(TreeOf(dirs, secrets.Keys, path, depth))
    }

    /** Dirs().Delete: removes an existing directory. */
    method DeleteDir(path: string) returns (r: Outcome)
      modifies this`dirs
      ensures r == if DirDelete in faults then Fail(Unavailable(DirDelete))
                   else if path !in old(dirs) then Fail(DirNotFound)
                   else Pass
      ensures dirs == if r.Pass? then old(dirs) - {path} else old(dirs)
    {
      if DirDelete in faults {
        r := Fail(Unavailable(DirDelete));
      } else if path !in dirs {
        r := Fail(DirNotFound);
      } else {
        dirs := dirs - {path};
        r := Pass;
      }
    }

    /** AccessRules().Get: the permission of an account on a directory. A
        missing directory is reported as such, not as a missing rule. */
    function GetRule(path: string, account: string): Result<string>
      reads this
    {
      if RuleGet in faults then Err(Unavailable(RuleGet))
      else if path !in dirs then Err(DirNotFound)
      else if (path, account) !in rules then Err(AccessRuleNotFound)
      else Ok(rules[(path, account)])
    }

    /** AccessRules().Set: creates or replaces a rule on an existing directory. */
    method SetRule(path: string, permission: string, account: string) returns (r: Outcome)
      modifies this`rules
      ensures r == if RuleSet in faults then Fail(Unavailable(RuleSet))
                   else if path !in dirs then Fail(DirNotFound)
                   else Pass
      ensures rules == if r.Pass? then old(rules)[(path, account) := permission] else old(rules)
    {
      if RuleSet in faults {
        r := Fail(Unavailable(RuleSet));
      } else if path !in dirs {
        r := Fail(DirNotFound);
      } else {
        rules := rules[(path, account) := permission];
        r := Pass;
      }
    }

    /** AccessRules().Delete: removes an existing rule. */
    method DeleteRule(path: string, account: string) returns (r: Outcome)
      modifies this`rules
      ensures r == if RuleDelete in faults then Fail(Unavailable(RuleDelete))
                   else if (path, account) !in old(rules) then Fail(AccessRuleNotFound)
                   else Pass
      ensures rules == if r.Pass? then old(rules) - {(path, account)} else old(rules)
    {
      if RuleDelete in faults {
        r := Fail(Unavailable(RuleDelete));
      } else if (path, account) !in rules {
        r := Fail(AccessRuleNotFound);
      } else {
        rules := rules - {(path, account)};
        r := Pass;
      }
    }
  }
}
