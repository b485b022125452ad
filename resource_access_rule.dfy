/** The `secrethub_access_rule` resource: a permission of one account on one
    directory, identified in Terraform by the ID `<dir>:<account_name>`. */
module ResourceAccessRule {
  import opened Api
  import opened GoStrings
  import opened Sdk

  const IDSeparator: char := ':'

  /** The Terraform state of one access-rule resource. */
  class AccessRuleData {
    var id: string
    var dir: string
    var accountName: string
    var permission: string

    constructor (id: string, dir: string, accountName: string, permission: string)
      ensures this.id == id && this.dir == dir
      ensures this.accountName == accountName && this.permission == permission
    {
      this.id := id;
      this.dir := dir;
      this.accountName := accountName;
      this.permission := permission;
    }
  }

  /** The ID Create records for a rule. */
  function RuleID(path: string, account: string): string {
    path + [IDSeparator] + account
  }

  /** resourceAccessRuleParseID: the ID split on ':', which must give exactly
      two parts, the directory path and the account name. */
  function ParseID(id: string): (r: Result<(string, string)>)
    ensures r.Ok? <==> Count(id, IDSeparator) == 1
    ensures r.Err? ==> r.error == MalformedID(id)
    ensures r.Ok? ==> IDSeparator !in r.value.0 && IDSeparator !in r.value.1
  {
    var parts := Split(id, IDSeparator);
    if |parts| != 2 then Err(MalformedID(id))
    else Ok((parts[0], parts[1]))
  }

  /** Parsing undoes building, provided neither half contains ':'. */
  lemma ParseRuleID(path: string, account: string)
    requires IDSeparator !in path && IDSeparator !in account
    ensures ParseID(RuleID(path, account)) == Ok((path, account))
  {
    assert Join([path, account], IDSeparator) == RuleID(path, account);
    SplitJoin([path, account], IDSeparator);
  }

  /** Building undoes parsing: a parsed ID is rebuilt exactly. */
  lemma RuleIDOfParsed(id: string)
    requires ParseID(id).Ok?
    ensures RuleID(ParseID(id).value.0, ParseID(id).value.1) == id
  {
    var parts := Split(id, IDSeparator);
    JoinSplit(id, IDSeparator);
    assert Join(parts, IDSeparator) == parts[0] + [IDSeparator] + parts[1];
  }

  /** The ID Create records parses back exactly when neither half contains ':'. */
  lemma RuleIDParses(path: string, account: string)
    ensures ParseID(RuleID(path, account)).Ok? <==> IDSeparator !in path && IDSeparator !in account
  {
    if IDSeparator !in path && IDSeparator !in account {
      ParseRuleID(path, account);
    } else {
      var id := RuleID(path, account);
      var parts := Split(id, IDSeparator);
      if |parts| == 2 {
        RuleIDOfParsed(id);
        ParseHalves(path, account, parts[0], parts[1]);
      }
    }
  }

  /** If an ID also reads as `p:a` with no ':' in `p` or `a`, its only ':'
      is the one between `p` and `a`, so `path` and `account` hold none. */
  lemma ParseHalves(path: string, account: string, p: string, a: string)
    requires RuleID(p, a) == RuleID(path, account)
    requires IDSeparator !in p && IDSeparator !in a
    ensures IDSeparator !in path && IDSeparator !in account
  {
    var id := RuleID(path, account);
    assert forall i :: 0 <= i < |p| ==> id[i] == p[i];
    assert forall i :: 0 <= i < |a| ==> id[|p| + 1 + i] == a[i];
    assert forall i :: 0 <= i < |path| ==> id[i] == path[i];
    assert forall i :: 0 <= i < |account| ==> id[|path| + 1 + i] == account[i];
    assert id[|path|] == IDSeparator;
  }

  /** resourceAccessRuleCreate: refuses a rule that already exists, passes
      on any lookup error but "rule not found", and records the ID only once
      the rule has been set; the closing Read then confirms the permission. */
  method Create(d: AccessRuleData, client: Remote) returns (out: Outcome)
    modifies d`id, d`permission, client`rules
    ensures match old(client.GetRule(d.dir, d.accountName))
      case Ok(_) =>
        out == Fail(AccessRuleExists(d.dir, d.accountName))
        && d.id == old(d.id) && d.permission == old(d.permission) && client.rules == old(client.rules)
      case Err(e) =>
        if e != AccessRuleNotFound || RuleSet in client.faults then
          out == Fail(if e != AccessRuleNotFound then e else Unavailable(RuleSet))
          && d.id == old(d.id) && d.permission == old(d.permission) && client.rules == old(client.rules)
        else
          && client.rules == old(client.rules)[(d.dir, d.accountName) := old(d.permission)]
          && d.id == RuleID(d.dir, d.accountName)
          && d.permission == old(d.permission)
          && out == if ParseID(d.id).Ok? then Pass else Fail(MalformedID(d.id))
    // an existing rule is never overwritten
    ensures old(client.GetRule(d.dir, d.accountName)).Ok? ==> client.rules == old(client.rules)
    // the ID changes only together with a successful Set
    ensures d.id != old(d.id) ==>
      client.rules == old(client.rules)[(d.dir, d.accountName) := old(d.permission)]
  {
    var path, permission, account := d.dir, d.permission, d.accountName;
    var existing := client.GetRule(path, account);
    if existing.Ok? {
      return Fail(AccessRuleExists(path, account));
    } else if existing.error != AccessRuleNotFound {
      return Fail(existing.error);
    }
    var written := client.SetRule(path, permission, account);
    if written.Fail? {
      return Fail(written.error);
    }
    d.id := RuleID(path, account);
    RuleIDParses(path, account);
    if ParseID(d.id).Ok? {
      ParseRuleID(path, account);
    }
    out := Read(d, client);
  }

  /** resourceAccessRuleUpdate: sets the permission again and reads it back. */
  method Update(d: AccessRuleData, client: Remote) returns (out: Outcome)
    modifies d`id, d`permission, client`rules
    ensures client.rules ==
      if RuleSet !in client.faults && d.dir in client.dirs
      then old(client.rules)[(d.dir, d.accountName) := old(d.permission)]
      else old(client.rules)
    ensures RuleSet in client.faults ==> out == Fail(Unavailable(RuleSet)) && d.id == old(d.id) && d.permission == old(d.permission)
    ensures RuleSet !in client.faults && d.dir !in client.dirs ==>
      out == Fail(DirNotFound) && d.id == old(d.id) && d.permission == old(d.permission)
    ensures RuleSet !in client.faults && d.dir in client.dirs ==> ReadDone(d, client, out)
  {
    var written := client.SetRule(d.dir, d.permission, d.accountName);
    if written.Fail? {
      return Fail(written.error);
    }
    out := Read(d, client);
  }

  /** What Read does, given the state it starts from and the service. */
  twostate predicate ReadDone(d: AccessRuleData, client: Remote, out: Outcome)
    reads d, client
  {
    match ParseID(old(d.id))
    case Err(e) => out == Fail(e) && d.id == old(d.id) && d.permission == old(d.permission)
    case Ok((path, account)) =>
      match client.GetRule(path, account)
      case Err(AccessRuleNotFound) => out == Pass && d.id == "" && d.permission == old(d.permission)
      case Err(e) => out == Fail(e) && d.id == old(d.id) && d.permission == old(d.permission)
      case Ok(permission) => out == Pass && d.id == old(d.id) && d.permission == permission
  }

  /** resourceAccessRuleRead: a rule deleted elsewhere clears the ID without
      an error; an existing one refreshes the permission. */
  method Read(d: AccessRuleData, client: Remote) returns (out: Outcome)
    modifies d`id, d`permission
    ensures ReadDone(d, client, out)
    ensures out == Pass && d.id != "" ==>
      ParseID(d.id).Ok? && client.GetRule(ParseID(d.id).value.0, ParseID(d.id).value.1) == Ok(d.permission)
  {
    var parsed := ParseID(d.id);
    if parsed.Err? {
      return Fail(parsed.error);
    }
    var (path, account) := parsed.value;
    var rule := client.GetRule(path, account);
    if rule == Err(AccessRuleNotFound) {
      d.id := "";
      return Pass;
    }
    if rule.Err? {
      return Fail(rule.error);
    }
    d.permission := rule.value;
    out := Pass;
  }

  /** resourceAccessRuleDelete: removes the rule named by the configured
      directory and account, not by the ID. */
  method Delete(d: AccessRuleData, client: Remote) returns (out: Outcome)
    modifies client`rules
    ensures out == if RuleDelete in client.faults then Fail(Unavailable(RuleDelete))
                   else if (d.dir, d.accountName) !in old(client.rules) then Fail(AccessRuleNotFound)
                   else Pass
    ensures client.rules == if out.Pass? then old(client.rules) - {(d.dir, d.accountName)} else old(client.rules)
  {
    out := client.DeleteRule(d.dir, d.accountName);
  }

  /** resourceAccessRuleImport: fills in directory and account from the ID,
      after which the ID is exactly the one Create would have recorded. */
  method Import(d: AccessRuleData) returns (r: Result<seq<AccessRuleData>>)
    modifies d`dir, d`accountName
    ensures match ParseID(d.id)
      case Err(e) => r == Err(e) && d.dir == old(d.dir) && d.accountName == old(d.accountName)
      case Ok((path, account)) => r == Ok([d]) && d.dir == path && d.accountName == account
    ensures r.Ok? ==> RuleID(d.dir, d.accountName) == d.id
  {
    var parsed := ParseID(d.id);
    if parsed.Err? {
      return Err(parsed.error);
    }
    RuleIDOfParsed(d.id);
    d.dir := parsed.value.0;
    d.accountName := parsed.value.1;
    r := Ok([d]);
  }
}
