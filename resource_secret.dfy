/** The `secrethub_secret` resource: how a secret's full path is composed
    from the prefixes and the configured path, how its contents are chosen
    between `data` and `generate`, how a write is recorded in the resource
    state, and how a read detects a version written elsewhere. */
module ResourceSecret {
  import opened Api
  import opened GoStrings
  import opened Sdk

  const PathSeparator: char := '/'

  /** One `generate` block of the configuration. */
  datatype GenerateSettings = GenerateSettings(length: int, symbols: bool)

  /** The provider-wide settings a secret resource consults. */
  datatype Provider = Provider(pathPrefix: string)

  /** The random generator, randchar.NewGenerator(symbols).Generate(length):
      some string, or a failure. */
  type Generator = (bool, int) -> Option<string>

  /** All the generator is relied upon for: a string of the requested length. */
  ghost predicate HonoursLength(random: Generator) {
    forall symbols, n :: random(symbols, n).Some? ==> |random(symbols, n).value| == n
  }

  /** The Terraform state of one secret resource. */
  class SecretData {
    var id: string
    var path: string
    var pathPrefix: string
    var data: string
    var generate: seq<GenerateSettings>
    var version: int

    constructor (path: string, pathPrefix: string, data: string, generate: seq<GenerateSettings>)
      ensures this.path == path && this.pathPrefix == pathPrefix
      ensures this.data == data && this.generate == generate
      ensures id == "" && version == 0
    {
      this.path := path;
      this.pathPrefix := pathPrefix;
      this.data := data;
      this.generate := generate;
      id := "";
      version := 0;
    }
  }

  // ---------------------------------------------------------------------
  // Path composition

  /** A path component as it is joined: non-empty, no '/' at either end. */
  predicate Clean(s: string) {
    s != [] && s[0] != PathSeparator && s[|s| - 1] != PathSeparator
  }

  /** What one component contributes: itself trimmed of '/' at both ends,
      or nothing when that leaves it empty. */
  function KeptOne(c: string): seq<string> {
    var t := Trim(c, PathSeparator);
    if t == "" then [] else [t]
  }

  /** The components newCompoundSecretPath keeps, in order: each one trimmed
      of '/' at both ends, the ones left empty dropped. */
  function Kept(components: seq<string>): (r: seq<string>)
    ensures |r| <= |components|
  {
    if components == [] then []
    else Kept(components[..|components| - 1]) + KeptOne(components[|components| - 1])
  }

  /** The string newCompoundSecretPath hands to the path validator. */
  function CompoundPath(components: seq<string>): string {
    Join(Kept(components), PathSeparator)
  }

  /** newCompoundSecretPath: trims and joins the components, then validates
      the joined string as a secret path. */
  method NewCompoundSecretPath(components: seq<string>, v: Validators) returns (r: Result<string>)
    ensures r == NewSecretPath(CompoundPath(components), v)
  {
    var processed: seq<string> := [];
    var i := 0;
    while i < |components|
      invariant 0 <= i <= |components|
      invariant processed == Kept(components[..i])
    {
      var trimmed := Trim(components[i], PathSeparator);
      if trimmed != "" {
        processed := processed + [trimmed];
      }
      assert components[..i + 1][..i] == components[..i];
      assert Kept(components[..i + 1]) == Kept(components[..i]) + KeptOne(components[i]);
      i := i + 1;
    }
    assert components[..i] == components;
    var joined := Join(processed, PathSeparator);
    r := NewSecretPath(joined, v);
  }

  /** Components are processed one by one and independently: the components
      kept from a concatenation are those kept from either half, in order. */
  lemma {:induction false} KeptConcat(a: seq<string>, b: seq<string>)
    ensures Kept(a + b) == Kept(a) + Kept(b)
  {
    if b == [] {
      assert a + b == a;
    } else {
      var front, last := b[..|b| - 1], b[|b| - 1];
      assert b == front + [last];
      assert a + b == (a + front) + [last];
      calc {
        Kept(a + b);
        == { KeptSnoc(a + front, last); }
        Kept(a + front) + KeptOne(last);
        == { KeptConcat(a, front); }
        Kept(a) + Kept(front) + KeptOne(last);
        == { KeptSnoc(front, last); }
        Kept(a) + Kept(b);
      }
    }
  }

  /** Appending one component appends its contribution. */
  lemma KeptSnoc(components: seq<string>, c: string)
    ensures Kept(components + [c]) == Kept(components) + KeptOne(c)
  {
    var cs := components + [c];
    assert cs[..|cs| - 1] == components;
  }

  /** A single component is kept, trimmed, unless it is empty or made of '/'
      only, in which case it is dropped. */
  lemma KeptSingle(c: string)
    ensures Kept([c]) == [] <==> forall k :: 0 <= k < |c| ==> c[k] == PathSeparator
    ensures Kept([c]) != [] ==> Kept([c]) == [Trim(c, PathSeparator)]
  {
    assert [c][..0] == [];
    TrimEmpty(c, PathSeparator);
  }

  /** A component contributes at most one string, and that one is clean. */
  lemma KeptOneClean(c: string)
    ensures |KeptOne(c)| <= 1
    ensures KeptOne(c) != [] ==> Clean(KeptOne(c)[0])
  {
    TrimEnds(c, PathSeparator);
  }

  /** Every kept component is non-empty and has no '/' at either end. */
  lemma {:induction false} KeptClean(components: seq<string>)
    ensures forall k :: 0 <= k < |Kept(components)| ==> Clean(Kept(components)[k])
  {
    if components != [] {
      var front, last := components[..|components| - 1], components[|components| - 1];
      var kept, before, one := Kept(components), Kept(front), KeptOne(last);
      assert kept == before + one;
      KeptClean(front);
      KeptOneClean(last);
      forall k | 0 <= k < |kept|
        ensures Clean(kept[k])
      {
        if k < |before| {
          assert kept[k] == before[k];
        } else {
          assert kept[k] == one[0];
        }
      }
    }
  }

  /** The composed path is empty or neither starts nor ends with '/'. */
  lemma CompoundPathClean(components: seq<string>)
    ensures var p := CompoundPath(components);
      p != [] ==> p[0] != PathSeparator && p[|p| - 1] != PathSeparator
  {
    var kept := Kept(components);
    if kept != [] {
      KeptClean(components);
      JoinEnds(kept, PathSeparator);
    }
  }

  /** Feeding a composed path back in as the only component returns it
      unchanged. */
  lemma CompoundPathIdempotent(components: seq<string>)
    ensures CompoundPath([CompoundPath(components)]) == CompoundPath(components)
  {
    var p := CompoundPath(components);
    CompoundPathClean(components);
    TrimUntouched(p, PathSeparator);
    assert [p][..0] == [];
  }

  /** Two components contribute independently. */
  lemma KeptPair(a: string, b: string)
    ensures Kept([a, b]) == KeptOne(a) + KeptOne(b)
  {
    assert [a, b][..1] == [a];
    assert [a][..0] == [];
  }

  /** The composed path of what two components contribute. */
  lemma CompoundPathOfPair(a: string, b: string, x: string, y: string)
    requires KeptOne(a) == [x] && KeptOne(b) == [y]
    ensures CompoundPath([a, b]) == x + [PathSeparator] + y
  {
    KeptPair(a, b);
    var parts := Kept([a, b]);
    assert parts == [x, y];
    assert parts[1..] == [y];
    assert Join(parts, PathSeparator) == x + [PathSeparator] + Join([y], PathSeparator);
  }

  /** Two clean components join as `x/y`. */
  lemma CompoundPathOfTwo(x: string, y: string)
    requires Clean(x) && Clean(y)
    ensures CompoundPath([x, y]) == x + [PathSeparator] + y
  {
    TrimUntouched(x, PathSeparator);
    TrimUntouched(y, PathSeparator);
    CompoundPathOfPair(x, y, x, y);
  }

  /** A clean component with a redundant '/' at its end or its start. */
  lemma CompoundPathOfPadded(a: string, b: string, x: string, y: string)
    requires Clean(x) && Clean(y)
    requires a == x + [PathSeparator] && b == [PathSeparator] + y
    ensures CompoundPath([a, b]) == x + [PathSeparator] + y
  {
    assert TrimLeft(a, PathSeparator) == a;
    assert a[..|a| - 1] == x;
    assert TrimRight(x, PathSeparator) == x;
    assert b[1..] == y;
    TrimUntouched(y, PathSeparator);
    CompoundPathOfPair(a, b, x, y);
  }

  /** An empty component is dropped before a clean one. */
  lemma CompoundPathOfEmptyFirst(x: string)
    requires Clean(x)
    ensures CompoundPath(["", x]) == x
  {
    TrimUntouched(x, PathSeparator);
    KeptPair("", x);
  }

  // The table-test cases take their literal inputs as parameters pinned by
  // `requires`: spelled inside the lemma, the literals make the verifier
  // unroll Trim and Kept character by character.

  /** The path-joining table test, case "prefixed path". */
  lemma MergePrefixedPath(prefix: string, path: string)
    requires prefix == "myorg/db_passwords" && path == "postgres"
    ensures CompoundPath([prefix, path]) == "myorg/db_passwords/postgres"
  {
    CompoundPathOfTwo(prefix, path);
  }

  /** The path-joining table test, case "abs path". */
  lemma MergeAbsPath(path: string)
    requires path == "myorg2/database/postgres"
    ensures CompoundPath(["", path]) == "myorg2/database/postgres"
  {
    CompoundPathOfEmptyFirst(path);
  }

  /** The path-joining table test, case "path with redundant slashes". */
  lemma MergeRedundantSlashes(prefix: string, path: string)
    requires prefix == "myorg/db_passwords/" && path == "/postgres"
    ensures CompoundPath([prefix, path]) == "myorg/db_passwords/postgres"
  {
    CompoundPathOfPadded(prefix, path, "myorg/db_passwords", "postgres");
  }

  /** The prefix getSecretPath uses: the resource's own, else the provider's. */
  function EffectivePrefix(resourcePrefix: string, providerPrefix: string): string {
    if resourcePrefix == "" then providerPrefix else resourcePrefix
  }

  /** The outcome of getSecretPath: the composed path, rejected when the
      validator refuses it or when it names a version. */
  function SecretPathFor(resourcePrefix: string, providerPrefix: string, path: string, v: Validators): (r: Result<string>)
    ensures var p := CompoundPath([EffectivePrefix(resourcePrefix, providerPrefix), path]);
      && (r.Ok? <==> v.isSecretPath(p) && !v.hasVersion(p))
      && (r.Ok? ==> r.value == p)
      && (v.isSecretPath(p) && v.hasVersion(p) ==> r == Err(PathHasVersion(p)))
      && (!v.isSecretPath(p) ==> r == Err(InvalidSecretPath(p)))
  {
    var prefix := EffectivePrefix(resourcePrefix, providerPrefix);
    match NewSecretPath(CompoundPath([prefix, path]), v)
    case Err(e) => Err(e)
    case Ok(p) => if v.hasVersion(p) then Err(PathHasVersion(p)) else Ok(p)
  }

  /** An accepted path passes the validator, carries no version and has no
      '/' at either end. */
  lemma SecretPathForWellFormed(resourcePrefix: string, providerPrefix: string, path: string, v: Validators)
    ensures var r := SecretPathFor(resourcePrefix, providerPrefix, path, v);
      r.Ok? ==>
        && v.isSecretPath(r.value) && !v.hasVersion(r.value)
        && (r.value != [] ==> r.value[0] != PathSeparator && r.value[|r.value| - 1] != PathSeparator)
  {
    CompoundPathClean([EffectivePrefix(resourcePrefix, providerPrefix), path]);
  }

  /** The provider's prefix matters only when the resource sets none; then it
      acts exactly as if the resource had set it. */
  lemma PrefixChoice(resourcePrefix: string, providerPrefix: string, otherPrefix: string, path: string, v: Validators)
    ensures resourcePrefix != "" ==>
      SecretPathFor(resourcePrefix, providerPrefix, path, v) == SecretPathFor(resourcePrefix, otherPrefix, path, v)
    ensures providerPrefix != "" ==>
      SecretPathFor("", providerPrefix, path, v) == SecretPathFor(providerPrefix, otherPrefix, path, v)
  {
  }

  /** getSecretPath. */
  method GetSecretPath(resourcePrefix: string, provider: Provider, path: string, v: Validators) returns (r: Result<string>)
    ensures r == SecretPathFor(resourcePrefix, provider.pathPrefix, path, v)
  {
    var prefix := resourcePrefix;
    if prefix == "" {
      prefix := provider.pathPrefix;
    }
    r := NewCompoundSecretPath([prefix, path], v);
    if r.Ok? && v.hasVersion(r.value) {
      r := Err(PathHasVersion(r.value));
    }
  }

  // ---------------------------------------------------------------------
  // Contents

  /** The contents Create writes: the generator's output when a `generate`
      block is given, the configured `data` otherwise, and an error when
      neither is given or the generator fails. */
  function SelectContent(data: string, generate: seq<GenerateSettings>, random: Generator): (r: Result<string>)
    ensures r == Err(MissingContent) <==> data == "" && generate == []
    ensures generate != [] ==>
      var g := random(generate[0].symbols, generate[0].length);
      (r.Ok? <==> g.Some?) && (r.Ok? ==> r.value == g.value)
    ensures generate == [] && data != "" ==> r == Ok(data)
  {
    if data == "" && generate == [] then Err(MissingContent)
    else if generate != [] then
      match random(generate[0].symbols, generate[0].length)
      case None => Err(GenerateFailed)
      case Some(s) => Ok(s)
    else Ok(data)
  }

  /** Generated contents have exactly the requested length. */
  lemma GeneratedLength(data: string, generate: seq<GenerateSettings>, random: Generator)
    requires HonoursLength(random)
    requires generate != []
    ensures var r := SelectContent(data, generate, random);
      r.Ok? ==> |r.value| == generate[0].length
  {
    var g := random(generate[0].symbols, generate[0].length);
    assert g.Some? ==> |g.value| == generate[0].length;
  }

  // ---------------------------------------------------------------------
  // Lifecycle

  /** The effect of Create (and of Update, which is Create): the contents and
      path are settled before the service is touched; a failure up to and
      including the write leaves state and service as they were; a
      successful write appends a version, records path, contents and the new
      version number in the state, and the closing Read finds nothing to
      refresh. */
  twostate predicate Created(d: SecretData, provider: Provider, client: Remote, v: Validators, random: Generator, out: Outcome)
    reads d, client
  {
    var content := SelectContent(old(d.data), old(d.generate), random);
    var path := SecretPathFor(old(d.pathPrefix), provider.pathPrefix, old(d.path), v);
    var failed := content.Err? || path.Err? || SecretWrite in client.faults;
    if failed then
      && out == Fail(if content.Err? then content.error
                     else if path.Err? then path.error
                     else Unavailable(SecretWrite))
      && d.id == old(d.id) && d.data == old(d.data) && d.version == old(d.version)
      && client.secrets == old(client.secrets)
    else
      var versions := old(client.Versions(path.value)) + [content.value];
      && client.secrets == old(client.secrets)[path.value := versions]
      && d.id == path.value && d.data == content.value && d.version == |versions|
      && out == if SecretGet in client.faults then Fail(Unavailable(SecretGet)) else Pass
  }

  /** resourceSecretCreate. */
  method Create(d: SecretData, provider: Provider, client: Remote, v: Validators, random: Generator) returns (out: Outcome)
    modifies d`id, d`data, d`version, client`secrets
    ensures Created(d, provider, client, v, random, out)
  {
    if d.data == "" && |d.generate| == 0 {
      return Fail(MissingContent);
    }
    var data := d.data;
    if |d.generate| > 0 {
      var settings := d.generate[0];
      var generated := random(settings.symbols, settings.length);
      if generated.None? {
        return Fail(GenerateFailed);
      }
      data := generated.value;
    }
    var path := GetSecretPath(d.pathPrefix, provider, d.path, v);
    if path.Err? {
      return Fail(path.error);
    }
    var res := client.WriteSecret(path.value, data);
    if res.Err? {
      return Fail(res.error);
    }
    d.id := path.value;
    d.data := data;
    d.version := res.value;
    out := Read(d, client, v);
  }

  /** resourceSecretRead: the stored version is compared with the service's
      latest; only when they differ are contents and version fetched again. */
  method Read(d: SecretData, client: Remote, v: Validators) returns (out: Outcome)
    modifies d`data, d`version
    ensures !v.isSecretPath(d.id) ==>
      out == Fail(InvalidSecretPath(d.id)) && d.data == old(d.data) && d.version == old(d.version)
    ensures v.isSecretPath(d.id) && client.GetSecret(d.id).Err? ==>
      out == Fail(client.GetSecret(d.id).error) && d.data == old(d.data) && d.version == old(d.version)
    // in step with the service: nothing changes
    ensures v.isSecretPath(d.id) && client.GetSecret(d.id) == Ok(old(d.version)) ==>
      out == Pass && d.data == old(d.data) && d.version == old(d.version)
    // drifted: the latest version replaces contents and version
    ensures v.isSecretPath(d.id) && client.GetSecret(d.id).Ok? && client.GetSecret(d.id).value != old(d.version) ==>
      match client.GetSecretWithData(d.id)
      case Err(e) => out == Fail(e) && d.data == old(d.data) && d.version == old(d.version)
      case Ok(latest) => out == Pass && d.data == latest.data && d.version == latest.version
    // after a successful read the state holds the service's latest version
    ensures out == Pass ==> client.GetSecret(d.id) == Ok(d.version)
  {
    var path := NewSecretPath(d.id, v);
    if path.Err? {
      return Fail(path.error);
    }
    var remote := client.GetSecret(path.value);
    if remote.Err? {
      return Fail(remote.error);
    }
    if d.version != remote.value {
      var updated := client.GetSecretWithData(path.value);
      if updated.Err? {
        return Fail(updated.error);
      }
      d.data := updated.value.data;
      d.version := updated.value.version;
    }
    out := Pass;
  }

  /** resourceSecretUpdate: the same as Create. */
  method Update(d: SecretData, provider: Provider, client: Remote, v: Validators, random: Generator) returns (out: Outcome)
    modifies d`id, d`data, d`version, client`secrets
    ensures Created(d, provider, client, v, random, out)
  {
    out := Create(d, provider, client, v, random);
  }

  /** resourceSecretDelete: the error of the remote delete is discarded, so
      the outcome depends only on whether the ID is a valid secret path. */
  method Delete(d: SecretData, client: Remote, v: Validators) returns (out: Outcome)
    modifies client`secrets
    ensures out == if v.isSecretPath(d.id) then Pass else Fail(InvalidSecretPath(d.id))
    ensures client.secrets ==
      if v.isSecretPath(d.id) && SecretDelete !in client.faults then old(client.secrets) - {d.id}
      else old(client.secrets)
  {
    var path := NewSecretPath(d.id, v);
    if path.Err? {
      return Fail(path.error);
    }
    var _ := client.DeleteSecret(path.value);
    out := Pass;
  }
}
