/** The `secrethub_dir` resource: a directory whose ID is its path. It is
    deleted only when empty, and a directory removed elsewhere is dropped
    from the state rather than reported as an error. */
module ResourceDir {
  import opened Api
  import opened Sdk

  /** The Terraform state of one directory resource. */
  class DirData {
    var id: string
    var path: string

    constructor (id: string, path: string)
      ensures this.id == id && this.path == path
    {
      this.id := id;
      this.path := path;
    }
  }

  /** The test resourceDirDelete applies to the depth-1 tree it fetched: the
      root lists itself, so more than one directory means a subdirectory. */
  predicate NotEmpty(tree: Tree) {
    |tree.dirs| > 1 || |tree.secrets| > 0
  }

  /** Whether the service holds anything directly below `path`. */
  predicate HoldsEntries(dirs: set<string>, secrets: set<string>, path: string) {
    ChildDirs(dirs, path) != {} || ChildSecrets(secrets, path) != {}
  }

  /** The refusal test counts exactly the directory's own entries: the root
      listing itself does not make a directory non-empty. */
  lemma NotEmptyIffHoldsEntries(dirs: set<string>, secrets: set<string>, path: string)
    ensures NotEmpty(TreeOf(dirs, secrets, path, 1)) <==> HoldsEntries(dirs, secrets, path)
  {
    var children := ChildDirs(dirs, path);
    assert path !in children;
    if children != {} {
      var c :| c in children;
      assert {path, c} <= {path} + children;
      assert |{path, c}| == 2;
      SubsetSize({path, c}, {path} + children);
    } else {
      assert {path} + children == {path};
    }
  }

  lemma SubsetSize<T>(a: set<T>, b: set<T>)
    requires a <= b
    ensures |a| <= |b|
  {
    assert b == a + (b - a);
  }

  /** resourceDirCreate: creates the directory, records its path as the ID
      and reads it back. */
  method Create(d: DirData, client: Remote) returns (out: Outcome)
    modifies d`id, client`dirs
    ensures DirCreate in client.faults ==>
      out == Fail(Unavailable(DirCreate)) && d.id == old(d.id) && client.dirs == old(client.dirs)
    ensures DirCreate !in client.faults && d.path in old(client.dirs) ==>
      out == Fail(DirAlreadyExists) && d.id == old(d.id) && client.dirs == old(client.dirs)
    ensures DirCreate !in client.faults && d.path !in old(client.dirs) ==>
      && client.dirs == old(client.dirs) + {d.path}
      && d.id == d.path
      && out == if DirGetTree in client.faults then Fail(FetchingDir(Unavailable(DirGetTree))) else Pass
  {
    var path := d.path;
    var created := client.CreateDir(path);
    if created.Fail? {
      return created;
    }
    d.id := path;
    out := Read(d, client);
  }

  /** resourceDirRead: a directory the service no longer has clears the ID
      without an error; any other failure is reported, wrapped. */
  method Read(d: DirData, client: Remote) returns (out: Outcome)
    modifies d`id
    ensures match client.GetTree(old(d.id), 0)
      case Err(e) =>
        if IsNotFound(e) then out == Pass && d.id == ""
        else out == Fail(FetchingDir(e)) && d.id == old(d.id)
      case Ok(_) => out == Pass && d.id == old(d.id)
    ensures d.id != old(d.id) ==> d.id == "" && old(d.id) !in client.dirs
  {
    var tree := client.GetTree(d.id, 0);
    if tree.Err? && IsNotFound(tree.error) {
      d.id := "";
      return Pass;
    }
    if tree.Err? {
      return Fail(FetchingDir(tree.error));
    }
    out := Pass;
  }

  /** resourceDirDelete: a directory already gone counts as deleted; one
      that holds a subdirectory or a secret is refused and left in place. */
  method Delete(d: DirData, client: Remote) returns (out: Outcome)
    modifies client`dirs
    ensures match old(client.GetTree(d.id, 1))
      case Err(e) =>
        out == (if IsNotFound(e) then Pass else Fail(e)) && client.dirs == old(client.dirs)
      case Ok(tree) =>
        if NotEmpty(tree) then out == Fail(DirNotEmpty(d.id)) && client.dirs == old(client.dirs)
        else if DirDelete in client.faults then
          out == Fail(Unavailable(DirDelete)) && client.dirs == old(client.dirs)
        else out == Pass && client.dirs == old(client.dirs) - {d.id}
    // a directory holding anything is never removed
    ensures HoldsEntries(old(client.dirs), client.secrets.Keys, d.id) ==> client.dirs == old(client.dirs)
    // a missing directory is not an error
    ensures d.id !in old(client.dirs) && DirGetTree !in client.faults ==> out == Pass
  {
    var path := d.id;
    var tree := client.GetTree(path, 1);
    NotEmptyIffHoldsEntries(client.dirs, client.secrets.Keys, path);
    if tree.Err? && IsNotFound(tree.error) {
      return Pass;
    }
    if tree.Err? {
      return Fail(tree.error);
    }
    if NotEmpty(tree.value) {
      return Fail(DirNotEmpty(path));
    }
    out := client.DeleteDir(path);
  }

  /** resourceDirImport: accepts an ID that is a valid directory path and
      copies it into `path`. */
  method Import(d: DirData, v: Validators) returns (r: Result<seq<DirData>>)
    modifies d`path
    ensures v.isDirPath(d.id) ==> r == Ok([d]) && d.path == d.id
    ensures !v.isDirPath(d.id) ==> r == Err(InvalidDirPath(d.id)) && d.path == old(d.path)
  {
    var path := d.id;
    if !v.isDirPath(path) {
      return Err(InvalidDirPath(path));
    }
    d.path := path;
    r := Ok([d]);
  }
}
