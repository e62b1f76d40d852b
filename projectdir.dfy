/**
 * `download_project_documents`: the project's local directory
 * `<cwd>/procore_downloads/<name with '/' replaced by '_'>` is created, then
 * the walk starts at the project's root folder with that directory as base
 * and the empty relative path.
 */
module ProjectDir {
  import opened Wrappers
  import opened Text
  import opened Paths
  import opened Remote
  import opened Walk

  /** `name.replace('/', '_')`. */
  function Sanitize(name: string): (r: string)
    ensures |r| == |name|
    ensures forall i :: 0 <= i < |name| ==> r[i] == (if name[i] == '/' then '_' else name[i])
  {
    if name == [] then []
    else [if name[0] == '/' then '_' else name[0]] + Sanitize(name[1..])
  }

  /** The folder every project is downloaded into, below the working directory. */
  const Downloads := "procore_downloads"

  /** `os.path.join(os.getcwd(), 'procore_downloads', project_name.replace('/', '_'))`. */
  function BaseDir(cwd: string, name: string): string {
    Join(Join(cwd, Downloads), Sanitize(name))
  }

  /** What downloading one project does: create its base directory, then walk its root folder. */
  function ProjectEffects(cwd: string, name: string, root: Node): seq<Effect> {
    var base := BaseDir(cwd, name);
    [MkDir(base)] + Walk.Walk(root, None, base, "")
  }

  /** The download of one project, logging its effects in order. */
  method DownloadProjectDocuments(cwd: string, name: string, root: Node, download: (string, string) -> bool)
    returns (log: seq<Effect>)
    ensures log == ProjectEffects(cwd, name, root)
  {
    var base := BaseDir(cwd, name);
    log := [MkDir(base)];
    var walked := ProcessFolder(root, None, base, "", download);
    log := log + walked;
  }

  // ---------------------------------------------------------------------------
  // Properties

  /** The sanitised name holds no '/'. */
  lemma SanitizeNoSlash(name: string)
    ensures '/' !in Sanitize(name)
  {
    var r := Sanitize(name);
    assert forall i :: 0 <= i < |r| ==> r[i] != '/';
  }

  /** A name without '/' is kept as it is, and only such a name. */
  lemma SanitizeFixed(name: string)
    ensures Sanitize(name) == name <==> '/' !in name
  {
    if '/' in name {
      var i :| 0 <= i < |name| && name[i] == '/';
      assert Sanitize(name)[i] != name[i];
    } else {
      assert forall i :: 0 <= i < |name| ==> name[i] != '/';
    }
  }

  /** Sanitising twice is sanitising once. */
  lemma SanitizeIdempotent(name: string)
    ensures Sanitize(Sanitize(name)) == Sanitize(name)
  {
    SanitizeNoSlash(name);
    SanitizeFixed(Sanitize(name));
  }

  /**
   * A project's directory is one component directly inside
   * `<cwd>/procore_downloads`: a '/' in the project name can neither reset
   * the join to an absolute path nor open a subdirectory.
   */
  lemma BaseDirInDownloads(cwd: string, name: string)
    requires name != ""
    ensures BaseDir(cwd, name) == Join(cwd, Downloads) + "/" + Sanitize(name)
    ensures PlainName(Sanitize(name))
  {
    var s := Sanitize(name);
    SanitizeNoSlash(name);
    assert s[0] != '/' by {
      assert s[0] in s;
    }
    var d := Join(cwd, Downloads);
    assert d != [] && d[|d| - 1] == 's';
  }

  /**
   * Which files the download of a project writes, from which url, to which
   * path: exactly those the walk of its root folder delivers, relative to the
   * project's base directory.
   */
  lemma ProjectDownloads(cwd: string, name: string, root: Node, u: string, p: string)
    ensures Download(u, p) in ProjectEffects(cwd, name, root) <==>
              exists names, f :: Delivers(root, BaseDir(cwd, name), "", names, f, u, p)
  {
    var base := BaseDir(cwd, name);
    assert Download(u, p) in ProjectEffects(cwd, name, root) <==> Download(u, p) in Walk.Walk(root, None, base, "");
    DownloadIff(root, None, base, "", u, p);
  }

  /**
   * Where a file lands: for plain folder names and a file name without '/',
   * the project directory followed by the folder names from the root down
   * and the file name, separated by '/'.
   */
  lemma ProjectFileLocation(cwd: string, name: string, root: Node, names: seq<string>, f: FileEntry, u: string, p: string)
    requires name != "" && PlainNames(names) && PlainName(f.name)
    requires Delivers(root, BaseDir(cwd, name), "", names, f, u, p)
    ensures Download(u, p) in ProjectEffects(cwd, name, root)
    ensures p == Join(cwd, Downloads) + "/" + Sanitize(name) + "/" + JoinWith(names + [f.name], '/')
  {
    var base := BaseDir(cwd, name);
    ProjectDownloads(cwd, name, root, u, p);
    BaseDirInDownloads(cwd, name);
    FilePathOfNames(base, names, f.name);
    var r := JoinWith(names + [f.name], '/');
    SlashedEnds(names + [f.name]);
    assert base[|base| - 1] == Sanitize(name)[|Sanitize(name)| - 1];
    assert Join(base, r) == base + "/" + r;
  }

  /** The base directory is created before anything else happens, and the root listing is fetched next. */
  lemma ProjectStart(cwd: string, name: string, root: Node)
    ensures var r := ProjectEffects(cwd, name, root);
            |r| > 1 && r[0] == MkDir(BaseDir(cwd, name)) && r[1] == Fetch("/folders")
  {
    WalkStart(root, None, BaseDir(cwd, name), "");
  }

  /** Without the replacement a project named `a/b` would be downloaded into a nested directory `a` / `b`. */
  lemma SlashNameFlattened(cwd: string)
    ensures Sanitize("a/b") == "a_b"
    ensures Join(Join(cwd, Downloads), "a/b") == Join(cwd, Downloads) + "/a/b"
  {
    var d := Join(cwd, Downloads);
    assert d != [] && d[|d| - 1] == 's';
  }
}
