/**
 * The recursive folder walk of `process_folder`. The network is replaced by the
 * document tree of module Remote and the walk's side effects by the ordered
 * log of what it does: listing requests, directory creations and file
 * downloads. `Walk` is the specification; `ProcessFolder` is the loop-based
 * procedure of the source, proved to produce exactly `Walk`'s log.
 */
module Walk {
  import opened Wrappers
  import opened Text
  import opened Remote
  import opened Paths

  datatype Effect =
    | Fetch(endpoint: string)               // GET of a folder listing, relative to the API base url
    | MkDir(path: string)                   // os.makedirs(path, exist_ok=True)
    | Download(url: string, path: string)   // download_file(url, path)

  /**
   * The listing endpoint: `/folders/{folder_id}` for a truthy id, `/folders`
   * (the project's root folder) for `None` and, since 0 is falsy, for id 0.
   */
  function Endpoint(id: Option<nat>): string {
    if id.Some? && id.value != 0 then "/folders/" + Dec(id.value) else "/folders"
  }

  /** The root endpoint is requested exactly for a missing or zero id; any other id can be read back from its endpoint. */
  lemma EndpointNamesFolder(id: Option<nat>)
    ensures Endpoint(id) == "/folders" <==> (id.None? || id.value == 0)
    ensures id.Some? && id.value != 0 ==>
              var e := Endpoint(id);
              |e| > 9 && e[..9] == "/folders/" && ParseDigits(e[9..]) == Some(id.value)
  {
    if id.Some? && id.value != 0 {
      var e := Endpoint(id);
      assert e[9..] == Dec(id.value);
      assert e[..9] == "/folders/";
    }
  }

  /** A subfolder the walk neither creates nor enters. */
  predicate Pruned(e: FolderEntry) {
    e.isDeleted || e.isRecycleBin
  }

  function Width(n: Node): nat {
    if n.Listing? then |n.folders| + 1 else 0
  }

  // ---------------------------------------------------------------------------
  // The specification of the walk

  /**
   * Everything `process_folder(id, ..., base, rel)` does on the tree `n`: fetch
   * the listing; on failure nothing more; otherwise the files' downloads, then
   * the subfolders one after the other, depth first.
   */
  function Walk(n: Node, id: Option<nat>, base: string, rel: string): seq<Effect>
    decreases n, Width(n)
  {
    [Fetch(Endpoint(id))] +
    match n
    case FetchFailed => []
    case Listing(files, folders) => FileEffects(files, base, rel) + Segment(n, 0, |folders|, base, rel)
  }

  /** One file entry: its download, or nothing when it is skipped. */
  function FileEffect(f: FileEntry, base: string, rel: string): seq<Effect> {
    match DownloadUrl(f)
    case None => []
    case Some(u) => [Download(u, FilePath(base, rel, f.name))]
  }

  /** The downloads of a folder's files, in listing order: at most one per entry, and nothing but downloads. */
  function FileEffects(fs: seq<FileEntry>, base: string, rel: string): (r: seq<Effect>)
    ensures |r| <= |fs|
    ensures forall i :: 0 <= i < |r| ==> r[i].Download?
  {
    if fs == [] then [] else FileEffects(fs[..|fs| - 1], base, rel) + FileEffect(fs[|fs| - 1], base, rel)
  }

  /** The effects of the subfolders `lo .. hi - 1` of the listing `n`, in listing order. */
  function Segment(n: Node, lo: nat, hi: nat, base: string, rel: string): seq<Effect>
    requires n.Listing? && lo <= hi <= |n.folders|
    decreases n, hi
  {
    if hi == lo then [] else Segment(n, lo, hi - 1, base, rel) + ChildEffects(n.folders[hi - 1], base, rel)
  }

  /**
   * One subfolder of the folder at `rel`: nothing when it is pruned, otherwise
   * its local directory is created immediately before its own walk, which
   * starts by fetching `/folders/{id}`.
   */
  function ChildEffects(c: Child, base: string, rel: string): seq<Effect>
    decreases c, 0
  {
    if Pruned(c.entry) then []
    else
      var sub := ChildRel(rel, c.entry.name);
      [MkDir(DirPath(base, sub))] + Walk(c.contents, Some(c.entry.id), base, sub)
  }

  /** Every walk starts with its own listing request, and a failed one is all it does. */
  lemma WalkStart(n: Node, id: Option<nat>, base: string, rel: string)
    ensures var r := Walk(n, id, base, rel);
            |r| > 0 && r[0] == Fetch(Endpoint(id)) && (n.FetchFailed? ==> r == [Fetch(Endpoint(id))])
  {
  }

  /**
   * A pruned subfolder does nothing; any other has its local directory created
   * immediately before its own walk, which starts by fetching its listing.
   */
  lemma ChildEffectsStart(c: Child, base: string, rel: string)
    ensures var r := ChildEffects(c, base, rel);
            (Pruned(c.entry) ==> r == []) &&
            (!Pruned(c.entry) ==>
               |r| >= 2 && r[0] == MkDir(DirPath(base, ChildRel(rel, c.entry.name))) &&
               r[1] == Fetch(Endpoint(Some(c.entry.id))))
  {
    if !Pruned(c.entry) {
      WalkStart(c.contents, Some(c.entry.id), base, ChildRel(rel, c.entry.name));
    }
  }

  // ---------------------------------------------------------------------------
  // The procedure

  /**
   * `process_folder`: the listing request, then the two `for` loops over the
   * listing's files and subfolders. `download` stands for `download_file`'s
   * success; the walk ignores it, so a failed download never stops the loop,
   * and the log is the same whatever the oracle answers.
   */
  method ProcessFolder(n: Node, id: Option<nat>, base: string, rel: string, download: (string, string) -> bool)
    returns (log: seq<Effect>)
    ensures log == Walk(n, id, base, rel)
    decreases n
  {
    log := [Fetch(Endpoint(id))];
    if n.FetchFailed? {
      assert Walk(n, id, base, rel) == log + [];
      return;
    }
    var downloads := ProcessFiles(n.files, base, rel, download);
    log := log + downloads;
    var folders := n.folders;
    for i := 0 to |folders|
      invariant log == [Fetch(Endpoint(id))] + FileEffects(n.files, base, rel) + Segment(n, 0, i, base, rel)
    {
      var sub := folders[i];
      ghost var head := [Fetch(Endpoint(id))] + FileEffects(n.files, base, rel);
      ghost var before := log;
      assert Segment(n, 0, i + 1, base, rel) == Segment(n, 0, i, base, rel) + ChildEffects(sub, base, rel);
      if sub.entry.isDeleted || sub.entry.isRecycleBin {
        Append3(head, Segment(n, 0, i, base, rel), []);
        continue;
      }
      var newFolderPath := ChildRel(rel, sub.entry.name);
      log := log + [MkDir(DirPath(base, newFolderPath))];
      var inner := ProcessFolder(sub.contents, Some(sub.entry.id), base, newFolderPath, download);
      log := log + inner;
      Append3(before, [MkDir(DirPath(base, newFolderPath))], inner);
      Append3(head, Segment(n, 0, i, base, rel), ChildEffects(sub, base, rel));
    }
    Append3([Fetch(Endpoint(id))], FileEffects(n.files, base, rel), Segment(n, 0, |folders|, base, rel));
  }

  /**
   * The first loop of `process_folder`: each file entry that is not deleted,
   * has versions and whose latest version has a non-empty url is downloaded
   * to `join(base, rel, name)`; the others are skipped.
   */
  method ProcessFiles(files: seq<FileEntry>, base: string, rel: string, download: (string, string) -> bool)
    returns (log: seq<Effect>)
    ensures log == FileEffects(files, base, rel)
  {
    log := [];
    for i := 0 to |files|
      invariant log == FileEffects(files[..i], base, rel)
    {
      var file := files[i];
      assert files[..i + 1][..i] == files[..i];
      ghost var next := FileEffects(files[..i + 1], base, rel);
      assert next == log + FileEffect(file, base, rel);
      if file.isDeleted {
        assert DownloadUrl(file).None?;
        continue;
      }
      if |file.versions| > 0 {
        var latest := file.versions[LatestIndex(file.versions)];
        if latest.url.Some? && latest.url.value != "" {
          var localPath := FilePath(base, rel, file.name);
          assert DownloadUrl(file) == latest.url;
          log := log + [Download(latest.url.value, localPath)];
          var saved := download(latest.url.value, localPath);
        } else {
          assert DownloadUrl(file).None?;
        }
      } else {
        assert DownloadUrl(file).None?;
      }
    }
    assert files[..|files|] == files;
  }

  /** Sequence concatenation regrouped. */
  lemma Append3(a: seq<Effect>, b: seq<Effect>, c: seq<Effect>)
    ensures a + (b + c) == a + b + c
  {
  }

  // ---------------------------------------------------------------------------
  // Reachability in the tree

  /**
   * `f` is an entry of the listing of the folder reached from `n` through the
   * subfolders named `names`, none of them pruned and every listing on the way
   * fetched.
   */
  ghost predicate FileIn(n: Node, names: seq<string>, f: FileEntry)
    decreases n
  {
    n.Listing? &&
    if names == [] then f in n.files
    else exists c :: c in n.folders && !Pruned(c.entry) && c.entry.name == names[0] && FileIn(c.contents, names[1..], f)
  }

  /** A non-pruned subfolder is reached from `n` through `names`, every listing above it fetched. */
  ghost predicate FolderIn(n: Node, names: seq<string>)
    decreases n
  {
    n.Listing? && names != [] &&
    exists c :: c in n.folders && !Pruned(c.entry) && c.entry.name == names[0] &&
                (|names| == 1 || FolderIn(c.contents, names[1..]))
  }

  // ---------------------------------------------------------------------------
  // Membership in the log

  /** An effect of a folder's downloads comes from one of its file entries. */
  lemma {:induction false} FileEffectSource(fs: seq<FileEntry>, base: string, rel: string, e: Effect) returns (j: nat)
    requires e in FileEffects(fs, base, rel)
    ensures j < |fs| && e in FileEffect(fs[j], base, rel)
    decreases |fs|
  {
    var init := fs[..|fs| - 1];
    assert FileEffects(fs, base, rel) == FileEffects(init, base, rel) + FileEffect(fs[|fs| - 1], base, rel);
    if e in FileEffects(init, base, rel) {
      j := FileEffectSource(init, base, rel, e);
      assert init[j] == fs[j];
    } else {
      j := |fs| - 1;
    }
  }

  /** Every file entry's effect is among its folder's downloads. */
  lemma {:induction false} FileEffectIncluded(fs: seq<FileEntry>, j: nat, base: string, rel: string, e: Effect)
    requires j < |fs| && e in FileEffect(fs[j], base, rel)
    ensures e in FileEffects(fs, base, rel)
    decreases |fs|
  {
    var init := fs[..|fs| - 1];
    assert FileEffects(fs, base, rel) == FileEffects(init, base, rel) + FileEffect(fs[|fs| - 1], base, rel);
    if j < |fs| - 1 {
      assert init[j] == fs[j];
      FileEffectIncluded(init, j, base, rel, e);
    }
  }

  /** An effect of a run of subfolders comes from one of them. */
  lemma {:induction false} SegmentSource(n: Node, lo: nat, hi: nat, base: string, rel: string, e: Effect) returns (i: nat)
    requires n.Listing? && lo <= hi <= |n.folders|
    requires e in Segment(n, lo, hi, base, rel)
    ensures lo <= i < hi && e in ChildEffects(n.folders[i], base, rel)
    decreases hi
  {
    if e in Segment(n, lo, hi - 1, base, rel) {
      i := SegmentSource(n, lo, hi - 1, base, rel, e);
    } else {
      i := hi - 1;
    }
  }

  /** Every subfolder's effects are among those of a run containing it. */
  lemma {:induction false} SegmentIncluded(n: Node, lo: nat, hi: nat, i: nat, base: string, rel: string, e: Effect)
    requires n.Listing? && lo <= i < hi <= |n.folders|
    requires e in ChildEffects(n.folders[i], base, rel)
    ensures e in Segment(n, lo, hi, base, rel)
    decreases hi
  {
    var init := Segment(n, lo, hi - 1, base, rel);
    var last := ChildEffects(n.folders[hi - 1], base, rel);
    assert Segment(n, lo, hi, base, rel) == init + last;
    if i < hi - 1 {
      SegmentIncluded(n, lo, hi - 1, i, base, rel, e);
      assert e in init;
    } else {
      assert e in last;
    }
  }

  /** Moving from a folder to its subfolder `c` extends the names by `c`'s name. */
  lemma RelPathStep(rel: string, name: string, names: seq<string>)
    requires names != [] && names[0] == name
    ensures RelPath(rel, names) == RelPath(ChildRel(rel, name), names[1..])
  {
  }

  /** The effects of a walk: its own request, then those of its files and of its subfolders. */
  lemma WalkMembers(n: Node, id: Option<nat>, base: string, rel: string, e: Effect)
    ensures e in Walk(n, id, base, rel) <==>
              e == Fetch(Endpoint(id)) ||
              (n.Listing? && (e in FileEffects(n.files, base, rel) || e in Segment(n, 0, |n.folders|, base, rel)))
  {
    if n.Listing? {
      var fe := FileEffects(n.files, base, rel);
      var sg := Segment(n, 0, |n.folders|, base, rel);
      assert Walk(n, id, base, rel) == [Fetch(Endpoint(id))] + (fe + sg);
    }
  }

  /** The effects of one subfolder: none when pruned, else its directory and its own walk. */
  lemma ChildMembers(c: Child, base: string, rel: string, e: Effect)
    ensures e in ChildEffects(c, base, rel) <==>
              !Pruned(c.entry) &&
              (e == MkDir(DirPath(base, ChildRel(rel, c.entry.name))) ||
               e in Walk(c.contents, Some(c.entry.id), base, ChildRel(rel, c.entry.name)))
  {
  }

  /** A download in the log comes from a reachable, downloadable file entry, at its joined path. */
  lemma {:induction false} DownloadSound(n: Node, id: Option<nat>, base: string, rel: string, u: string, p: string)
    returns (names: seq<string>, f: FileEntry)
    requires Download(u, p) in Walk(n, id, base, rel)
    ensures FileIn(n, names, f) && DownloadUrl(f) == Some(u) && p == FilePath(base, RelPath(rel, names), f.name)
    decreases n
  {
    var e := Download(u, p);
    WalkMembers(n, id, base, rel, e);
    if e in FileEffects(n.files, base, rel) {
      var j := FileEffectSource(n.files, base, rel, e);
      f := n.files[j];
      names := [];
    } else {
      var i := SegmentSource(n, 0, |n.folders|, base, rel, e);
      var c := n.folders[i];
      var sub := ChildRel(rel, c.entry.name);
      ChildMembers(c, base, rel, e);
      var rest;
      rest, f := DownloadSound(c.contents, Some(c.entry.id), base, sub, u, p);
      names := [c.entry.name] + rest;
      assert names[1..] == rest;
      assert c in n.folders;
      RelPathStep(rel, c.entry.name, names);
    }
  }

  /** Every reachable, downloadable file entry is downloaded to its joined path. */
  lemma {:induction false} DownloadComplete(n: Node, id: Option<nat>, base: string, rel: string,
                                            names: seq<string>, f: FileEntry)
    requires FileIn(n, names, f) && DownloadUrl(f).Some?
    ensures Download(DownloadUrl(f).value, FilePath(base, RelPath(rel, names), f.name)) in Walk(n, id, base, rel)
    decreases n
  {
    var e := Download(DownloadUrl(f).value, FilePath(base, RelPath(rel, names), f.name));
    WalkMembers(n, id, base, rel, e);
    if names == [] {
      var j :| 0 <= j < |n.files| && n.files[j] == f;
      assert e in FileEffect(n.files[j], base, rel);
      FileEffectIncluded(n.files, j, base, rel, e);
    } else {
      var c :| c in n.folders && !Pruned(c.entry) && c.entry.name == names[0] && FileIn(c.contents, names[1..], f);
      var i :| 0 <= i < |n.folders| && n.folders[i] == c;
      var sub := ChildRel(rel, c.entry.name);
      RelPathStep(rel, c.entry.name, names);
      DownloadComplete(c.contents, Some(c.entry.id), base, sub, names[1..], f);
      ChildMembers(c, base, rel, e);
      SegmentIncluded(n, 0, |n.folders|, i, base, rel, e);
    }
  }

  /** The file `f`, reached through `names`, is fetched from `u` and saved at `p`. */
  ghost predicate Delivers(n: Node, base: string, rel: string, names: seq<string>, f: FileEntry, u: string, p: string) {
    FileIn(n, names, f) && DownloadUrl(f) == Some(u) && p == FilePath(base, RelPath(rel, names), f.name)
  }

  /**
   * Which files are downloaded, from which url, to which path: exactly the
   * entries reachable through fetched, non-pruned folders that are not deleted
   * and whose first version of greatest number has a usable url, each written
   * to `join(base, relative path of its folder, name)`.
   */
  lemma DownloadIff(n: Node, id: Option<nat>, base: string, rel: string, u: string, p: string)
    ensures Download(u, p) in Walk(n, id, base, rel) <==> exists names, f :: Delivers(n, base, rel, names, f, u, p)
  {
    if Download(u, p) in Walk(n, id, base, rel) {
      var names, f := DownloadSound(n, id, base, rel, u, p);
      assert Delivers(n, base, rel, names, f, u, p);
    }
    if exists names, f :: Delivers(n, base, rel, names, f, u, p) {
      var names, f :| Delivers(n, base, rel, names, f, u, p);
      DownloadComplete(n, id, base, rel, names, f);
    }
  }

  /** A directory in the log is the local directory of a reachable, non-pruned subfolder. */
  lemma {:induction false} MkDirSound(n: Node, id: Option<nat>, base: string, rel: string, p: string)
    returns (names: seq<string>)
    requires MkDir(p) in Walk(n, id, base, rel)
    ensures FolderIn(n, names) && p == DirPath(base, RelPath(rel, names))
    decreases n
  {
    var e := MkDir(p);
    WalkMembers(n, id, base, rel, e);
    assert e !in FileEffects(n.files, base, rel) by {
      var r := FileEffects(n.files, base, rel);
      assert forall j :: 0 <= j < |r| ==> r[j] != e;
    }
    var i := SegmentSource(n, 0, |n.folders|, base, rel, e);
    var c := n.folders[i];
    var sub := ChildRel(rel, c.entry.name);
    ChildMembers(c, base, rel, e);
    assert c in n.folders;
    if e == MkDir(DirPath(base, sub)) {
      names := [c.entry.name];
    } else {
      var rest := MkDirSound(c.contents, Some(c.entry.id), base, sub, p);
      names := [c.entry.name] + rest;
      assert names[1..] == rest;
    }
    RelPathStep(rel, c.entry.name, names);
  }

  /** Every reachable, non-pruned subfolder gets its local directory. */
  lemma {:induction false} MkDirComplete(n: Node, id: Option<nat>, base: string, rel: string, names: seq<string>)
    requires FolderIn(n, names)
    ensures MkDir(DirPath(base, RelPath(rel, names))) in Walk(n, id, base, rel)
    decreases n
  {
    var e := MkDir(DirPath(base, RelPath(rel, names)));
    WalkMembers(n, id, base, rel, e);
    var c :| c in n.folders && !Pruned(c.entry) && c.entry.name == names[0] &&
             (|names| == 1 || FolderIn(c.contents, names[1..]));
    var i :| 0 <= i < |n.folders| && n.folders[i] == c;
    var sub := ChildRel(rel, c.entry.name);
    RelPathStep(rel, c.entry.name, names);
    if |names| > 1 {
      MkDirComplete(c.contents, Some(c.entry.id), base, sub, names[1..]);
    }
    ChildMembers(c, base, rel, e);
    SegmentIncluded(n, 0, |n.folders|, i, base, rel, e);
  }

  /**
   * Which directories are created: exactly the local directories of the
   * non-pruned subfolders whose parent listings were all fetched.
   */
  lemma MkDirIff(n: Node, id: Option<nat>, base: string, rel: string, p: string)
    ensures MkDir(p) in Walk(n, id, base, rel) <==>
              exists names :: FolderIn(n, names) && p == DirPath(base, RelPath(rel, names))
  {
    if MkDir(p) in Walk(n, id, base, rel) {
      var names := MkDirSound(n, id, base, rel, p);
    }
    if exists names :: FolderIn(n, names) && p == DirPath(base, RelPath(rel, names)) {
      var names :| FolderIn(n, names) && p == DirPath(base, RelPath(rel, names));
      MkDirComplete(n, id, base, rel, names);
    }
  }

  // ---------------------------------------------------------------------------
  // Local structure of one listing

  lemma {:induction false} FileEffectsAppend(a: seq<FileEntry>, b: seq<FileEntry>, base: string, rel: string)
    ensures FileEffects(a + b, base, rel) == FileEffects(a, base, rel) + FileEffects(b, base, rel)
    decreases |b|
  {
    if b == [] {
      assert a + b == a;
    } else {
      var b' := b[..|b| - 1];
      var last := FileEffect(b[|b| - 1], base, rel);
      assert (a + b)[..|a + b| - 1] == a + b';
      assert (a + b)[|a + b| - 1] == b[|b| - 1];
      assert FileEffects(a + b, base, rel) == FileEffects(a + b', base, rel) + last;
      assert FileEffects(b, base, rel) == FileEffects(b', base, rel) + last;
      FileEffectsAppend(a, b', base, rel);
      Append3(FileEffects(a, base, rel), FileEffects(b', base, rel), last);
    }
  }

  lemma {:induction false} SegmentSplit(n: Node, lo: nat, mid: nat, hi: nat, base: string, rel: string)
    requires n.Listing? && lo <= mid <= hi <= |n.folders|
    ensures Segment(n, lo, hi, base, rel) == Segment(n, lo, mid, base, rel) + Segment(n, mid, hi, base, rel)
    decreases hi
  {
    if hi > mid {
      SegmentSplit(n, lo, mid, hi - 1, base, rel);
      var last := ChildEffects(n.folders[hi - 1], base, rel);
      assert Segment(n, lo, hi, base, rel) == Segment(n, lo, hi - 1, base, rel) + last;
      assert Segment(n, mid, hi, base, rel) == Segment(n, mid, hi - 1, base, rel) + last;
      Append3(Segment(n, lo, mid, base, rel), Segment(n, mid, hi - 1, base, rel), last);
    } else {
      assert Segment(n, mid, hi, base, rel) == [];
    }
  }

  /** A segment depends only on the subfolder entries it covers, wherever they sit in the listing. */
  lemma {:induction false} SegmentShift(n: Node, lo: nat, hi: nat, m: Node, lo': nat, hi': nat, base: string, rel: string)
    requires n.Listing? && lo <= hi <= |n.folders|
    requires m.Listing? && lo' <= hi' <= |m.folders|
    requires n.folders[lo..hi] == m.folders[lo'..hi']
    ensures Segment(n, lo, hi, base, rel) == Segment(m, lo', hi', base, rel)
    decreases hi
  {
    if hi > lo {
      var d := hi - 1 - lo;
      var a := n.folders[lo..hi];
      var b := m.folders[lo'..hi'];
      assert a[d] == n.folders[hi - 1] && b[d] == m.folders[hi' - 1];
      assert a[..d] == n.folders[lo..hi - 1];
      assert b[..d] == m.folders[lo'..hi' - 1];
      SegmentShift(n, lo, hi - 1, m, lo', hi' - 1, base, rel);
      assert Segment(n, lo, hi, base, rel) == Segment(n, lo, hi - 1, base, rel) + ChildEffects(a[d], base, rel);
      assert Segment(m, lo', hi', base, rel) == Segment(m, lo', hi' - 1, base, rel) + ChildEffects(b[d], base, rel);
    }
  }

  /** A fetched listing: its request, its files' downloads, then all of its subfolders. */
  lemma WalkListing(fs: seq<FileEntry>, cs: seq<Child>, id: Option<nat>, base: string, rel: string)
    ensures Walk(Listing(fs, cs), id, base, rel) ==
              [Fetch(Endpoint(id))] + FileEffects(fs, base, rel) + Segment(Listing(fs, cs), 0, |cs|, base, rel)
  {
  }

  /** A run of one subfolder is that subfolder's effects. */
  lemma SegmentOne(n: Node, i: nat, base: string, rel: string)
    requires n.Listing? && i < |n.folders|
    ensures Segment(n, i, i + 1, base, rel) == ChildEffects(n.folders[i], base, rel)
  {
    assert Segment(n, i, i, base, rel) == [];
  }

  /** The subfolders of a listing, cut around the `i`-th one. */
  lemma SegmentAround(n: Node, i: nat, base: string, rel: string)
    requires n.Listing? && i < |n.folders|
    ensures Segment(n, 0, |n.folders|, base, rel) ==
              Segment(n, 0, i, base, rel) + ChildEffects(n.folders[i], base, rel) + Segment(n, i + 1, |n.folders|, base, rel)
  {
    SegmentSplit(n, 0, i, |n.folders|, base, rel);
    SegmentSplit(n, i, i + 1, |n.folders|, base, rel);
    SegmentOne(n, i, base, rel);
  }

  /**
   * Subfolder pruning: a deleted or recycle-bin subfolder contributes nothing,
   * neither a directory nor anything of its subtree: the walk is the same as if
   * the listing did not contain it.
   */
  lemma PrunedSubfolderIgnored(fs: seq<FileEntry>, cs: seq<Child>, i: nat, id: Option<nat>, base: string, rel: string)
    requires i < |cs| && Pruned(cs[i].entry)
    ensures Walk(Listing(fs, cs), id, base, rel) == Walk(Listing(fs, cs[..i] + cs[i + 1..]), id, base, rel)
  {
    var cs' := cs[..i] + cs[i + 1..];
    var n := Listing(fs, cs);
    var m := Listing(fs, cs');
    var h := [Fetch(Endpoint(id))] + FileEffects(fs, base, rel);
    WalkAround(fs, cs, i, id, base, rel);
    WalkListing(fs, cs', id, base, rel);
    assert Segment(m, 0, |cs'|, base, rel) == Segment(n, 0, i, base, rel) + Segment(n, i + 1, |cs|, base, rel) by {
      SegmentSplit(m, 0, i, |cs'|, base, rel);
      assert cs[0..i] == cs'[0..i];
      SegmentShift(n, 0, i, m, 0, i, base, rel);
      assert cs[i + 1..|cs|] == cs'[i..|cs'|];
      SegmentShift(n, i + 1, |cs|, m, i, |cs'|, base, rel);
    }
    assert ChildEffects(cs[i], base, rel) == [];
    Regroup(h, Segment(n, 0, i, base, rel), [], Segment(n, i + 1, |cs|, base, rel));
  }

  /** A file entry with nothing to download contributes nothing to its folder's downloads. */
  lemma FileEffectsSkip(fs: seq<FileEntry>, i: nat, base: string, rel: string)
    requires i < |fs| && DownloadUrl(fs[i]).None?
    ensures FileEffects(fs, base, rel) == FileEffects(fs[..i] + fs[i + 1..], base, rel)
  {
    var a := fs[..i];
    var b := fs[i + 1..];
    assert fs == (a + [fs[i]]) + b;
    FileEffectsAppend(a + [fs[i]], b, base, rel);
    assert (a + [fs[i]])[..|a|] == a;
    assert FileEffects(a + [fs[i]], base, rel) == FileEffects(a, base, rel);
    FileEffectsAppend(a, b, base, rel);
  }

  /**
   * File skipping: an entry that is deleted, has no versions or whose latest
   * version has no usable url contributes nothing, and the rest of the folder
   * is processed exactly as if it were absent.
   */
  lemma SkippedFileIgnored(fs: seq<FileEntry>, cs: seq<Child>, i: nat, id: Option<nat>, base: string, rel: string)
    requires i < |fs| && DownloadUrl(fs[i]).None?
    ensures Walk(Listing(fs, cs), id, base, rel) == Walk(Listing(fs[..i] + fs[i + 1..], cs), id, base, rel)
  {
    var fs' := fs[..i] + fs[i + 1..];
    WalkListing(fs, cs, id, base, rel);
    WalkListing(fs', cs, id, base, rel);
    FileEffectsSkip(fs, i, base, rel);
    assert cs[0..|cs|] == cs[0..|cs|];
    SegmentShift(Listing(fs, cs), 0, |cs|, Listing(fs', cs), 0, |cs|, base, rel);
  }

  /** A fetched listing, cut around its `i`-th subfolder. */
  lemma WalkAround(fs: seq<FileEntry>, cs: seq<Child>, i: nat, id: Option<nat>, base: string, rel: string)
    requires i < |cs|
    ensures var n := Listing(fs, cs);
            Walk(n, id, base, rel) ==
              [Fetch(Endpoint(id))] + FileEffects(fs, base, rel) + Segment(n, 0, i, base, rel) +
              ChildEffects(cs[i], base, rel) + Segment(n, i + 1, |cs|, base, rel)
  {
    var n := Listing(fs, cs);
    WalkListing(fs, cs, id, base, rel);
    SegmentAround(n, i, base, rel);
    Regroup([Fetch(Endpoint(id))] + FileEffects(fs, base, rel), Segment(n, 0, i, base, rel),
            ChildEffects(cs[i], base, rel), Segment(n, i + 1, |cs|, base, rel));
  }

  lemma Regroup(a: seq<Effect>, b: seq<Effect>, c: seq<Effect>, d: seq<Effect>)
    ensures a + (b + c + d) == a + b + c + d
  {
  }

  /**
   * Replacing the subtree of one subfolder changes only that subfolder's part
   * of the walk: the effects of the files and of the earlier siblings before
   * it, and of the later siblings after it, stay the same.
   */
  lemma SubtreeIsolated(fs: seq<FileEntry>, cs: seq<Child>, i: nat, t: Node, id: Option<nat>, base: string, rel: string)
    requires i < |cs|
    ensures var n := Listing(fs, cs);
            var before := [Fetch(Endpoint(id))] + FileEffects(fs, base, rel) + Segment(n, 0, i, base, rel);
            var after := Segment(n, i + 1, |cs|, base, rel);
            Walk(n, id, base, rel) == before + ChildEffects(cs[i], base, rel) + after &&
            Walk(Listing(fs, cs[i := Child(cs[i].entry, t)]), id, base, rel) ==
              before + ChildEffects(Child(cs[i].entry, t), base, rel) + after
  {
    var n := Listing(fs, cs);
    var cs' := cs[i := Child(cs[i].entry, t)];
    var m := Listing(fs, cs');
    WalkAround(fs, cs, i, id, base, rel);
    WalkAround(fs, cs', i, id, base, rel);
    assert Segment(m, 0, i, base, rel) == Segment(n, 0, i, base, rel) by {
      assert cs[0..i] == cs'[0..i];
      SegmentShift(n, 0, i, m, 0, i, base, rel);
    }
    assert Segment(m, i + 1, |cs'|, base, rel) == Segment(n, i + 1, |cs|, base, rel) by {
      assert cs[i + 1..|cs|] == cs'[i + 1..|cs'|];
      SegmentShift(n, i + 1, |cs|, m, i + 1, |cs|, base, rel);
    }
  }

  /**
   * Fetch failure: when a subfolder's listing cannot be fetched, the walk
   * makes its directory, issues the one failed request, and goes on with the
   * remaining siblings; nothing below that subfolder is downloaded or created.
   */
  lemma FailedSubfolderIsolated(fs: seq<FileEntry>, cs: seq<Child>, i: nat, id: Option<nat>, base: string, rel: string)
    requires i < |cs| && !Pruned(cs[i].entry)
    ensures var n := Listing(fs, cs);
            var e := cs[i].entry;
            Walk(Listing(fs, cs[i := Child(e, FetchFailed)]), id, base, rel) ==
              [Fetch(Endpoint(id))] + FileEffects(fs, base, rel) + Segment(n, 0, i, base, rel) +
              [MkDir(DirPath(base, ChildRel(rel, e.name))), Fetch(Endpoint(Some(e.id)))] +
              Segment(n, i + 1, |cs|, base, rel)
  {
    SubtreeIsolated(fs, cs, i, FetchFailed, id, base, rel);
  }

  /**
   * A file and a subfolder with the same name: the log downloads the file to
   * `/b/X` and then makes the directory `/b/X` and walks on. On disk that
   * `os.makedirs` fails because a regular file is in the way; the log assumes
   * every directory creation succeeds.
   */
  lemma FileFolderCollision()
    ensures var n := Listing([FileEntry("X", false, [Version(None, Some("u"))])],
                             [Child(FolderEntry(7, "X", false, false), Listing([], []))]);
            Walk(n, None, "/b", "") == [Fetch("/folders"), Download("u", "/b/X"), MkDir("/b/X"), Fetch("/folders/7")]
  {
    var f := FileEntry("X", false, [Version(None, Some("u"))]);
    var c := Child(FolderEntry(7, "X", false, false), Listing([], []));
    var n := Listing([f], [c]);
    WalkListing([f], [c], None, "/b", "");
    assert Endpoint(None) == "/folders";
    CollisionFile();
    assert Segment(n, 0, 1, "/b", "") == ChildEffects(c, "/b", "") by {
      assert Segment(n, 0, 0, "/b", "") == [];
    }
    CollisionFolder();
  }

  /** The file `X` of the collision: downloaded from its only version's url to `/b/X`. */
  lemma CollisionFile()
    ensures FileEffects([FileEntry("X", false, [Version(None, Some("u"))])], "/b", "") == [Download("u", "/b/X")]
  {
    var f := FileEntry("X", false, [Version(None, Some("u"))]);
    assert LatestIndex(f.versions) == 0;
    assert DownloadUrl(f) == Some("u");
    assert FilePath("/b", "", "X") == "/b/X";
  }

  /** The subfolder `X` of the collision: its directory `/b/X`, then the request for its empty listing. */
  lemma CollisionFolder()
    ensures ChildEffects(Child(FolderEntry(7, "X", false, false), Listing([], [])), "/b", "") ==
              [MkDir("/b/X"), Fetch("/folders/7")]
  {
    var c := Child(FolderEntry(7, "X", false, false), Listing([], []));
    assert Dec(7) == "7";
    assert Endpoint(Some(7)) == "/folders/7";
    assert Walk(c.contents, Some(7), "/b", "X") == [Fetch("/folders/7")] by {
      assert FileEffects([], "/b", "X") == [];
      assert Segment(c.contents, 0, 0, "/b", "X") == [];
    }
    assert DirPath("/b", ChildRel("", "X")) == "/b/X";
  }

  /** The first effect of a run of subfolders is the directory of its first non-pruned one. */
  lemma {:induction false} SegmentStart(n: Node, lo: nat, hi: nat, j: nat, base: string, rel: string)
    requires n.Listing? && lo <= j < hi <= |n.folders|
    requires !Pruned(n.folders[j].entry)
    requires forall l :: lo <= l < j ==> Pruned(n.folders[l].entry)
    ensures var s := Segment(n, lo, hi, base, rel);
            |s| > 0 && s[0] == MkDir(DirPath(base, ChildRel(rel, n.folders[j].entry.name)))
    decreases hi
  {
    if hi - 1 > j {
      SegmentStart(n, lo, hi - 1, j, base, rel);
    } else {
      SegmentEmpty(n, lo, j, base, rel);
      ChildEffectsStart(n.folders[j], base, rel);
      assert Segment(n, lo, hi, base, rel) == [] + ChildEffects(n.folders[j], base, rel);
    }
  }

  lemma {:induction false} SegmentEmpty(n: Node, lo: nat, hi: nat, base: string, rel: string)
    requires n.Listing? && lo <= hi <= |n.folders|
    requires forall l :: lo <= l < hi ==> Pruned(n.folders[l].entry)
    ensures Segment(n, lo, hi, base, rel) == []
    decreases hi
  {
    if hi > lo {
      SegmentEmpty(n, lo, hi - 1, base, rel);
    }
  }

  /**
   * Traversal order within a listing: after the listing request come the
   * downloads of its files and nothing else, and the next effect, if any, is
   * the directory of the first subfolder that is not pruned.
   */
  lemma FilesBeforeSubfolders(fs: seq<FileEntry>, cs: seq<Child>, id: Option<nat>, base: string, rel: string)
    ensures var w := Walk(Listing(fs, cs), id, base, rel);
            var k := |FileEffects(fs, base, rel)|;
            k < |w| &&
            (forall j :: 1 <= j <= k ==> w[j].Download?) &&
            (forall j :: 0 <= j < |cs| && !Pruned(cs[j].entry) && (forall l :: 0 <= l < j ==> Pruned(cs[l].entry)) ==>
               k + 1 < |w| && w[k + 1] == MkDir(DirPath(base, ChildRel(rel, cs[j].entry.name)))) &&
            ((forall l :: 0 <= l < |cs| ==> Pruned(cs[l].entry)) ==> |w| == k + 1)
  {
    var n := Listing(fs, cs);
    var w := Walk(n, id, base, rel);
    var fe := FileEffects(fs, base, rel);
    var k := |fe|;
    assert forall j :: 1 <= j <= k ==> w[j] == fe[j - 1];
    forall j | 0 <= j < |cs| && !Pruned(cs[j].entry) && (forall l :: 0 <= l < j ==> Pruned(cs[l].entry))
      ensures k + 1 < |w| && w[k + 1] == MkDir(DirPath(base, ChildRel(rel, cs[j].entry.name)))
    {
      SegmentStart(n, 0, |cs|, j, base, rel);
    }
    if forall l :: 0 <= l < |cs| ==> Pruned(cs[l].entry) {
      SegmentEmpty(n, 0, |cs|, base, rel);
    }
  }
}
