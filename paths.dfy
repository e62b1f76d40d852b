/**
 * Local path construction. `Join` is POSIX `os.path.join` of two components,
 * including its reset on an absolute second component; the downloader builds
 * every local path from it.
 */
module Paths {
  import opened Text

  /** `os.path.join(a, b)`: an absolute `b` replaces `a`; otherwise exactly one '/' separates them, none after an empty `a`. */
  function Join(a: string, b: string): string {
    if b != [] && b[0] == '/' then b
    else if a == [] || a[|a| - 1] == '/' then a + b
    else a + "/" + b
  }

  /** A subfolder's relative path: `os.path.join(folder_path, name) if folder_path else name`. */
  function ChildRel(rel: string, name: string): string {
    if rel != "" then Join(rel, name) else name
  }

  /** Where a file of the folder at `rel` is written: `os.path.join(base_path, folder_path, file_name)`. */
  function FilePath(base: string, rel: string, name: string): string {
    Join(Join(base, rel), name)
  }

  /** The local directory of the folder at `rel`: `os.path.join(base_path, new_folder_path)`. */
  function DirPath(base: string, rel: string): string {
    Join(base, rel)
  }

  /** The relative path reached from the folder at `rel` by descending through the subfolders `names`. */
  function RelPath(rel: string, names: seq<string>): string
    decreases |names|
  {
    if names == [] then rel else RelPath(ChildRel(rel, names[0]), names[1..])
  }

  /** A folder or file name that `Join` treats as one plain component. */
  predicate PlainName(x: string) {
    x != "" && '/' !in x
  }

  predicate PlainNames(names: seq<string>) {
    forall i :: 0 <= i < |names| ==> PlainName(names[i])
  }

  /** The special case for the root is redundant under POSIX joining: `Join("", name)` is `name` too. */
  lemma ChildRelIsJoin(rel: string, name: string)
    ensures ChildRel(rel, name) == Join(rel, name)
  {
  }

  /** `"/".join(names)` of plain names is non-empty and neither starts nor ends with '/'. */
  lemma {:induction false} SlashedEnds(names: seq<string>)
    requires |names| > 0 && PlainNames(names)
    ensures var s := JoinWith(names, '/'); s != [] && s[0] == names[0][0] && s[|s| - 1] != '/'
    decreases |names|
  {
    assert PlainName(names[0]);
    if |names| > 1 {
      SlashedEnds(names[1..]);
    } else {
      assert names[0][|names[0]| - 1] in names[0];
    }
  }

  lemma {:induction false} SlashedSnoc(names: seq<string>, x: string)
    requires |names| > 0
    ensures JoinWith(names + [x], '/') == JoinWith(names, '/') + "/" + x
    decreases |names|
  {
    if |names| > 1 {
      assert (names + [x])[1..] == names[1..] + [x];
      SlashedSnoc(names[1..], x);
    }
  }

  /**
   * Descending through plain folder names builds the '/'-joined names, below
   * `rel` when `rel` is not the root.
   */
  lemma {:induction false} RelPathOfNames(rel: string, names: seq<string>)
    requires |names| > 0 && PlainNames(names)
    requires rel == "" || rel[|rel| - 1] != '/'
    ensures RelPath(rel, names) == if rel == "" then JoinWith(names, '/') else rel + "/" + JoinWith(names, '/')
    decreases |names|
  {
    var x := names[0];
    assert PlainName(x) && x[0] != '/' && x[|x| - 1] != '/' by {
      assert x[0] in x && x[|x| - 1] in x;
    }
    var next := ChildRel(rel, x);
    assert next == if rel == "" then x else rel + "/" + x;
    if |names| > 1 {
      assert PlainNames(names[1..]) by {
        forall i | 0 <= i < |names| - 1 ensures PlainName(names[1..][i]) {
          assert names[1..][i] == names[i + 1];
        }
      }
      RelPathOfNames(next, names[1..]);
    }
  }

  /** The local directory of the folder reached through plain names `names` from the root. */
  lemma DirPathOfNames(base: string, names: seq<string>)
    requires |names| > 0 && PlainNames(names)
    ensures DirPath(base, RelPath("", names)) == Join(base, JoinWith(names, '/'))
  {
    RelPathOfNames("", names);
  }

  /**
   * The local path of a file named `name` in the folder reached through plain
   * names `names` from the root: the base directory joined with the '/'-joined
   * names from the root down to the file.
   */
  lemma FilePathOfNames(base: string, names: seq<string>, name: string)
    requires PlainNames(names) && '/' !in name
    ensures FilePath(base, RelPath("", names), name) == Join(base, JoinWith(names + [name], '/'))
  {
    assert name == [] || name[0] != '/' by {
      if name != [] { assert name[0] in name; }
    }
    if names == [] {
      assert names + [name] == [name];
    } else {
      RelPathOfNames("", names);
      SlashedEnds(names);
      SlashedSnoc(names, name);
      JoinExtend(base, JoinWith(names, '/'), name);
    }
  }

  /** Joining a relative, unslashed `r` and then `name` is joining `r + "/" + name` at once. */
  lemma JoinExtend(base: string, r: string, name: string)
    requires r != [] && r[0] != '/' && r[|r| - 1] != '/'
    requires name == [] || name[0] != '/'
    ensures Join(Join(base, r), name) == Join(base, r + "/" + name)
  {
    var b := Join(base, r);
    assert b[|b| - 1] == r[|r| - 1];
    var t := r + "/" + name;
    assert t[0] == r[0];
    if base == [] || base[|base| - 1] == '/' {
      assert base + t == (base + r) + "/" + name;
    } else {
      assert base + "/" + t == (base + "/" + r) + "/" + name;
    }
  }

  /** Nothing stops a remote name from being absolute: such a file lands outside the base directory. */
  lemma AbsoluteNameEscapes()
    ensures FilePath("/data/Project", "Drawings", "/etc/motd") == "/etc/motd"
  {
  }
}
