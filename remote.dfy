/**
 * The project's document tree as the downloader sees it once every folder
 * listing has been fetched. A folder whose listing request failed is
 * `FetchFailed`; otherwise it is a `Listing` of file entries and of subfolder
 * entries, each subfolder paired with what fetching it returns.
 *
 * JSON keys that may be missing are modelled by their defaults: a missing
 * `is_deleted` / `is_recycle_bin` is false, a missing or null `file_versions`
 * (or `files`, `folders`) is the empty list, a missing `number` is `None` and
 * reads as 0, a missing or null `url` is `None`.
 */
module Remote {
  import opened Wrappers

  datatype Version = Version(number: Option<int>, url: Option<string>)

  datatype FileEntry = FileEntry(name: string, isDeleted: bool, versions: seq<Version>)

  datatype FolderEntry = FolderEntry(id: nat, name: string, isDeleted: bool, isRecycleBin: bool)

  datatype Node =
    | FetchFailed
    | Listing(files: seq<FileEntry>, folders: seq<Child>)

  datatype Child = Child(entry: FolderEntry, contents: Node)

  /** The key of `max(..., key=lambda v: v.get('number', 0))`. */
  function Number(v: Version): int {
    match v.number
    case None => 0
    case Some(k) => k
  }

  /**
   * The index `max` picks among the first `m` versions. `max` scans left to
   * right and replaces its candidate only on a strictly greater key, so the
   * result is the FIRST version of maximal number.
   */
  function MaxPrefix(vs: seq<Version>, m: nat): (k: nat)
    requires 0 < m <= |vs|
    ensures k < m
    ensures forall j :: 0 <= j < m ==> Number(vs[j]) <= Number(vs[k])
    ensures forall j :: 0 <= j < k ==> Number(vs[j]) < Number(vs[k])
  {
    if m == 1 then 0
    else
      var k := MaxPrefix(vs, m - 1);
      if Number(vs[m - 1]) > Number(vs[k]) then m - 1 else k
  }

  /** The position of the version the downloader uses: the first one of greatest number. */
  function LatestIndex(vs: seq<Version>): (k: nat)
    requires |vs| > 0
    ensures k < |vs|
    ensures forall j :: 0 <= j < |vs| ==> Number(vs[j]) <= Number(vs[k])
    ensures forall j :: 0 <= j < k ==> Number(vs[j]) < Number(vs[k])
  {
    MaxPrefix(vs, |vs|)
  }

  /** The two properties of `LatestIndex` leave no other choice: ties go to the earliest version. */
  lemma LatestIndexUnique(vs: seq<Version>, k: nat)
    requires k < |vs|
    requires forall j :: 0 <= j < |vs| ==> Number(vs[j]) <= Number(vs[k])
    requires forall j :: 0 <= j < k ==> Number(vs[j]) < Number(vs[k])
    ensures LatestIndex(vs) == k
  {
  }

  /** A url the code treats as present: the key exists and the value is truthy. */
  predicate UsableUrl(u: Option<string>) {
    u.Some? && u.value != ""
  }

  /**
   * What the downloader fetches for a file entry, or None when it skips it:
   * a deleted entry, one without versions, and one whose latest version has no
   * usable url are all skipped.
   */
  function DownloadUrl(f: FileEntry): (r: Option<string>)
    ensures f.isDeleted ==> r.None?
    ensures |f.versions| == 0 ==> r.None?
    ensures r.Some? ==>
              r.value != "" &&
              exists k :: 0 <= k < |f.versions| && f.versions[k].url == r &&
                          (forall j :: 0 <= j < |f.versions| ==> Number(f.versions[j]) <= Number(f.versions[k])) &&
                          (forall j :: 0 <= j < k ==> Number(f.versions[j]) < Number(f.versions[k]))
    ensures r.Some? <==> !f.isDeleted && |f.versions| > 0 && UsableUrl(f.versions[LatestIndex(f.versions)].url)
  {
    if f.isDeleted then None
    else if |f.versions| == 0 then None
    else
      var latest := f.versions[LatestIndex(f.versions)];
      if UsableUrl(latest.url) then latest.url else None
  }

  /** A file with versions numbered 1 and 2: version 2's url is taken. */
  lemma NewestVersionChosen(n: string, v1: string, v2: string)
    requires v1 != "" && v2 != ""
    ensures DownloadUrl(FileEntry(n, false, [Version(Some(1), Some(v1)), Version(Some(2), Some(v2))])) == Some(v2)
  {
  }

  /** A version without a `number` counts as 0, so it loses to any positive number and wins ties only if it comes first. */
  lemma MissingNumberIsZero(u: string, w: string, k: int)
    requires u != "" && w != ""
    ensures DownloadUrl(FileEntry("f", false, [Version(None, Some(u)), Version(Some(k), Some(w))]))
            == if k > 0 then Some(w) else Some(u)
  {
  }
}
