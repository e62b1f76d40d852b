# Procore document downloader: a Dafny model of its decisions

The downloader lets a user pick a company and one or more projects, then
copies each project's document tree to disk. It creates
`<cwd>/procore_downloads/<project name with each '/' replaced by '_'>` and
walks the remote folders depth first. For every file it downloads the latest version, and it mirrors every
subfolder as a local directory.

This project models what the program decides once the network is out of the
picture:

- **The remote tree.** `Remote` models the tree as a datatype. A folder is
  either a listing of file entries and subfolder children, or `FetchFailed`.
  `Remote.DownloadUrl` states which url, if any, is fetched for a file entry.
- **The walk.** `Walk` specifies `process_folder` as the ordered log of its
  effects: `Fetch(endpoint)`, `MkDir(path)` and `Download(url, path)`.
  `Walk.ProcessFolder` and `Walk.ProcessFiles` are the imperative loops.
  Each is proved to produce that log.
  - Lemmas describe which files are downloaded and to which path, and which
    directories are made.
  - They also cover which subfolders are pruned and what a failed fetch
    leaves out.
  - They cover the order too: files before subfolders, subfolders depth
    first in listing order.
- **Paths.** `Paths` models `os.path.join` as POSIX joining. That includes the
  reset on an absolute component and the rule that adds no second '/'.
- **The prompts.** `Selection` models one answer to the project prompt of
  `select_project` and the number check of `select_company`. An answer is
  read as `all`, a range, a comma list or a single number. It is either
  accepted as a list of 0-based positions or refused with the source's
  message (invalid input, invalid range, invalid selection).
- **Python's string operations.** `Text` models the ones the prompts rely on:
  `strip`, `lower`, `split`, `int()` and `str(k)`.
- **The project directory.** `ProjectDir` models `download_project_documents`:
  the replacement of '/' in the project name, the base directory, and the
  walk from the root.

The walk abstracts away the HTTP requests and the file writes.
- The tree records what each listing request returns.
- `Walk.ProcessFolder` takes the download routine as a parameter. Its result
  is ignored, as the source ignores it apart from printing, so a failed
  download never stops the loop.
- `Download(url, path)` stands for `download_file`, including the
  `os.makedirs` of the file's parent directory.

Two consequences of the code are worth stating explicitly:

- **Rate limits.** The 429 check at procore_document_downloader.py:266-270
  runs before any file of the folder is processed. The retry therefore
  repeats only the listing request, and no file is downloaded twice.
- **Path containment.** Entry names are joined unsanitised at
  procore_document_downloader.py:297 and :317-322. A file's path is the base
  directory joined with the folder names and the file name only for plain
  names, which is exactly what `Paths.FilePathOfNames` and
  `ProjectDir.ProjectFileLocation` assume. `Paths.AbsoluteNameEscapes` shows
  that a name starting with '/' leaves the base directory.

## Model

| member | source | states |
|---|---|---|
| Remote.Number | procore_document_downloader.py:291 | the key `v.get('number', 0)` by which `max` orders versions: the version's number, or 0 when it has none (see `Remote.MissingNumberIsZero`) |
| Remote.UsableUrl | procore_document_downloader.py:293 | the test `'url' in latest_version and latest_version['url']`: the url is present and non-empty |
| Remote.MaxPrefix | procore_document_downloader.py:291 | the index `max` keeps among the first m versions is below m, has a number at least every other's, and strictly greater than every earlier one's |
| Remote.LatestIndex | procore_document_downloader.py:291 | the chosen version has the greatest `number`, and it is the first version with that number |
| Remote.LatestIndexUnique | procore_document_downloader.py:291 | those two properties determine the chosen index: ties go to the earliest version |
| Remote.DownloadUrl | procore_document_downloader.py:283-294 | deleted entries and entries without versions give nothing. A result is a non-empty url of a first version of greatest number. A url is given iff the entry is not deleted, has versions, and its latest version's url is present and non-empty |
| Remote.NewestVersionChosen | procore_document_downloader.py:289-294 | with versions 1 and 2, version 2's url is downloaded |
| Remote.MissingNumberIsZero | procore_document_downloader.py:291 | a version without `number` counts as 0: it loses to a positive number and wins a tie only because it comes first |
| Text.IsSpace | procore_document_downloader.py:166 | the whitespace set of `str.isspace()` on ASCII, used by `strip()` at lines 166 and 184 and by `int()`: space, tab, newline, vertical tab, form feed, carriage return and the separators U+001C..U+001F |
| Text.SkipLeft | procore_document_downloader.py:166 | the `lstrip` cut point: every character it skips is whitespace and the character it stops at is not |
| Text.SkipRight | procore_document_downloader.py:166 | the `rstrip` cut point: every character it drops is whitespace and the character before it is not |
| Text.Strip | procore_document_downloader.py:166 | `strip()` gives a string with whitespace at neither end |
| Text.StripRemovesSpace | procore_document_downloader.py:166 | `strip()` keeps the infix between its two cut points, and everything it removes, on either side, is whitespace |
| Text.StripTrimmed | procore_document_downloader.py:166 | a string with whitespace at neither end is left unchanged by `strip()` |
| Text.StripIdempotent | procore_document_downloader.py:184 | stripping twice is stripping once: each piece of `choice.split(',')` is stripped by `x.strip()` and again by `int()` itself |
| Text.Lower | procore_document_downloader.py:166 | `lower()` on ASCII: each upper-case letter is replaced by its lower-case letter, every other character is kept; its properties are `Text.LowerKeeps`, `Text.LowerIdempotent` and `Text.StripLower` |
| Text.LowerKeeps | procore_document_downloader.py:166 | `lower()` keeps the length, leaves a string without capitals unchanged, and leaves no capital |
| Text.LowerIdempotent | procore_document_downloader.py:166 | lower-casing twice is lower-casing once |
| Text.SkipLeftLower | procore_document_downloader.py:166 | lower-casing moves neither the left cut point nor the length |
| Text.SkipRightLower | procore_document_downloader.py:166 | lower-casing does not move the right cut point |
| Text.LowerSlice | procore_document_downloader.py:166 | lower-casing a slice is slicing the lower-cased string |
| Text.StripLower | procore_document_downloader.py:166 | stripping and lower-casing commute |
| Text.Split | procore_document_downloader.py:174 | `split(sep)` gives at least one piece, no piece holds `sep`, and joining the pieces with `sep` gives the input back |
| Text.SplitJoinWith | procore_document_downloader.py:184 | splitting pieces free of `sep` after joining them with `sep` returns exactly those pieces |
| Text.Dec | procore_document_downloader.py:258 | `str(k)` is a non-empty digit string without a leading zero whose value is k |
| Text.DigitsValue | procore_document_downloader.py:131 | the value `int()` gives a string of decimal digits, most significant digit first; `Text.Dec` and `Text.ParseIntDec` tie it to `str(k)` |
| Text.ParseDigits | procore_document_downloader.py:175-176 | a digit string reads as a number iff it is non-empty and all digits |
| Text.ParseSigned | procore_document_downloader.py:175-176 | `int()` on a string without surrounding whitespace: an optional '+' or '-' followed by one or more decimal digits, negated after '-', and None (a `ValueError`) for anything else |
| Text.ParseInt | procore_document_downloader.py:131 | `int(x)`: strip the whitespace around `x`, then read it with `Text.ParseSigned`; its properties are `Text.ParseIntDec`, `Text.ParseIntStrip`, `Text.ParseIntChars` and `Text.ParseIntLower` |
| Text.ParseIntDec | procore_document_downloader.py:175-176 | `int(str(k)) == k` |
| Text.ParseIntStrip | procore_document_downloader.py:184 | `int(x.strip())` reads the same as `int(x)` |
| Text.ParseIntChars | procore_document_downloader.py:131 | a string `int()` accepts holds only digits, whitespace and signs |
| Text.ParseIntLower | procore_document_downloader.py:166 | lower-casing an answer never changes what `int()` reads from it |
| Paths.Join | procore_document_downloader.py:297 | POSIX `os.path.join` of two parts: an absolute second part replaces the first, and a '/' is inserted only when the first part is non-empty and does not end in '/' |
| Paths.ChildRel | procore_document_downloader.py:317 | `os.path.join(folder_path, subfolder_name) if folder_path else subfolder_name`: a subfolder's path relative to the project directory |
| Paths.FilePath | procore_document_downloader.py:297 | `os.path.join(base_path, folder_path, file_name)`: where a file of the folder at `folder_path` is written |
| Paths.DirPath | procore_document_downloader.py:322 | `os.path.join(base_path, new_folder_path)`: the local directory made for a subfolder |
| Paths.RelPath | procore_document_downloader.py:317 | the relative path reached by descending through a sequence of subfolder names, one `Paths.ChildRel` step per name; for plain names it is their '/'-joined path (`Paths.RelPathOfNames`) |
| Paths.ChildRelIsJoin | procore_document_downloader.py:317 | the special case for the root folder agrees with joining onto the empty path |
| Paths.RelPathOfNames | procore_document_downloader.py:317 | the relative path reached through plain folder names is those names joined by '/', after the starting path if there is one |
| Paths.DirPathOfNames | procore_document_downloader.py:322 | a folder's local directory is the base joined with the '/'-joined folder names from the root |
| Paths.FilePathOfNames | procore_document_downloader.py:297 | a file's local path is the base joined with the '/'-joined folder names and the file name; at the root this is `join(base, name)` |
| Paths.JoinExtend | procore_document_downloader.py:297 | joining a relative path and then a name equals joining their '/'-joined form |
| Paths.AbsoluteNameEscapes | procore_document_downloader.py:297 | a file name starting with '/' replaces the whole path, so the file is written outside the base directory |
| Walk.Pruned | procore_document_downloader.py:310 | the test `subfolder.get('is_deleted', False) or subfolder.get('is_recycle_bin', False)`: a deleted or recycle-bin subfolder, which the walk neither creates nor enters (see `Walk.PrunedSubfolderIgnored`) |
| Walk.Endpoint | procore_document_downloader.py:257-260 | the listing endpoint: `/folders/{id}` for a truthy folder id, `/folders` for the root (None) and for id 0 (see `Walk.EndpointNamesFolder`) |
| Walk.Walk | procore_document_downloader.py:236-326 | the ordered effect log of `process_folder`: the listing request, then nothing more if it failed, else the files' downloads and then each subfolder's run in listing order; characterised by `Walk.DownloadIff`, `Walk.MkDirIff` and `Walk.FilesBeforeSubfolders`, and implemented by `Walk.ProcessFolder` |
| Walk.FileEffect | procore_document_downloader.py:281-303 | one iteration of the files loop: a single download of `Remote.DownloadUrl`'s url to `Paths.FilePath` when that url exists, otherwise nothing |
| Walk.Segment | procore_document_downloader.py:306-326 | the subfolders loop over the listing positions lo..hi-1: each subfolder's effects appended in listing order (see `Walk.SegmentSplit`, `Walk.SegmentSource`, `Walk.SegmentIncluded`) |
| Walk.ChildEffects | procore_document_downloader.py:308-326 | one iteration of the subfolders loop: nothing for a deleted or recycle-bin subfolder, otherwise `os.makedirs` of its directory followed by the recursive `process_folder` (see `Walk.ChildMembers`) |
| Walk.EndpointNamesFolder | procore_document_downloader.py:257-260 | the root endpoint `/folders` is used iff the id is missing or 0; any other id can be read back from `/folders/{id}` |
| Walk.FileEffects | procore_document_downloader.py:280-304 | a folder's files produce at most one effect per entry, and only downloads |
| Walk.WalkStart | procore_document_downloader.py:257-277 | a walk starts by fetching the folder's endpoint; after a failed fetch it does nothing else |
| Walk.ChildEffectsStart | procore_document_downloader.py:310-326 | a pruned subfolder produces nothing. Any other subfolder first makes its directory `join(base, child path)`, then fetches `/folders/{id}` |
| Walk.ProcessFolder | procore_document_downloader.py:236-326 | the recursive loop over files and subfolders performs exactly the effects of the walk, whatever the download routine returns |
| Walk.ProcessFiles | procore_document_downloader.py:280-304 | the loop over a listing's files performs exactly the downloads of the files' specification, in order |
| Walk.FileEffectSource | procore_document_downloader.py:281-297 | every effect of a listing's files comes from one entry of the listing |
| Walk.FileEffectIncluded | procore_document_downloader.py:281-297 | every entry's effect appears among the listing's file effects |
| Walk.SegmentSource | procore_document_downloader.py:308-326 | every effect of a run of subfolders comes from one subfolder in that run |
| Walk.SegmentIncluded | procore_document_downloader.py:308-326 | every effect of a subfolder in the run appears in the run's effects |
| Walk.RelPathStep | procore_document_downloader.py:317 | descending through a first name and then the rest is descending through all of them |
| Walk.WalkMembers | procore_document_downloader.py:236-326 | an effect of a walk is its fetch, a download of its files, or an effect of one of its subfolders, and nothing else |
| Walk.ChildMembers | procore_document_downloader.py:308-326 | an effect of a subfolder is its directory or an effect of its own walk, and only if it is not pruned |
| Walk.DownloadSound | procore_document_downloader.py:236-326 | every download in the walk is of a reachable file entry, from its chosen url, to `join(base, folder path, name)` |
| Walk.DownloadComplete | procore_document_downloader.py:236-326 | every reachable file entry with a chosen url is downloaded to `join(base, folder path, name)` |
| Walk.DownloadIff | procore_document_downloader.py:236-326 | a download is in the walk iff some reachable entry delivers that url to that path. An entry is reachable through fetched folders that are not deleted and not in the recycle bin |
| Walk.MkDirSound | procore_document_downloader.py:307-326 | every directory the walk makes is that of a reachable, non-pruned subfolder |
| Walk.MkDirComplete | procore_document_downloader.py:307-326 | every reachable, non-pruned subfolder gets its directory |
| Walk.MkDirIff | procore_document_downloader.py:307-326 | a directory is made iff it is `join(base, path)` of a reachable, non-pruned subfolder |
| Walk.FileEffectsAppend | procore_document_downloader.py:281-304 | the files' downloads of two lists concatenated are the downloads of each, in order |
| Walk.SegmentSplit | procore_document_downloader.py:308-326 | subfolders are processed one after the other: a run of them splits at any point |
| Walk.SegmentShift | procore_document_downloader.py:308-326 | the effects of a run of subfolders depend only on those subfolders, not on their neighbours |
| Walk.WalkListing | procore_document_downloader.py:279-326 | a fetched folder produces its fetch, then all its files' downloads, then its subfolders' effects |
| Walk.SegmentOne | procore_document_downloader.py:308-326 | a run of one subfolder produces that subfolder's effects |
| Walk.SegmentAround | procore_document_downloader.py:308-326 | the subfolders' effects are those before subfolder i, then i's own, then those after it |
| Walk.PrunedSubfolderIgnored | procore_document_downloader.py:310-311 | a deleted or recycle-bin subfolder changes nothing: the walk equals the walk of the listing without it |
| Walk.FileEffectsSkip | procore_document_downloader.py:283-294 | a skipped file entry leaves the other files' downloads unchanged |
| Walk.SkippedFileIgnored | procore_document_downloader.py:281-294 | a skipped file (deleted, no versions, no usable url) does not stop the folder: the walk equals the walk without that entry |
| Walk.WalkAround | procore_document_downloader.py:279-326 | a folder's walk is fetch, files, subfolders before i, subfolder i, subfolders after i |
| Walk.SubtreeIsolated | procore_document_downloader.py:308-326 | replacing one subfolder's contents changes only that subfolder's part of the walk |
| Walk.FailedSubfolderIsolated | procore_document_downloader.py:262-277 | a subfolder whose fetch fails adds only its directory and its fetch: no downloads or directories below it, and its siblings are still processed |
| Walk.FileFolderCollision | procore_document_downloader.py:281-326 | a file `X` and a subfolder `X` in one listing: the log downloads `/b/X` and then makes the directory `/b/X` and requests its listing, where the source's `os.makedirs` at line 323 would raise instead |
| Walk.SegmentStart | procore_document_downloader.py:308-323 | the first effect of a run of subfolders is the directory of its first non-pruned subfolder |
| Walk.SegmentEmpty | procore_document_downloader.py:308-311 | a run of pruned subfolders produces nothing |
| Walk.FilesBeforeSubfolders | procore_document_downloader.py:279-326 | right after the fetch come all the file downloads. Next comes the directory of the first non-pruned subfolder; when every subfolder is pruned, the walk ends there |
| Selection.Canonical | procore_document_downloader.py:166 | the answer as the prompt reads it, `input(...).strip().lower()` |
| Selection.Item | procore_document_downloader.py:184 | the element expression `int(x.strip())` of the list comprehension: None where it raises `ValueError` |
| Selection.ParseAll | procore_document_downloader.py:184 | a list comprehension whose element expression may raise: all values in order, or None as soon as one element fails (see `Selection.ParseAllItems`) |
| Selection.Upto | procore_document_downloader.py:178 | the positions `lo .. hi - 1` in order, as the slice takes them |
| Selection.ParseAllItems | procore_document_downloader.py:184 | the list comprehension succeeds iff every piece reads as an integer, and then holds those integers in order |
| Selection.ZeroBased | procore_document_downloader.py:184 | each on-screen number becomes its position, order and duplicates kept |
| Selection.ParseSelection | procore_document_downloader.py:164-197 | an accepted answer only selects positions of listed projects |
| Selection.Classify | procore_document_downloader.py:170-197 | the four forms are told apart in the source's order, and each accepts only positions in the list |
| Selection.RangeChoice | procore_document_downloader.py:174 | a range must split into exactly two pieces; what it accepts is in the list |
| Selection.RangeOf | procore_document_downloader.py:175-181 | an accepted range had two integer ends, and selects only listed positions |
| Selection.ListChoice | procore_document_downloader.py:184-189 | what a comma list accepts is in the list |
| Selection.AllListed | procore_document_downloader.py:185 | the test `all(0 <= idx < len(projects) for idx in indices)`, stated on the 1-based numbers typed: every one lies in 1..n |
| Selection.ListOf | procore_document_downloader.py:185-189 | an accepted list of integers selects only listed positions |
| Selection.SingleChoice | procore_document_downloader.py:192-197 | what a single number accepts is in the list |
| Selection.NumberChoice | procore_document_downloader.py:192-197 | an accepted number selects one listed position |
| Selection.Selected | procore_document_downloader.py:186 | `[projects[i] for i in indices]`: one project per index, in order |
| Selection.CanonicalIrrelevant | procore_document_downloader.py:166 | surrounding whitespace and letter case never change what an answer selects |
| Selection.SliceIsSelected | procore_document_downloader.py:171-178 | a range's positions pick out exactly `projects[lo:hi]`, and `all` picks the whole list |
| Selection.AllSelectsEverything | procore_document_downloader.py:170-171 | `all` in any case, with any surrounding whitespace, selects the n projects once each, in order |
| Selection.NumeralCanonical | procore_document_downloader.py:166 | digits, commas and dashes are unchanged by `strip().lower()` |
| Selection.RangeRoundTrip | procore_document_downloader.py:172-181 | `a-b` selects the projects a to b, both included, when 1 <= a <= b <= n, and is refused as an invalid range otherwise |
| Selection.RangeParsed | procore_document_downloader.py:172-176 | `a-b` is read as a range with ends a and b |
| Selection.RangeSpan | procore_document_downloader.py:177-181 | the range check accepts exactly 1 <= a <= b <= n and then selects positions a-1 to b-1 |
| Selection.RangeText | procore_document_downloader.py:172-174 | `a-b` is canonical, not `all`, has a '-' and no ',', and splits into the two numerals |
| Selection.RangeTextChars | procore_document_downloader.py:166-172 | `a-b` is canonical, not `all`, has a '-' and no ',' |
| Selection.RangeTextSplit | procore_document_downloader.py:174 | `a-b` split at '-' gives exactly the two numerals |
| Selection.Numbers | procore_document_downloader.py:184 | the numerals of a list of numbers, one per number |
| Selection.ListText | procore_document_downloader.py:182-184 | a comma list of numerals is canonical, not `all`, has no '-', and has a ',' iff it has more than one number |
| Selection.ListItems | procore_document_downloader.py:184 | the comprehension reads a comma list of numerals back as those numbers |
| Selection.ListRoundTrip | procore_document_downloader.py:182-197 | a comma list of numbers (a single number being a list of one) selects their projects in the order typed, duplicates kept, when all are listed, and is refused as an invalid selection otherwise |
| Selection.AcceptedChars | procore_document_downloader.py:166-197 | apart from `all`, an accepted answer holds only digits, signs, whitespace and commas |
| Selection.SelectCompany | procore_document_downloader.py:130-139 | a company is picked iff `int()` reads a number from 1 to n, and then its position reads back as that number minus one; the refusal is invalid input exactly when `int()` fails |
| Selection.PickNumber | procore_document_downloader.py:131-135 | the company check on the value `int()` read: invalid input when there is none, the 0-based index when `0 <= int(choice) - 1 < len(companies)`, an invalid selection otherwise (see `Selection.NumberIsPick`) |
| Selection.ParseIntCanonical | procore_document_downloader.py:166 | `int()` reads an answer and its stripped, lower-cased form alike |
| Selection.CompanyMatchesSingle | procore_document_downloader.py:130-139 | an answer that is not `all`, a range or a list means the same at both prompts: the same single position or the same refusal |
| Selection.NumberIsPick | procore_document_downloader.py:131-132 | the single-number check of the project prompt is the company check |
| Selection.NegativeNumberDiffers | procore_document_downloader.py:172-176 | `-k` is an invalid selection at the company prompt. At the project prompt it is invalid input, because it is read as a range with an empty start |
| ProjectDir.Sanitize | procore_document_downloader.py:336 | `replace('/', '_')` keeps the length, turns each '/' into '_', and leaves every other character unchanged |
| ProjectDir.BaseDir | procore_document_downloader.py:336 | `os.path.join(os.getcwd(), 'procore_downloads', project_name.replace('/', '_'))`: the project's local directory (see `ProjectDir.BaseDirInDownloads`) |
| ProjectDir.ProjectEffects | procore_document_downloader.py:336-343 | the effect log of `download_project_documents`: `os.makedirs` of the base directory, then the walk of the root folder (id None, empty relative path); implemented by `ProjectDir.DownloadProjectDocuments` |
| ProjectDir.DownloadProjectDocuments | procore_document_downloader.py:329-343 | making the base directory and then walking the root folder performs exactly the project's effects |
| ProjectDir.SanitizeNoSlash | procore_document_downloader.py:336 | the sanitised name holds no '/' |
| ProjectDir.SanitizeFixed | procore_document_downloader.py:336 | a name is left unchanged iff it holds no '/' |
| ProjectDir.SanitizeIdempotent | procore_document_downloader.py:336 | sanitising twice is sanitising once |
| ProjectDir.BaseDirInDownloads | procore_document_downloader.py:336 | a non-empty project name gives one plain component directly inside `<cwd>/procore_downloads` |
| ProjectDir.ProjectDownloads | procore_document_downloader.py:336-343 | a project's downloads are exactly the deliveries of its root folder's walk into the base directory |
| ProjectDir.ProjectFileLocation | procore_document_downloader.py:336-343 | a delivered file with plain folder names and file name is downloaded to `<cwd>/procore_downloads/<sanitised name>/<folders>/<file>` |
| ProjectDir.ProjectStart | procore_document_downloader.py:336-343 | the base directory is made first, then the root listing `/folders` is fetched |
| ProjectDir.SlashNameFlattened | procore_document_downloader.py:336 | `a/b` becomes the single directory `a_b`, where joining it unchanged would nest `b` inside `a` |

## Left out

- OAuth (`get_oauth_token`): browser prompt, code entry and token request. This is I/O only.
- `api_request`, the HTTP requests in `process_folder`, and `download_file`'s streaming are I/O. The tree holds each listing's final outcome: `FetchFailed` for any request exception, including a raised HTTP error status. The download routine is a parameter whose result is ignored.
- The 429 rate-limit handling: the `Retry-After` wait and the unbounded re-request. The tree records the response once the server stops rate-limiting. A listing that is rate-limited for ever has no final outcome and is not modelled.
- The interactive loops of both prompts are not modelled. The re-prompt after a refusal and the y/n confirmation of the project selection are I/O. The model is the result of one answer.
- A missing `name` or `id` key on an entry (a `KeyError`) is not modelled. The datatypes always carry both.
- A version whose `number` is JSON `null` is not modelled. `v.get('number', 0)` at line 291 then yields `None`, and `max` raises `TypeError` once it compares that key with an integer. `process_folder` catches only `RequestException` (line 275), so the run ends in `main`'s handler (lines 415-417). `Remote.Version.number` can only be missing, which reads as 0.
- The digit limit of `int()` on Python 3.11 and later is not modelled. There, more than 4300 digits raise `ValueError` at both prompts. `Text.ParseInt` accepts digit strings of any length.
- Folder ids are non-negative integers. A negative id would be truthy and would request `/folders/-k`; it is not modelled.
- `int()` is modelled as optional whitespace, an optional sign and ASCII decimal digits. Underscores between digits and non-ASCII digits are not accepted by the model.
- Whitespace (`isspace`) and case (`lower`) are modelled on ASCII only. Unicode whitespace and non-ASCII capitals are treated like any other character.
- A project name of `..` or `.` is not neutralised by the replacement. Its directory is then not really inside `procore_downloads`; the model is textual.
- Printing, `.env` loading, `main`, and the company and project listing requests are glue around the modelled decisions.
- `os.makedirs` of a file's parent directory inside `download_file` is part of the `Download` effect and is not a separate `MkDir`.
- Walk.ChildEffects: `MkDir` is assumed to succeed. In the source the `os.makedirs` at line 323 is outside the `try` of lines 262-277, and `process_folder` catches only `RequestException`. An `OSError` there therefore ends the whole run in `main`'s handler (lines 415-417). Examples are a file of the same name downloaded just before (`Walk.FileFolderCollision`), a denied permission, or a name that is too long. `Walk.MkDirComplete`, the clause of `Walk.FailedSubfolderIsolated` that the remaining siblings are still processed, and `Walk.ProcessFolder` hold only under this assumption.
- ProjectDir.ProjectEffects: the `os.makedirs` of the base directory at line 337 is assumed to succeed. An `OSError` there also ends the whole run, including the remaining projects. `ProjectDir.DownloadProjectDocuments` and the lemmas about the project log hold only under this assumption. The `os.makedirs` inside `download_file` (line 221) is covered, because `download_file` catches every exception and returns False.
- The tree stands for a finite, acyclic folder hierarchy of bounded depth. The source bounds neither. A subfolder with id 0 requests `/folders` again (lines 257-260, see `Walk.EndpointNamesFolder`). The server then returns the root listing, and `process_folder` recurses until `RecursionError`. A hierarchy deeper than Python's recursion limit fails in the same way. Neither error is a `RequestException`, so both end the run. The model gives such a child arbitrary finite contents.
