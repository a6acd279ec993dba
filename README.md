# pGallery in Dafny

pGallery mirrors a Pixiv user's bookmarks into a local directory tree
(`<base>/<artistID>/<artworkID>/p<i>.<ext>` plus `artwork.yaml` and
`artist.yaml`). It builds an `index.json` of that tree and serves it as a
small web gallery. This project models the sequential core of the program
and proves properties of it. Each module follows one source file:

- `Downloader` models `utils/downloader.go`:
  - the eight-way split of a file into byte ranges;
  - the `Range` header each part sends;
  - the chunk loop that writes a part into the pre-sized file (a `File` object whose content `WriteAt` changes in place);
  - the running progress total;
  - the HEAD checks before anything is created;
  - the choice between the built-in downloader and aria2c, and the five-attempt retry.
- `WebServer` models `handleHome` of `web/server.go`: page and limit normalisation, the artist/tag filter, the sort by ID, the page window and the filter caption.
- `Gallery` holds the handlers that the server revisions share: the artist and tag lists sorted by count, the artwork page and its per-page image search. It also holds the in-place insertion sorts that stand for `sort.Slice`.
- `InternalWeb` models `handleHome` of `internal/web/server.go` and `internal/cli/webui.go`. The two are identical.
- `CmdWebui` models the handlers of `cmd/webui.go` over the store of `model/index.go`.
- `IndexBuilder` models `cmd/build.go`. The directory tree is an input value, and the three indexes are built by the same nested loops.
- `SyncPlan` models `internal/cli/sync.go`:
  - the bookmark pages;
  - the page, URL and task-ID construction;
  - the avatar URL rewrite;
  - the downloaded-ID set that makes a sync skip finished artworks;
  - the completion callbacks.
- `ProgressUI` models `utils/ui.go`. The registry of running downloads is a class whose methods change its task list, progress map and log in place. The rows that `renderUI` draws are modelled too.
- `Picture` models `internal/utils/picture.go`: the extension fix that renames a file after the format it decodes as.

The helper modules:

- `Text` holds the Go library functions the code relies on: byte-wise string `<`, `strconv.Itoa`, `strings.Replace` and `Join`, and a separator-only `filepath.Join`.
- `Collections` holds loops over Go maps, whose iteration order is unspecified; they are stated up to order. It also holds `Repeat`, n copies of a value, which the progress bar and the tag index share.
- `Model` holds the records.
- `Arith` holds three facts about division.

Go's byte-wise string order is defined explicitly (`Text.Less`) because IDs are compared as strings: "10" sorts before "9". `sort.Slice` is not stable, so every sort is specified as sorted plus a permutation of its input.

Every response from Pixiv, every HEAD/GET response and every file-system outcome is an input value. A failure becomes an `Option`, an error datatype or a flag.

## Model

| member | source | states |
|---|---|---|
| Downloader.SegmentsContiguous | utils/downloader.go:120-134 | segment i starts at boundary i and ends one before boundary i+1; boundaries are non-decreasing from 0 |
| Downloader.SegmentOwner | utils/downloader.go:120-134 | every byte of the file lies in exactly one segment, the one Owner names (both directions) |
| Downloader.SegmentSizes | utils/downloader.go:120-134 | segments 0–6 have fileSize/8 bytes, the last fileSize/8 + fileSize%8 |
| Downloader.LastSegmentOfAMillion | utils/downloader.go:127-134 | for 1,000,000 bytes the last segment is [875000, 999999] |
| Downloader.SmallFileSegments | utils/downloader.go:127-134 | below 8 bytes segments 0–6 are [0, -1] and segment 7 covers the file |
| Downloader.NonEmptyRangeValid | utils/downloader.go:173 | the Range header of a non-empty segment is a valid byte-range-spec |
| Downloader.EmptyRangeInvalid | utils/downloader.go:173 | the header of an empty segment is "bytes=0--1", which is not a valid range |
| Downloader.RequestedAsWritten | utils/downloader.go:124-141 | the eight Range headers as the loop sends them, one per segment |
| Downloader.SmallFileSendsInvalidRange | utils/downloader.go:120-141 | for a file of under 8 bytes, parts 0–6 request an invalid range (and all 8 do for an empty file) |
| Downloader.RequestedRangesValid | utils/downloader.go:120-141 | with empty segments skipped, every requested range is valid |
| Downloader.NothingSkippedFromEightBytes | utils/downloader.go:120-141 | from 8 bytes on the skipping changes nothing: the requests are exactly the as-written ones |
| Downloader.Overwrite | utils/downloader.go:189 | WriteAt semantics: bytes before the offset kept, data placed, bytes after kept, zero fill past the end, empty write a no-op |
| Downloader.OverwriteConcat | utils/downloader.go:186-195 | writing a then b at the next offset equals writing a+b |
| Downloader.File.WriteAt | utils/downloader.go:189 | the file content becomes Overwrite of the old content |
| Downloader.DeltasSumToPlaced | utils/downloader.go:194-195 | the progress reported by a part sums to the bytes it wrote, each report positive |
| Downloader.FailureStopsPart | utils/downloader.go:189-192 | a failed write ends the part: only the chunks before it are placed |
| Downloader.DownloadPart | utils/downloader.go:165-206 | sends Range start-end, writes the body chunk by chunk from start, stops at the first failure, reports every written chunk's size |
| Downloader.WriteBody | utils/downloader.go:183-205 | each chunk read is written right after the previous one from start, so the file becomes the old contents overwritten at start by the chunks read up to the first failure; every written chunk's size is reported |
| Downloader.CreateAndFill | utils/downloader.go:100-162 | the directory is created; a failed Create leaves the files alone, a negative size fails Truncate leaving an empty file; otherwise the file holds the assembled parts and the progress and requests are those of the 8 parts |
| Downloader.SimpleDownload | utils/downloader.go:73-162 | the HEAD checks fail before anything is created, each with its own error; then MkdirAll, Create and Truncate, each failure with its own error and the disk left as that step leaves it; once the parts ran, success, with the file equal to the assembled parts and the progress equal to the bytes written; the directories and files after every outcome |
| Downloader.RunParts | utils/downloader.go:119-158 | runs the non-empty segments in order; the file, progress and requests are the assembled ones |
| Downloader.RunPartsAsWritten | utils/downloader.go:119-158 | the loop as written: all eight parts run, empty ones included, each written from its start; the file, progress and requests are the as-written ones |
| Downloader.RunPartAsWritten | utils/downloader.go:124-147 | one turn of that loop: part i's range is requested, its body written from its start and its bytes added to the total |
| Downloader.RequestedUpToAll | utils/downloader.go:124-141 | the ranges the eight turns of the loop ask for are the eight as-written headers |
| Downloader.PartsAgreeFromEightBytes | utils/downloader.go:120-141 | from 8 bytes on no part is empty, so skipping empty parts gives the same file and progress as the loop as written |
| Downloader.EmptyFileGrowsAsWritten | utils/downloader.go:113-141 | for an empty file, when only part 0 gets a body, the loop as written leaves that body in the file and counts its length, whereas skipping empty parts leaves the file empty |
| Downloader.AddUp | utils/downloader.go:145-147 | the progress total is the sum of the reported sizes |
| Downloader.HonestServerReassembles | utils/downloader.go:120-160 | when every part returns its segment of a source, the file equals the source and the progress its size |
| Downloader.AssembledKeepsSize | utils/downloader.go:113-116 | parts that stay within the file keep its pre-allocated size |
| Downloader.Download | utils/downloader.go:27-70 | missing aria2c is fatal and touches nothing; "built-in" runs simpleDownload once, returns whether it succeeded and leaves the disk as simpleDownload does; aria2c gets at most 5 attempts, returns true at the first success, fatal after 5 failures, and leaves the disk as its runs left it |
| Downloader.Aria2cOnlyTouchesTarget | utils/downloader.go:40-46 | aria2c runs write only savePath/fileName: every other path keeps its presence and content |
| Downloader.Aria2cLastRunWins | utils/downloader.go:40-46 | with --allow-overwrite=true the target holds what the last run that left something wrote |
| Downloader.Aria2cNothingLeft | utils/downloader.go:40-46 | runs that leave nothing leave the files as they were |
| WebServer.NormalizePage | web/server.go:112-118 | page defaults to 1 and any value below 1 becomes 1 |
| WebServer.NormalizeLimit | web/server.go:120-126 | limit defaults to 20 and any value below 1 becomes 20 |
| WebServer.Paginate | web/server.go:177-192 | page clamped to totalPages when there are pages; 0 <= start <= end <= total, end-start <= limit, empty with no items; hasPrev/hasNext/prev/next as the page says |
| WebServer.TotalPagesIsCeiling | web/server.go:178 | totalPages is the ceiling of totalItems/limit |
| WebServer.ItemOnItsPage | web/server.go:177-192 | item j is shown on page j/limit + 1 |
| WebServer.PagesAdjacent | web/server.go:183-192 | page p+1 starts where page p ends |
| WebServer.KeepIdsMembers | web/server.go:150-160 | the intersection keeps exactly the artist's cards whose ID is in the tag list |
| WebServer.Filter | web/server.go:132-168 | no filter: every indexed artwork; one filter: that list; both: the artist list restricted to IDs in the tag list, in artist order; unknown keys give nothing |
| WebServer.FilterText | web/server.go:194-214 | "Artist: <id or name>" and "Tag: <tag>" joined by ", " |
| WebServer.HandleHome | web/server.go:105-238 | the filtered artworks sorted by ID descending, a permutation of the selection, and the view of the requested page |
| Gallery.SortByIdDesc | web/server.go:171-174 | in place: IDs non-increasing in byte order, a permutation of the input |
| Gallery.SortedById | web/server.go:171-174 | the sorted copy: descending by ID, same multiset |
| Gallery.SortByCountDesc | web/server.go:254-256 | in place: counts non-increasing, a permutation of the input |
| Gallery.SortedByCount | web/server.go:254-256 | the sorted copy: counts non-increasing, same multiset |
| Gallery.TagList | web/server.go:267-288 | one item per tag, label = value = tag, count = list length, sorted by count |
| Gallery.ArtistList | web/server.go:240-265 | one item per artist, label = name or ID when empty, value = ID, count = artworks, sorted by count |
| Gallery.PagePrefixUnique | web/server.go:339-342 | a file name starts with the "p<i>." prefix of at most one page |
| Gallery.PageOneNotPageTen | web/server.go:339-342 | "p1." does not match "p10.jpg", "p10." does |
| Gallery.FirstWithPrefix | web/server.go:340-349 | the found file is listed and has the prefix; none found means no listed file has it |
| Gallery.FirstMatch | web/server.go:340-349 | the file found is the first listed one with the prefix |
| Gallery.PageImagesBound | web/server.go:338-353 | at most one image per page |
| Gallery.PagesPickDistinctFiles | web/server.go:338-353 | two pages never pick the same file |
| Gallery.FindImages | web/server.go:338-353 | the per-page search result, in page order, at most PageCount entries |
| Gallery.HandleArtwork | web/server.go:302-371 | 400 for an empty id, 404 for an unknown one, 500 for an unreadable artwork.yaml, else the detail with the page images |
| InternalWeb.HandleHome | internal/web/server.go:94-138 | artist over tag; unknown artist gives [] and "Artist ID: <id>", a named one "Artist: <name>"; no filter lists all; sorted by ID descending, a permutation |
| CmdWebui.HandleHome | cmd/webui.go:158-202 | artist list with "Artist ID: <id>" and no name lookup, else tag list with "Tag: <tag>", else all; sorted by ID descending, a permutation |
| CmdWebui.ArtistList | cmd/webui.go:204-225 | one item per artist ID, label = value = ID, count = list length, sorted by count |
| IndexBuilder.Build | cmd/build.go:19-112 | unreadable base is fatal; otherwise the store indexes exactly the readable artworks, and each artist without artist.yaml warns |
| IndexBuilder.IndexedOfMembers | cmd/build.go:34-71 | an artwork is indexed iff its artist and artwork entries are directories, the artist directory is readable and its artwork.yaml parses |
| IndexBuilder.MissingArtistYamlMembers | cmd/build.go:41-44 | a warning is issued exactly for artist directories without artist.yaml |
| IndexBuilder.IndexArtist | cmd/build.go:52-97 | the inner loop adds the artist's indexable artworks in order |
| IndexBuilder.AddArtwork | cmd/build.go:61-95 | one artwork's card and tags are added to the three indexes |
| IndexBuilder.AppendToTags | cmd/build.go:93-95 | the card is appended to the list of every tag entry, once per entry |
| IndexBuilder.FindThumbnail | cmd/build.go:82-88 | the first "p0." file |
| IndexBuilder.ArtistIndexLists | cmd/build.go:90-91 | an artist's list is its cards in indexing order; the key exists iff it has one |
| IndexBuilder.CardsOfArtistAreHis | cmd/build.go:90-91 | every card under artist a has ArtistID a |
| IndexBuilder.ArtistIndexConsistent | cmd/build.go:90-91 | every card stored under an artist key belongs to that artist |
| IndexBuilder.ArtistIndexTotal | cmd/build.go:90-91 | the artist lists together hold as many cards as artworks indexed |
| IndexBuilder.ArtworkIndexLastWins | cmd/build.go:90 | an ID is indexed iff some artwork has it, and holds the card of the last such artwork |
| IndexBuilder.AddTagsCounts | cmd/build.go:93-95 | adding one artwork keeps each tag's old list and appends exactly one copy of the card per entry of that tag |
| IndexBuilder.TagIndexCounts | cmd/build.go:93-95 | a tag's list is, in indexing order, each artwork's card once per entry of the tag; so each card occurs exactly as often as the entries naming the tag among artworks with that card, the length is the number of such entries, and no other card occurs |
| SyncPlan.TotalPages | internal/cli/sync.go:57 | the least number of 48-item pages holding a positive total; none for a total of 0 or below |
| SyncPlan.OffsetsCoverTotal | internal/cli/sync.go:76-80 | bookmark x lies on requested page x/48, within [i*48, (i+1)*48) |
| SyncPlan.CollectBookmarks | internal/cli/sync.go:76-98 | page i requested at offset i*48; artworkList and artistPFP are the ones the page responses give |
| SyncPlan.ListedConcat | internal/cli/sync.go:87-96 | the artwork list of consecutive pages is their lists concatenated |
| SyncPlan.FailedPageSkipped | internal/cli/sync.go:81-85 | a failed page request contributes nothing |
| SyncPlan.EveryWorkListed | internal/cli/sync.go:87-96 | every entry of every page that came back is listed |
| SyncPlan.LastAvatarWins | internal/cli/sync.go:94 | an artist's avatar comes from its last entry; later entries overwrite |
| SyncPlan.AvatarsKeys | internal/cli/sync.go:94 | an artist has an avatar iff some entry names it |
| SyncPlan.AvatarUrlKeepsOthers | internal/cli/sync.go:94 | a URL without "_50." is kept unchanged |
| SyncPlan.AvatarUrlResized | internal/cli/sync.go:94 | the first "_50." becomes "_170." with the text before it kept, and the rest is rewritten the same way |
| SyncPlan.AvatarUrlExample | internal/cli/sync.go:94 | "_50." is rewritten to "_170." |
| SyncPlan.AddWorks | internal/cli/sync.go:87-96 | one page appends its IDs in order and sets its avatars |
| SyncPlan.LoadDownloaded | internal/cli/sync.go:63-74 | the downloaded set is the saved IDs, empty when the record is missing or malformed |
| SyncPlan.PlanPages | internal/cli/sync.go:134-176 | exactly pageCount tasks, page i named "p<i>.<last 3 URL chars>" with URL "_p0." → "_p<i>." and ID "<artwork>_<file>"; a panic when a page needs an extension and the URL is shorter than 3 |
| SyncPlan.PageZeroUrl | internal/cli/sync.go:138 | page 0 uses the original URL |
| SyncPlan.PageUrlExample | internal/cli/sync.go:138 | "x_p0.png" becomes "x_p3.png" for page 3 |
| SyncPlan.PageFileNamesDistinct | internal/cli/sync.go:137 | different pages get different file names |
| SyncPlan.ArtworkPageFindsEveryPage | internal/cli/sync.go:137 | the artwork page's "p<i>." search finds page i's file among the synced files |
| SyncPlan.IntStringInjective | internal/cli/sync.go:122 | the Itoa text of an ID determines the ID |
| SyncPlan.PageTaskIdsDistinct | internal/cli/sync.go:144 | two page tasks share an ID only for the same page of the same artwork |
| SyncPlan.AvatarIdNotPageId | internal/cli/sync.go:144-184 | an avatar task ID "<artist>(pfp)" is never a page task ID |
| SyncPlan.ProcessArtwork | internal/cli/sync.go:102-206 | one artwork: skipped when downloaded, unmarked on request, API or mkdir failure, else page tasks, avatar task when its URL is non-empty, and the mark |
| SyncPlan.ProcessArtworks | internal/cli/sync.go:102-273 | the whole loop; the record written after each mark holds exactly the downloaded set |
| SyncPlan.RunKeepsRecord | internal/cli/sync.go:103-106 | downloaded = loaded + marked (each mark being the append at line 259); no artwork marked twice or when already downloaded |
| SyncPlan.MarkedWereFetched | internal/cli/sync.go:109-131 | (the mark being the append at line 259) an artwork is marked only after a turn whose request, API and folder creation succeeded |
| SyncPlan.PanicStops | internal/cli/sync.go:136 | after the extension panic nothing further happens |
| SyncPlan.PageCompleted | internal/cli/sync.go:155-173 | page callback as written: fatal iff the download failed; a failed folder-image copy of page 0 is logged |
| SyncPlan.RenamedFirstPageGetsNoFolderImage | internal/cli/sync.go:157-170 | a renamed first page leaves no folder image and logs a failure |
| SyncPlan.PageCompletedFixed | internal/cli/sync.go:155-173 | page callback copying from the renamed file: fatal iff the download failed; a failed folder-image copy of page 0 is logged |
| SyncPlan.FirstPageGetsFolderImage | internal/cli/sync.go:164-170 | with the copy from the renamed file, a fixed first page whose copy does not fail yields the folder image and logs nothing |
| SyncPlan.AvatarCompleted | internal/cli/sync.go:194-203 | an avatar failure is only logged, never fatal |
| ProgressUI.AddedProperties | utils/ui.go:76-86 | adding keeps the list duplicate-free, is idempotent and makes the id present |
| ProgressUI.RemovedProperties | utils/ui.go:96-106 | removing drops the id, keeps the others in order, keeps the list duplicate-free; an absent id changes nothing |
| ProgressUI.AddThenRemove | utils/ui.go:76-106 | removing an id just added restores the list |
| ProgressUI.Registry.Log | utils/ui.go:69-73 | the message is appended to the pending logs |
| ProgressUI.Registry.AddDownload | utils/ui.go:76-86 | a known id changes nothing; a new one goes at the end with progress 0; invariant kept |
| ProgressUI.Registry.UpdateDownload | utils/ui.go:89-93 | sets the progress of any id; the task list is unchanged |
| ProgressUI.Registry.RemoveDownload | utils/ui.go:96-106 | the first match removed, the progress entry deleted; invariant kept |
| ProgressUI.Registry.Render | utils/ui.go:108-154 | prints the pending logs in order and empties them; one row per task; 0 lines with no task, else 2 + tasks |
| ProgressUI.Bars | utils/ui.go:129-135 | the bar count is percent/10 clamped to [0, 10] |
| ProgressUI.BarString | utils/ui.go:136-140 | exactly 10 characters: the '=' signs, then '>' and spaces when not full |
| ProgressUI.DisplayId | utils/ui.go:143-146 | ids over 20 characters show as "..." and their last 17 (20 in all); shorter ones unchanged |
| ProgressUI.RowWidths | utils/ui.go:143-148 | every row has a 20-character id column and a 10-character bar |
| ProgressUI.RenderRow | utils/ui.go:128-148 | the loop body computes the row RowOf specifies |
| ProgressUI.RenderRows | utils/ui.go:127-150 | one row per task, row i showing task i with its progress (0 when it has none) |
| Picture.Ext | internal/utils/picture.go:25 | filepath.Ext: a suffix, "" or '.' followed by no '.' or '/'; "" only when every '.' is followed by a '/' |
| Picture.ModifyPictureExtension | internal/utils/picture.go:14-41 | access and decode errors rename nothing; kept iff the lowercased extension is the target; else renamed to the target path, an error when the rename fails |
| Picture.StemKept | internal/utils/picture.go:32-33 | with a lower-case extension the stem is kept and the extension swapped |
| Picture.NoExtensionAppends | internal/utils/picture.go:32-33 | without an extension the target is appended |
| Picture.UpperCaseExtensionKept | internal/utils/picture.go:25-33 | "a.PNG" decoded as jpeg becomes "a.PNG.jpg" |
| Picture.DotInDirectoryIgnored | internal/utils/picture.go:25 | a '.' before the last '/' starts no extension |
| Picture.RenameSwapsExtension | internal/utils/picture.go:25-37 | a lower-case extension other than the target is replaced by the target, the stem kept; RenameError instead when the rename fails |
| Picture.RenameIdempotent | internal/utils/picture.go:14-41 | a renamed file is not renamed again |
| Text.LessTotal | web/server.go:172-174 | byte-wise string order is total |
| Text.LessTransitive | web/server.go:172-174 | and transitive |
| Text.NineAfterTen | web/server.go:172-174 | "10" sorts before "9" |
| Text.NatStringRoundTrip | internal/cli/sync.go:137 | Itoa text parses back to the number |
| Text.ReplaceAllAbsent | internal/cli/sync.go:94 | strings.ReplaceAll leaves a string without the pattern unchanged |
| Text.ReplaceAllFirst | internal/cli/sync.go:94 | strings.ReplaceAll replaces the leftmost occurrence, keeps the text before it, and continues after it |
| Collections.CollectValues | web/server.go:132-136 | the values of a map in some order: the same multiset |
| Collections.CollectKeys | internal/cli/sync.go:262-265 | the keys of a set in some order, each once |

## Left out

- Goroutines, the WaitGroup, the progress channel and the UI mutex and ticker: the parts are run one after another, in part order; each UI operation runs alone. The parts write disjoint ranges only when each body stays within its segment; otherwise the writes may overlap and the order modelled is one of those the goroutines may produce.
- HTTP traffic, the Pixiv API client, the aria2c runs and checkAria2c's `aria2c --version` run: their results are inputs (responses, chunks, per-attempt success and the content each attempt leaves at the target, aria2c present or not).
- HTML templates, handler registration, the static file server and `url.Values` encoding: rendering, not logic.
- YAML and JSON (un)marshalling and os.ReadDir/ReadFile/WriteFile/Rename/CopyFile: their results are inputs (the directory tree, `YamlRead`, the saved ID list, the decoded format, failure flags, and `copyFails` for the folder-image copy).
- The artwork.yaml and artist.yaml writes of a sync (internal/cli/sync.go:209-256): records of API fields, and their failures end the program; not modelled.
- The download manager of internal/cli/sync.go:37 is not part of this model: only the tasks handed to it and the callbacks it runs are.
- Floating-point printing of sizes and percentages; the percent itself is a `real`.
- Strings are sequences of characters, while Go's `len` and slicing count bytes: `ProgressUI.DisplayId` (utils/ui.go:144-145) and the last-three-characters extension and its panic in `SyncPlan.PlanPages`, `UrlExt` and `Step` (internal/cli/sync.go:136) agree with Go only on ASCII text, which artwork IDs, task IDs and Pixiv image URLs are.
- `strings.ToLower` beyond ASCII letters; `filepath.Join`'s cleaning of `..`, `.` and double separators (paths are joined with one '/').
- 64-bit integer overflow and `strconv.ParseInt`'s clamping of out-of-range values: integers are unbounded.
- `sort.Slice` sorting the store's own slice in place, which reorders `ArtistIndex`/`TagIndex` lists across requests: each request sorts a copy.
- Writes that store fewer bytes than asked: a write either stores the chunk or fails.
- ProgressUI.Bars: Go converts percent/10 by truncation and the model by floor; after the clamp to [0, 10] both give the same count.
- Downloader.SimpleDownload: models the corrected partition (empty parts skipped), not the as-written one, which `RequestedAsWritten` keeps.
- Downloader.Download: what aria2c writes is not modelled beyond the content each attempt leaves at savePath/fileName, which is an input; its temporary control files and the directory it creates without leaving a file are left out, and savePath is taken to exist once a run has left a file in it.
- Downloader.Download: the "built-in" branch runs `SimpleDownload`, so its disk (`FilesAfter`, built from `Assembled`) is the corrected one; below 8 bytes, including the size 0 that a missing or unparseable Content-Length gives, Go's file is the as-written one of `RunPartsAsWritten` (see `EmptyFileGrowsAsWritten`).
- Downloader.RunParts: skips the empty segments, which the loop as written runs too; `RunPartsAsWritten` models the loop with no skip, and `PartsAgreeFromEightBytes` shows that the two agree for files of 8 bytes or more.
- Downloader.CreateAndFill: fills the file through `RunParts`, so below 8 bytes it states the corrected result, not the as-written one of `RunPartsAsWritten` (see `EmptyFileGrowsAsWritten` for where they differ).
- SyncPlan.ProcessArtworks: a panic ends the loop; the deferred wait for running downloads is not modelled.
- The start of a sync before the bookmark loop (internal/cli/sync.go:40-54): the fatal exits when the base directory cannot be created, the first bookmark request fails or the API reports an error are not modelled; `CollectBookmarks` starts from the total that request gives.
- IndexBuilder.Build: ends with the store it built; the `LastIndexed` timestamp (cmd/build.go:99, a clock read, so `Model.IndexStore` has no such field) and the marshalling and writing of index.json with their fatal exits (cmd/build.go:101-109) are not modelled.
- The `log.Printf`/`UILog` messages of a sync, apart from whether a callback logs a failure.

## Findings

| source | as written | input that shows it | evidently intended | confidence | as-written member | corrected member |
|---|---|---|---|---|---|---|
| utils/downloader.go:120-141 | for a file of under 8 bytes the part size is 0, so parts 0–6 get end = start − 1 and send `Range: bytes=0--1` | fileSize = 5: parts 0–6 send "bytes=0--1", not a valid byte-range-spec (section 14.1.2 of RFC 9110) | empty parts send no request | not executed | Downloader.SmallFileSendsInvalidRange | Downloader.RequestedRangesValid |
| internal/cli/sync.go:157-170 | the folder image is copied from the path the page was saved under, after ModifyPictureExtension may have renamed it | page 0 saved as "d/p0.jpg" with PNG contents is renamed to "d/p0.png"; the copy then reads "d/p0.jpg", fails, and no folder image is made | copy the first page from wherever the extension fix left it | not executed | SyncPlan.RenamedFirstPageGetsNoFolderImage | SyncPlan.FirstPageGetsFolderImage |
