# mangarock-api in Dafny

A model of the core of `mangarock-api`, a Go client for the MangaRock web API that downloads
the pages of a chapter and converts them to PNG. The repository ships the same code twice:
the package `pkg/mangarock` (`api.go`, `utils.go`, `model.go`) and a root copy (`mangarock.go`,
`utils.go`). Each behaviour is modelled once. The table cites the `pkg/mangarock` lines, and the
third column names the matching lines of the root copy.

The model has three parts.

- `naming.dfy` (module `Naming`) covers the page-naming rules as pure functions:
  - `NormalizeOneDigitNumber`;
  - the URL basename, `lastString(strings.Split(url, "/"))`;
  - the page file name `<padded index>-<basename>`;
  - the converter's output name `TrimSuffix(path+name, ".mri") + ".png"`.
- `storage.dfy` (module `Storage`) covers `createMangaDir`, `saveMRI`, `SaveChapter` and `ConvertMRItoPNG`:
  - They are imperative methods on a `FileSystem` object. Its state is a map from path to bytes plus a set of directory paths.
  - Each method is proved against a pure function of the old disk: `WithDir`, `SavePage`, `SaveFrom`, `ConvertEntry`, `ConvertFrom`.
  - The batch properties are lemmas about those functions.
  - The network, `os.Mkdir`, `os.Create` and the image codecs are oracles: function-typed fields of `Io` and `Codec`.
  - `log.Fatal` ends the process, so every failure stops the batch where it happened. Nothing is rolled back. `Status.Aborted(at, failure)` records where and why it stopped.
- `api.dfy` (module `Api`) covers the client from the decoded replies on:
  - the response-code gate of `post`/`get`;
  - `mangasByIDs`, `authorsByIDs`, `addAuthors`, `Latest`, `Manga`, `Mangas`, `Chapter`, `Author` and `Search`;
  - `New` and `WithOptions`.

  The server is a `Server` value: for each endpoint, a function from the request argument to the decoded reply. Errors are an `ApiError` tree that keeps the context strings `errors.Wrap` adds.

`records.dfy` (module `Records`) holds the record types of `model.go`. `outcomes.dfy` (module `Outcomes`) holds `Option` and `Result`.

Two details of the code that the model follows:

- `saveMRI` creates the directory only after the page's `http.Get` succeeds (pkg/mangarock/utils.go:79-87), so a page whose fetch fails creates nothing.
- The converter drops one trailing ".mri", if present, and appends ".png" (pkg/mangarock/utils.go:59). A name without ".mri" keeps its whole name in front of ".png".

## Model

| member | source | states |
|---|---|---|
| Naming.DecimalDigitsShape | pkg/mangarock/utils.go:114 | The digits `strconv.Itoa` prints for a non-negative number: at least one decimal digit, one digit exactly for 0..9, no leading zero except for 0 itself (root utils.go:118). |
| Naming.DecimalRoundTrip | pkg/mangarock/utils.go:114 | Reading the printed digits back as a decimal gives the number again. |
| Naming.NormalizeShape | pkg/mangarock/utils.go:111-117 | 0..9 become "0" followed by the digit; n >= 10 is plain decimal with at least two digits and no leading zero; a negative n becomes "0-" and its digits, as the `order < 10` test lets negatives through (root utils.go:115-121). |
| Naming.NormalizeRoundTrip | pkg/mangarock/utils.go:112-117 | For every index n >= 0 the padded text is all decimal digits and reads back as n. |
| Naming.NormalizeInjective | pkg/mangarock/utils.go:112-117 | Distinct indices get distinct padded texts. |
| Naming.NormalizeTwoDigits | pkg/mangarock/utils.go:113-114 | Exactly the indices 0..99 are padded to two characters, the tens digit then the units digit. |
| Naming.Split | pkg/mangarock/utils.go:85 | `strings.Split` on '/' gives at least one piece and no piece contains '/'. |
| Naming.SplitJoin | pkg/mangarock/utils.go:85 | Joining the pieces with '/' gives the URL back, so splitting loses nothing. |
| Naming.BasenameIsLastSegment | pkg/mangarock/utils.go:84-85 | `lastString(strings.Split(url, "/"))` (lastString at lines 107-109) is the suffix after the last '/'. It contains no '/'. It is the whole URL exactly when the URL has no '/', so an empty URL gives an empty basename (root utils.go:88-89,111-113). |
| Naming.PageFileNameInjective | pkg/mangarock/utils.go:84-85 | Page file names `<padded index>-<basename>` of distinct indices differ, whatever the two URLs are (root utils.go:88-89). |
| Naming.PageFileNamesOrdered | pkg/mangarock/utils.go:112-117 | For 0 <= i < j <= 99 the name of page i sorts strictly before the name of page j as Go compares strings, whatever the URLs. |
| Naming.PageFileNamesUnorderedFrom100 | pkg/mangarock/utils.go:112-117 | From 100 on the order breaks: the name of page 100 sorts before the name of page 20. |
| Naming.PngNameShape | pkg/mangarock/utils.go:59 | The output of an entry ends in ".png". For `path+name` ending in ".mri" it is that text with ".mri" dropped, then ".png" appended; for any other name it is the whole text plus ".png". It is never the input's own path (root utils.go:63). |
| Naming.PngNamesCollide | pkg/mangarock/utils.go:59 | Entries "a.mri" and "a" of one directory get the same output name. |
| Storage.CreateMangaDir | pkg/mangarock/utils.go:31-35 | The new disk is `WithDir` of the old one. The directory is added only when no file or directory is at the path and `os.Mkdir` succeeds; a failing `Mkdir` is ignored (root utils.go:35-39). |
| Storage.WithDirAgain | pkg/mangarock/utils.go:31-35 | Creating the directory again changes nothing, even after other files were written. Afterwards the directory exists exactly when it existed before or nothing was there and `Mkdir` succeeded. |
| Storage.PagePathInjective | pkg/mangarock/utils.go:84-89 | Pages with distinct indices are written to distinct paths, so no page overwrites another. |
| Storage.PagePathOutside | pkg/mangarock/utils.go:84-89 | A page outside a range of pages has a path that none of the pages in the range has. |
| Storage.PagePathsCount | pkg/mangarock/utils.go:84-89 | Pages lo..hi-1 have exactly hi - lo distinct paths. |
| Storage.SaveMRI | pkg/mangarock/utils.go:78-104 | The new disk and the reported failure are those of `SavePage`. A failed `http.Get` stops with a GET error and changes nothing. Otherwise `createMangaDir` runs first. A failed `os.Create` stops with a create error. Otherwise the file is created or truncated and holds what the body delivered; a copy cut short stops with a copy error (root utils.go:82-108). |
| Storage.SaveChapter | pkg/mangarock/utils.go:17-28 | The final disk and status are those of `SaveChapterRun`: pages are saved in index order under `path + "/"`, and the loop returns at the first failing page (root utils.go:21-32). |
| Storage.FirstUnsaved | pkg/mangarock/utils.go:20-26 | The first page from i on that is not saved whole. Every page before it is saved whole, and it is not. |
| Storage.SaveFromStatus | pkg/mangarock/utils.go:20-26 | The loop completes exactly when no page fails. Otherwise it aborts at the first page not saved whole, with the failure `saveMRI` reports for that page. |
| Storage.SaveFromFiles | pkg/mangarock/utils.go:20-26 | The files after the loop are the old files overlaid, page by page, with each payload written. A failing page that got its file keeps the partial copy; nothing is removed. |
| Storage.SaveFromDirs | pkg/mangarock/utils.go:87 | The loop creates the chapter directory once, as soon as the first page's `http.Get` succeeds, and leaves the directories alone otherwise. |
| Storage.SaveFromEffect | pkg/mangarock/utils.go:17-28 | Combines the status, the files and the directories of a run from page i on. |
| Storage.SaveChapterCompleted | pkg/mangarock/utils.go:17-28 | A chapter download completes exactly when every page is fetched whole and created. Then each page's file holds its body, and every file that is not at a page path is as it was. The chapter directory may have been created. |
| Storage.SaveChapterAborted | pkg/mangarock/utils.go:17-28 | An abort at page k means every page before k was saved whole, and page k failed with the error `saveMRI` gives (a GET error when the fetch failed). The files of all later pages, and of page k itself when it got no file, are as they were: first error wins and nothing is rolled back. |
| Storage.SaveChapterRepeat | pkg/mangarock/utils.go:17-28 | Downloading a chapter again after a complete download, with the same replies, leaves the same disk and status. |
| Storage.ChapterPagePaths | pkg/mangarock/utils.go:84-85 | A chapter of n pages gets n distinct page paths, and for n <= 100 their string order is the page order. |
| Storage.ConvertMRItoPNG | pkg/mangarock/utils.go:38-75 | The final disk and status are those of `ConvertRun`. A failed `ReadDir` stops at once. Then, entry by entry: an entry that is neither file nor directory fails to open; a directory or undecodable bytes fail to decode; a failed `os.Create` of the output stops; otherwise the output gets the encoding, or the part written before a failing encode, which stops (root utils.go:42-79). |
| Storage.ConvertEntryEffect | pkg/mangarock/utils.go:48-69 | One entry's conversion changes no directory and removes no file. The only file it may change is its own output, which exists after a success. |
| Storage.ConvertFromStatus | pkg/mangarock/utils.go:46-71 | The conversion loop either completes or aborts at one of the entries it was given. |
| Storage.ConvertFromGrows | pkg/mangarock/utils.go:46-71 | The conversion loop removes no file, so inputs are never deleted, and it creates no directory. |
| Storage.ConvertFromFrame | pkg/mangarock/utils.go:46-71 | Every file that is not the output of an entry the loop reached, up to and including the failing one, keeps its contents. |
| Storage.ConvertFromOutput | pkg/mangarock/utils.go:59-69 | Every entry before the abort (every entry, when the loop completes) has its output on disk at the end. |
| Storage.ConvertEffect | pkg/mangarock/utils.go:38-75 | For the whole conversion: an unreadable directory changes nothing. Otherwise no file is removed and no directory created, only outputs of reached entries change, and each finished entry has its output. The abort point and what each output holds are stated by `Storage.ConvertFirstFailure` and `Storage.ConvertOutputHolds`. |
| Storage.FirstFailing | pkg/mangarock/utils.go:46-71 | The first entry from i on whose open, decode, create or encode fails when it reads the given disk. Every entry before it succeeds there, and it fails. |
| Storage.EntrySameOn | pkg/mangarock/utils.go:48-69 | Whether an entry fails, and how, depends on the disk only through its own input path and the directories. |
| Storage.OutputsOutside | pkg/mangarock/utils.go:59 | An output name that none of a range of entries produces is not among their outputs. |
| Storage.ConvertFromFirstFailing | pkg/mangarock/utils.go:46-71 | When no output name is an entry's input path, run on a disk that still holds the original inputs and directories, the loop completes exactly when no entry fails on the original disk, and otherwise aborts at the first entry that fails there, with that entry's failure. |
| Storage.ConvertFirstFailure | pkg/mangarock/utils.go:38-75 | When no output name is an entry's input path, `ConvertMRItoPNG` completes exactly when no entry fails on the disk it started from. Otherwise it aborts at the first entry that fails there, with that entry's open, decode, create or encode failure (root utils.go:42-79). |
| Storage.ConvertFromOutputHolds | pkg/mangarock/utils.go:59-69 | When no output name is an entry's input path, run on a disk that still holds the original inputs and directories, each finished entry whose output no later entry shares ends with its output holding the PNG encoding of its original input. |
| Storage.ConvertOutputHolds | pkg/mangarock/utils.go:48-69 | When no output name is an entry's input path, every entry the run finished opened, decoded and encoded its input whole. Unless a later entry has the same output name, its output holds, at the end, the PNG encoding of the input as it was before the run. |
| Api.Send | pkg/mangarock/api.go:54-105 | `post`/`get` yield the reply's data exactly when the decoded code is 0. A non-zero code gives the "Response code" error with that code; transport and envelope failures are wrapped HTTP or JSON errors (root utils.go:124-176). |
| Api.Found | pkg/mangarock/api.go:159-165 | `mangasByIDs` returns at most one record per requested id. |
| Api.FoundAppend | pkg/mangarock/api.go:159-165 | The lookup keeps the order of the ids: the records for `a + b` are those for `a` followed by those for `b` (root utils.go:189-195). |
| Api.FoundMembers | pkg/mangarock/api.go:159-165 | A record is returned exactly when some requested id maps to it; ids the map lacks are skipped silently. |
| Api.FoundAllKnown | pkg/mangarock/api.go:159-165 | No id is skipped exactly when the map has every id. Then record i is the map's record for id i, duplicates included. |
| Api.Client.MangasByIds | pkg/mangarock/api.go:150-166 | Errors of the meta request are wrapped as in the source. On success the result is `Found(ids, map)`, the order-preserving filter (root utils.go:180-196). |
| Api.BagValues | pkg/mangarock/api.go:207-209 | The values of a Go map, with multiplicity: a value occurs exactly when some key maps to it, and there is one per key. |
| Api.ValuesOf | pkg/mangarock/api.go:206-209 | The `range` loop over the decoded author map appends each value once per key: the result, as a multiset, is exactly the values of the map. |
| Api.Client.AuthorsByIds | pkg/mangarock/api.go:197-211 | Errors are wrapped as in the source. On success the result lists the values of the decoded map, each as often as it occurs, in some order (root utils.go:227-241). |
| Api.IndexById | pkg/mangarock/api.go:178-181 | `authorMap` has exactly the ids of the authors as keys, and each key maps to an author with that id from the list. |
| Api.IndexByIdLast | pkg/mangarock/api.go:179-181 | When several authors share an id, the last one in the list is the one indexed. |
| Api.IndexOfListing | pkg/mangarock/api.go:178-181 | When the server keys every author by its own id, the index built from the listed values is the server's map, whatever the iteration order. |
| Api.EnrichShape | pkg/mangarock/api.go:183-191 | `addAuthors` keeps the number of mangas. Each manga keeps its old authors and gains one author per author id, in id order: the zero `Author` for an id the index lacks. `Author` becomes `Authors[0]` when there are authors and is kept otherwise; no other field changes (root utils.go:213-221). |
| Api.EnrichTwiceGrows | pkg/mangarock/api.go:183-186 | Enriching a manga with author ids twice appends its authors twice: the enrichment is not idempotent. |
| Api.EnrichesKeyed | pkg/mangarock/api.go:169-193 | When the server keys authors by their ids, the outcome of `addAuthors` is determined: the mangas enriched through the server's map. |
| Api.Client.CollectAuthorIds | pkg/mangarock/api.go:170-173 | The author ids of all mangas, concatenated in manga order. |
| Api.Client.IndexAuthors | pkg/mangarock/api.go:178-181 | The loop builds exactly `IndexById` of the author list. |
| Api.Client.EnrichAt | pkg/mangarock/api.go:183-191 | Updates manga i in place to its enriched value and leaves every other element alone. |
| Api.Client.AppendAuthorsAt | pkg/mangarock/api.go:184-186 | The inner loop appends, in place, the indexed author of each author id of manga i to its authors, in id order, and leaves every other element alone. |
| Api.Client.AddAuthors | pkg/mangarock/api.go:169-194 | A failed author lookup returns the wrapped error and leaves the mangas unchanged. Otherwise the mangas are enriched in place through the index of some listing of the decoded author map (root utils.go:199-224). |
| Api.Ids | pkg/mangarock/api.go:119-122 | The ids built by `Latest` have the length of the decoded list, and id i is the id of manga i (root mangarock.go:65-68). The same function, reading `SeriesRef` ids, gives the ids built by `Author` (api.go:273-276): one per related-series record, in order. |
| Api.Client.Latest | pkg/mangarock/api.go:110-128 | `page` is not used. A failed request is returned unwrapped. Otherwise the meta records of the listed ids are returned in list order, enriched with authors by `addAuthors`; each error has the source's context (root mangarock.go:56-74). |
| Api.Client.Manga | pkg/mangarock/api.go:131-142 | A failed request is returned unwrapped. A manga with no authors is an index-out-of-range panic. Otherwise the result is the decoded manga with `Author` set to `Authors[0]` and nothing else changed (root mangarock.go:77-88). |
| Api.Client.Mangas | pkg/mangarock/api.go:214-220 | The records of `mangasByIDs`, with its errors wrapped as "Could not get authors mangas" (root mangarock.go:91-97). |
| Api.FindChapter | pkg/mangarock/api.go:238-245 | Finds the position of the first chapter with the requested id. No position is found exactly when no chapter has that id. |
| Api.Client.Chapter | pkg/mangarock/api.go:223-246 | A panic of `Manga` passes through; other errors of `Manga` and of the pages request are wrapped as in the source. The result is the first chapter with id `cid`, with its pages replaced by the fetched list and its other fields kept. It is "Chapter not found" exactly when no chapter matches (root mangarock.go:100-123). |
| Api.Client.CollectRefIds | pkg/mangarock/api.go:273-276 | The loop builds exactly `Ids` of the related-series records: one id per record, in order. |
| Api.WithAuthor | pkg/mangarock/api.go:282-284 | Every manga gets the given author; the length and every other field are kept. |
| Api.Client.AssignAuthor | pkg/mangarock/api.go:282-284 | The assignment loop sets every manga's author to the given author and keeps the length (root mangarock.go:159-162). |
| Api.Client.Author | pkg/mangarock/api.go:249-286 | The author lookup's errors are wrapped. It is "Author with id … not found" exactly when the lookup lists no author. Otherwise the result is one of the listed authors, and the meta records of the author's related series, each with that author as `Author` (root mangarock.go:126-163). |
| Api.Client.Search | pkg/mangarock/api.go:289-302 | The ids are returned exactly when the search is answered with code 0 and data that parses. Every other outcome, a failed request included, is the same unmarshal error, because the wrapped request error is discarded (root mangarock.go:166-179). |
| Api.ConfiguredAppend | pkg/mangarock/api.go:47-49 | Options are applied in sequence: applying `a + b` is applying `a`, then `b` (root mangarock.go:46-48). |
| Api.LastOptionWins | pkg/mangarock/api.go:34-38 | With several `WithOptions`, the last one's map is the client's options map; with none, the map stays as it was (root mangarock.go:33-37). |
| Api.Client.New | pkg/mangarock/api.go:41-52 | A new client has base URL `APIURL` and the options map left by applying the options in order to an empty one (root mangarock.go:40-51). |
| Api.Client.Apply | pkg/mangarock/api.go:35-37 | The closure of `WithOptions(m)` sets the options map to `m` and leaves the base URL alone. |

## Left out

- The HTTP transport (`http.NewRequest`, `client.Do`, query encoding, response bodies) is not modelled. Each endpoint's outcome is an input: a `Reply` per request argument. URLs appear only in the error messages that contain them.
- The pipe and goroutine that stream the request body in `post` are left out. They have no observable effect.
- JSON encoding and decoding are not modelled. A reply carries the decoded value, or `None` when the data does not unmarshal into the type asked for.
- `image.Decode` and `png.Encode` are oracles (`Codec`). No MRI decoder is part of this model.
- `ioutil.ReadDir` is an input: the list of entry names, or `None` when it fails. The list's order is whatever the library gives.
- Time measurements and log output are left out.
- `log.Fatal` is modelled only as the end of the batch (`Status.Aborted`), not as the end of the process.
- Paths are compared as strings. No normalisation is done, so "a//b" and "a/b" are different paths.
- Why `os.Create` or `os.Mkdir` fails is not modelled. Their success per path is an input, and it does not depend on whether the parent directory exists.
- An `os.Stat` error other than "does not exist" is treated as an existing path.
- `Close` errors are not modelled, and neither is the PNG writer that is never closed.
- The HTTP status code of a page fetch is not modelled. The source ignores it and copies whatever body arrives.
- Go's distinction between nil and empty slices and maps is not modelled.
- `Timestamp` is an opaque integer.
- Options other than `WithOptions` are left out. `New` accepts any `func(*Client)`, but `WithOptions` is the only one the source defines. The options map it stores is never read.
- The Go `int` page index is an unbounded `nat`. A chapter cannot have enough pages to overflow it.
- Api.Client.AuthorsByIds: states the result only up to order (as a multiset), because Go's map iteration order is unspecified.
- Api.ValuesOf: states the result only up to order (as a multiset), for the same reason.
- Api.Client.AddAuthors: states the index only as that of some listing of the author map. When two listed authors share an id, which one wins depends on the iteration order. `Api.EnrichesKeyed` gives the exact result when the server keys authors by their ids.
- Api.Client.Author: states only that the returned author is one of the looked-up authors, because which one comes first depends on the map's iteration order.
- Api.Client.Latest: states the author enrichment through `Enriches`, up to the iteration order of the author map, for the same reason.
- Storage.ConvertFirstFailure: assumes that no output name is the input path of an entry, as with "a.mri" and "a.png" in one directory. When that fails, an earlier entry's output changes what a later entry reads. `ConvertMRItoPNG` still equals `ConvertRun` and `Storage.ConvertEffect` still holds, but the abort point is not stated in terms of the original disk.
- Storage.ConvertOutputHolds: makes the same assumption. It also leaves out an entry whose output a later entry shares, because the later entry overwrites that output.
- Storage.ConvertFromFirstFailing: makes the same assumption as `Storage.ConvertFirstFailure`, for the loop from any entry on. It also assumes that the directories are those of the original disk, which holds because the loop creates none (`Storage.ConvertFromGrows`).
- Storage.ConvertFromOutputHolds: makes the same two assumptions as `Storage.ConvertFromFirstFailing`, and leaves out an entry whose output a later entry shares, as `Storage.ConvertOutputHolds` does.
- `os.Open` in the converter is not an oracle. Every path that is a file or a directory opens, and any other path fails. Opens that fail for other reasons cannot happen in the model. Examples are a missing permission, or running out of file descriptors because the loop never closes its files.
- The index panic of `Manga` on a manga without authors is modelled as the error value `IndexOutOfRange`, not as a panic of the process.
- The `Author` loop over the decoded mangas updates a local sequence, not a shared slice. The slice is fresh there, so no other code can see the difference.
