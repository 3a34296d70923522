/**
 * The downloader and the converter over an abstract filesystem (pkg/mangarock/utils.go,
 * copied in the root utils.go).
 *
 * The filesystem is a `FileSystem` object: a map from path to contents and a set of
 * directory paths. Paths are plain strings, compared as written (no normalisation).
 * The network and the image codecs are oracles: `Io.fetch` says what `http.Get` plus
 * `io.Copy` deliver for a URL, `Io.mkdirOk` / `Io.createOk` / `Codec.createOk` whether
 * `os.Mkdir` / `os.Create` succeed on a path, `Codec.decode` / `Codec.encode` what
 * `image.Decode` / `png.Encode` produce.
 *
 * Every failure of these loops goes through `log.Fatal`, which ends the process: the batch
 * stops at the first failure and whatever was written stays on disk. `Status.Aborted`
 * records where and why it stopped.
 */
module Storage {
  import opened Outcomes
  import opened Records
  import opened Naming

  type Bytes = seq<bv8>

  /** The state of the filesystem. */
  datatype Disk = Disk(files: map<string, Bytes>, dirs: set<string>)

  class FileSystem {
    var files: map<string, Bytes>
    var dirs: set<string>

    constructor (d: Disk)
      ensures Contents() == d
    {
      files, dirs := d.files, d.dirs;
    }

    function Contents(): Disk
      reads this
    {
      Disk(files, dirs)
    }
  }

  /** What fetching a page delivers: the whole body, a failed `http.Get`, or a copy cut short. */
  datatype Fetch = Fetched(body: Bytes) | GetFailed | CopyFailed(copied: Bytes)

  /** The bytes that end up in the page file once its copy has started. */
  function Payload(f: Fetch): Bytes {
    match f
    case Fetched(b) => b
    case CopyFailed(b) => b
    case GetFailed => []
  }

  datatype Io = Io(fetch: string -> Fetch, mkdirOk: string -> bool, createOk: string -> bool)

  datatype Failure =
    | GetError(url: string)
    | CreateError(path: string)
    | CopyError(path: string)
    | OpenError(path: string)
    | DecodeError(path: string)
    | EncodeError(path: string)

  datatype Status = Completed | Aborted(at: nat, failure: Failure) | Unlisted(dir: string)

  /** The result of one step: the new disk, and the failure that stops the batch, if any. */
  datatype Step = Step(disk: Disk, failure: Option<Failure>)

  /** The result of a whole batch. */
  datatype Run = Run(disk: Disk, status: Status)

  /** The file at `key`, or its absence, is left as it was. */
  predicate Untouched(before: Disk, after: Disk, key: string) {
    && (key in after.files <==> key in before.files)
    && (key in before.files ==> after.files[key] == before.files[key])
  }

  // ---------------------------------------------------------------------------
  // createMangaDir
  // ---------------------------------------------------------------------------

  /** The disk after `createMangaDir(dir)`: the directory is made only if nothing is there. */
  function WithDir(d: Disk, dir: string, mkdirOk: string -> bool): Disk {
    if dir in d.dirs || dir in d.files || !mkdirOk(dir) then d
    else Disk(d.files, d.dirs + {dir})
  }

  method CreateMangaDir(fs: FileSystem, path: string, mkdirOk: string -> bool)
    modifies fs
    ensures fs.Contents() == WithDir(old(fs.Contents()), path, mkdirOk)
  {
    if path !in fs.dirs && path !in fs.files {
      // os.Stat reported that nothing exists; a failing os.Mkdir is ignored
      if mkdirOk(path) {
        fs.dirs := fs.dirs + {path};
      }
    }
  }

  /**
   * Directory creation is idempotent: once it has run, running it again changes nothing,
   * even after files other than the directory itself were written.
   */
  lemma WithDirAgain(d: Disk, later: Disk, dir: string, mkdirOk: string -> bool)
    requires later.dirs == WithDir(d, dir, mkdirOk).dirs
    requires dir in d.files ==> dir in later.files
    ensures WithDir(later, dir, mkdirOk) == later
    ensures dir in later.dirs <==> dir in d.dirs || (dir !in d.files && mkdirOk(dir))
  {
  }

  // ---------------------------------------------------------------------------
  // saveMRI and SaveChapter
  // ---------------------------------------------------------------------------

  /** Where page `index` of a chapter fetched from `url` is stored under `dir`. */
  function PagePath(dir: string, index: nat, url: string): string {
    dir + PageFileName(index, url)
  }

  /** Page `index` gets a file: its `http.Get` worked and `os.Create` worked. */
  predicate Touched(dir: string, index: nat, url: string, io: Io) {
    !io.fetch(url).GetFailed? && io.createOk(PagePath(dir, index, url))
  }

  /** Page `index` is saved whole. */
  predicate Saved(dir: string, index: nat, url: string, io: Io) {
    io.fetch(url).Fetched? && io.createOk(PagePath(dir, index, url))
  }

  /** What `saveMRI(index, url, dir)` does to the disk, and how it fails. */
  function SavePage(d: Disk, dir: string, index: nat, url: string, io: Io): Step {
    var f := io.fetch(url);
    if f.GetFailed? then Step(d, Some(GetError(url)))
    else
      var d1 := WithDir(d, dir, io.mkdirOk);
      var target := PagePath(dir, index, url);
      if !io.createOk(target) then Step(d1, Some(CreateError(target)))
      else
        var d2 := Disk(d1.files[target := Payload(f)], d1.dirs);
        if f.CopyFailed? then Step(d2, Some(CopyError(target))) else Step(d2, None)
  }

  /** The failure `saveMRI` reports for a page that is not saved. */
  function PageFailure(dir: string, index: nat, url: string, io: Io): Failure {
    if io.fetch(url).GetFailed? then GetError(url)
    else if !io.createOk(PagePath(dir, index, url)) then CreateError(PagePath(dir, index, url))
    else CopyError(PagePath(dir, index, url))
  }

  /** The `SaveChapter` loop from page `i` on. */
  function SaveFrom(d: Disk, dir: string, pages: seq<string>, i: nat, io: Io): Run
    requires i <= |pages|
    decreases |pages| - i
  {
    if i == |pages| then Run(d, Completed)
    else
      var s := SavePage(d, dir, i, pages[i], io);
      if s.failure.Some? then Run(s.disk, Aborted(i, s.failure.value))
      else SaveFrom(s.disk, dir, pages, i + 1, io)
  }

  /** `SaveChapter(chapter, path)`: the pages go under `path + "/"`. */
  function SaveChapterRun(d: Disk, chapter: Chapter, path: string, io: Io): Run {
    SaveFrom(d, path + "/", chapter.pages, 0, io)
  }

  method SaveMRI(fs: FileSystem, index: nat, url: string, path: string, io: Io)
    returns (failure: Option<Failure>)
    modifies fs
    ensures Step(fs.Contents(), failure) == SavePage(old(fs.Contents()), path, index, url, io)
  {
    var response := io.fetch(url);
    if response.GetFailed? {
      return Some(GetError(url));
    }
    var filename := NormalizeOneDigitNumber(index) + "-" + LastString(Split(url, '/'));
    CreateMangaDir(fs, path, io.mkdirOk);
    var target := path + filename;
    if !io.createOk(target) {
      return Some(CreateError(target));
    }
    // os.Create truncates; io.Copy then writes what the body delivers
    fs.files := fs.files[target := Payload(response)];
    if response.CopyFailed? {
      return Some(CopyError(target));
    }
    return None;
  }

  method SaveChapter(fs: FileSystem, chapter: Chapter, path: string, io: Io)
    returns (status: Status)
    modifies fs
    ensures Run(fs.Contents(), status) == SaveChapterRun(old(fs.Contents()), chapter, path, io)
  {
    var dir := path + "/";
    var index := 0;
    while index < |chapter.pages|
      invariant index <= |chapter.pages|
      invariant SaveFrom(fs.Contents(), dir, chapter.pages, index, io)
             == SaveChapterRun(old(fs.Contents()), chapter, path, io)
    {
      var failure := SaveMRI(fs, index, chapter.pages[index], dir, io);
      if failure.Some? {
        return Aborted(index, failure.value);
      }
      index := index + 1;
    }
    return Completed;
  }

  // ---------------------------------------------------------------------------
  // What a SaveChapter run leaves behind
  // ---------------------------------------------------------------------------

  /** The first page from `i` on that is not saved whole, or `|pages|` when there is none. */
  function FirstUnsaved(dir: string, pages: seq<string>, i: nat, io: Io): (k: nat)
    requires i <= |pages|
    ensures i <= k <= |pages|
    ensures forall j :: i <= j < k ==> Saved(dir, j, pages[j], io)
    ensures k < |pages| ==> !Saved(dir, k, pages[k], io)
    decreases |pages| - i
  {
    if i == |pages| || !Saved(dir, i, pages[i], io) then i
    else FirstUnsaved(dir, pages, i + 1, io)
  }

  /** The paths of pages `lo..hi-1`. */
  function PagePaths(dir: string, pages: seq<string>, lo: nat, hi: nat): set<string>
    requires lo <= hi <= |pages|
    decreases hi - lo
  {
    if lo == hi then {} else {PagePath(dir, lo, pages[lo])} + PagePaths(dir, pages, lo + 1, hi)
  }

  /** The files pages `lo..hi-1` write, in order, each holding what its fetch delivered. */
  function Written(dir: string, pages: seq<string>, lo: nat, hi: nat, io: Io): map<string, Bytes>
    requires lo <= hi <= |pages|
    decreases hi - lo
  {
    if lo == hi then map[]
    else map[PagePath(dir, lo, pages[lo]) := Payload(io.fetch(pages[lo]))] + Written(dir, pages, lo + 1, hi, io)
  }

  /** Page paths of distinct indices differ, so no page overwrites another. */
  lemma PagePathInjective(dir: string, i: nat, j: nat, u: string, v: string)
    requires i != j
    ensures PagePath(dir, i, u) != PagePath(dir, j, v)
  {
    PageFileNameInjective(i, j, u, v);
    var p, q := PagePath(dir, i, u), PagePath(dir, j, v);
    assert p[|dir|..] == PageFileName(i, u) && q[|dir|..] == PageFileName(j, v);
  }

  /** A page outside `lo..hi-1` has a path none of those pages has. */
  lemma {:induction false} PagePathOutside(dir: string, pages: seq<string>, lo: nat, hi: nat, j: nat)
    requires lo <= hi <= |pages| && j < |pages| && (j < lo || hi <= j)
    ensures PagePath(dir, j, pages[j]) !in PagePaths(dir, pages, lo, hi)
    decreases hi - lo
  {
    if lo < hi {
      PagePathInjective(dir, j, lo, pages[j], pages[lo]);
      PagePathOutside(dir, pages, lo + 1, hi, j);
    }
  }

  /** Adding a new element to a set adds one to its size. */
  lemma AddNewCount<T>(s: set<T>, x: T)
    requires x !in s
    ensures |{x} + s| == |s| + 1
  {
    assert {x} + s == s + {x};
  }

  /** Pages `lo..hi-1` have `hi - lo` distinct paths. */
  lemma {:induction false} PagePathsCount(dir: string, pages: seq<string>, lo: nat, hi: nat)
    requires lo <= hi <= |pages|
    ensures |PagePaths(dir, pages, lo, hi)| == hi - lo
    decreases hi - lo
  {
    if lo < hi {
      var p, rest := PagePath(dir, lo, pages[lo]), PagePaths(dir, pages, lo + 1, hi);
      PagePathsCount(dir, pages, lo + 1, hi);
      PagePathOutside(dir, pages, lo + 1, hi, lo);
      AddNewCount(rest, p);
    }
  }

  /** `Written(lo, hi)` holds one file per page `lo..hi-1`. */
  lemma {:induction false} WrittenKeys(dir: string, pages: seq<string>, lo: nat, hi: nat, io: Io)
    requires lo <= hi <= |pages|
    ensures Written(dir, pages, lo, hi, io).Keys == PagePaths(dir, pages, lo, hi)
    decreases hi - lo
  {
    if lo < hi {
      var p := PagePath(dir, lo, pages[lo]);
      WrittenKeys(dir, pages, lo + 1, hi, io);
      OverlayKeys(map[p := Payload(io.fetch(pages[lo]))], Written(dir, pages, lo + 1, hi, io));
    }
  }

  /** In `Written(lo, hi)` each page's file holds that page's payload: no page overwrites another. */
  lemma {:induction false} WrittenAt(dir: string, pages: seq<string>, lo: nat, hi: nat, io: Io, j: nat)
    requires lo <= j < hi <= |pages|
    ensures PagePath(dir, j, pages[j]) in Written(dir, pages, lo, hi, io)
    ensures Written(dir, pages, lo, hi, io)[PagePath(dir, j, pages[j])] == Payload(io.fetch(pages[j]))
    decreases hi - lo
  {
    var p := PagePath(dir, j, pages[j]);
    var first := map[PagePath(dir, lo, pages[lo]) := Payload(io.fetch(pages[lo]))];
    var rest := Written(dir, pages, lo + 1, hi, io);
    assert Written(dir, pages, lo, hi, io) == first + rest;
    if j == lo {
      WrittenKeys(dir, pages, lo + 1, hi, io);
      PagePathOutside(dir, pages, lo + 1, hi, j);
      OverlayAt(first, rest, p);
    } else {
      WrittenAt(dir, pages, lo + 1, hi, io, j);
      OverlayAt(first, rest, p);
    }
  }

  /** How many pages from `i` on get a file: the saved ones, plus a failing one that got one. */
  function Reach(dir: string, pages: seq<string>, i: nat, io: Io): (n: nat)
    requires i <= |pages|
    ensures i <= n <= |pages|
  {
    var k := FirstUnsaved(dir, pages, i, io);
    if k < |pages| && Touched(dir, k, pages[k], io) then k + 1 else k
  }

  /** The keys of an overlay are the keys of both maps. */
  lemma OverlayKeys<K, V>(a: map<K, V>, b: map<K, V>)
    ensures (a + b).Keys == a.Keys + b.Keys
  {
  }

  /** A key of an overlay maps to its value in the second map if it has one, else in the first. */
  lemma OverlayAt<K, V>(a: map<K, V>, b: map<K, V>, k: K)
    requires k in a || k in b
    ensures k in a + b
    ensures (a + b)[k] == if k in b then b[k] else a[k]
  {
  }

  /** Updating one key is overlaying a one-entry map. */
  lemma UpdateIsOverlay<K, V>(a: map<K, V>, k: K, v: V)
    ensures a[k := v] == a + map[k := v]
  {
  }

  /** Overlaying maps one after another is overlaying their overlay. */
  lemma MapOverlayAssoc<K, V>(a: map<K, V>, b: map<K, V>, c: map<K, V>)
    ensures (a + b) + c == a + (b + c)
  {
  }

  /** The loop from page `i` on stops exactly at the first page not saved whole. */
  lemma {:induction false} SaveFromStatus(d: Disk, dir: string, pages: seq<string>, i: nat, io: Io)
    requires i <= |pages|
    ensures var k := FirstUnsaved(dir, pages, i, io);
      SaveFrom(d, dir, pages, i, io).status
        == (if k == |pages| then Completed else Aborted(k, PageFailure(dir, k, pages[k], io)))
    decreases |pages| - i
  {
    if i < |pages| && Saved(dir, i, pages[i], io) {
      SaveFromStatus(SavePage(d, dir, i, pages[i], io).disk, dir, pages, i + 1, io);
    }
  }

  /**
   * The files after the loop from page `i` on: the old files overlaid, in page order, with
   * what each page that got a file was delivered. Nothing is rolled back.
   */
  lemma {:induction false} SaveFromFiles(d: Disk, dir: string, pages: seq<string>, i: nat, io: Io)
    requires i <= |pages|
    ensures SaveFrom(d, dir, pages, i, io).disk.files == d.files + Written(dir, pages, i, Reach(dir, pages, i, io), io)
    decreases |pages| - i
  {
    if i < |pages| && Saved(dir, i, pages[i], io) {
      var s := SavePage(d, dir, i, pages[i], io);
      SaveFromFiles(s.disk, dir, pages, i + 1, io);
      SavedPageFiles(d, dir, pages, i, io);
    } else {
      SaveStopFiles(d, dir, pages, i, io);
    }
  }

  /** A page saved whole adds its file in front of what the rest of the loop writes. */
  lemma SavedPageFiles(d: Disk, dir: string, pages: seq<string>, i: nat, io: Io)
    requires i < |pages| && Saved(dir, i, pages[i], io)
    ensures var s := SavePage(d, dir, i, pages[i], io);
      s.disk.files + Written(dir, pages, i + 1, Reach(dir, pages, i + 1, io), io)
        == d.files + Written(dir, pages, i, Reach(dir, pages, i, io), io)
  {
    var reach := Reach(dir, pages, i, io);
    assert reach == Reach(dir, pages, i + 1, io);
    var p, body := PagePath(dir, i, pages[i]), Payload(io.fetch(pages[i]));
    var w := Written(dir, pages, i + 1, reach, io);
    assert Written(dir, pages, i, reach, io) == map[p := body] + w;
    assert SavePage(d, dir, i, pages[i], io).disk.files == d.files[p := body];
    UpdateIsOverlay(d.files, p, body);
    MapOverlayAssoc(d.files, map[p := body], w);
  }

  /** Where the loop stops, only the failing page's file, if it got one, is added. */
  lemma SaveStopFiles(d: Disk, dir: string, pages: seq<string>, i: nat, io: Io)
    requires i <= |pages|
    requires i < |pages| ==> !Saved(dir, i, pages[i], io)
    ensures SaveFrom(d, dir, pages, i, io).disk.files == d.files + Written(dir, pages, i, Reach(dir, pages, i, io), io)
  {
    if i < |pages| && Touched(dir, i, pages[i], io) {
      assert Written(dir, pages, i, i + 1, io) == map[PagePath(dir, i, pages[i]) := Payload(io.fetch(pages[i]))];
    } else {
      assert d.files + map[] == d.files;
    }
  }

  /** The loop creates the directory once, as soon as the first page's `http.Get` succeeds. */
  lemma {:induction false} SaveFromDirs(d: Disk, dir: string, pages: seq<string>, i: nat, io: Io)
    requires i <= |pages|
    ensures SaveFrom(d, dir, pages, i, io).disk.dirs
         == (if i < |pages| && !io.fetch(pages[i]).GetFailed? then WithDir(d, dir, io.mkdirOk).dirs else d.dirs)
    decreases |pages| - i
  {
    if i < |pages| && Saved(dir, i, pages[i], io) {
      var s := SavePage(d, dir, i, pages[i], io);
      SaveFromDirs(s.disk, dir, pages, i + 1, io);
      if i + 1 < |pages| && !io.fetch(pages[i + 1]).GetFailed? {
        WithDirAgain(d, s.disk, dir, io.mkdirOk);
      }
    }
  }

  /** The whole effect of the loop from page `i` on. */
  lemma SaveFromEffect(d: Disk, dir: string, pages: seq<string>, i: nat, io: Io)
    requires i <= |pages|
    ensures var r := SaveFrom(d, dir, pages, i, io);
      var k := FirstUnsaved(dir, pages, i, io);
      && r.status == (if k == |pages| then Completed else Aborted(k, PageFailure(dir, k, pages[k], io)))
      && r.disk.files == d.files + Written(dir, pages, i, Reach(dir, pages, i, io), io)
      && r.disk.dirs == (if i < |pages| && !io.fetch(pages[i]).GetFailed? then WithDir(d, dir, io.mkdirOk).dirs else d.dirs)
  {
    SaveFromStatus(d, dir, pages, i, io);
    SaveFromFiles(d, dir, pages, i, io);
    SaveFromDirs(d, dir, pages, i, io);
  }

  /**
   * A chapter download completes exactly when every page is saved whole; then each page's
   * file holds its fetched body and every other file is as it was.
   */
  lemma SaveChapterCompleted(d: Disk, chapter: Chapter, path: string, io: Io)
    ensures var r := SaveChapterRun(d, chapter, path, io);
      var dir, pages := path + "/", chapter.pages;
      && (r.status == Completed <==> forall j :: 0 <= j < |pages| ==> Saved(dir, j, pages[j], io))
      && (r.status == Completed ==>
            && (forall j :: 0 <= j < |pages| ==>
                  PagePath(dir, j, pages[j]) in r.disk.files &&
                  r.disk.files[PagePath(dir, j, pages[j])] == io.fetch(pages[j]).body)
            && (forall key :: key !in PagePaths(dir, pages, 0, |pages|) ==> Untouched(d, r.disk, key)))
  {
    var dir, pages := path + "/", chapter.pages;
    var r := SaveChapterRun(d, chapter, path, io);
    SaveFromEffect(d, dir, pages, 0, io);
    if r.status == Completed {
      WrittenKeys(dir, pages, 0, |pages|, io);
      forall j | 0 <= j < |pages|
        ensures PagePath(dir, j, pages[j]) in r.disk.files
        ensures r.disk.files[PagePath(dir, j, pages[j])] == io.fetch(pages[j]).body
      {
        WrittenAt(dir, pages, 0, |pages|, io, j);
      }
    }
  }

  /**
   * A chapter download aborted at page `k` saved every page before `k` whole, failed on
   * page `k` with the error `saveMRI` reports for it, and left the files of all later pages
   * (and of page `k` itself when its fetch or `os.Create` failed) as they were.
   */
  lemma SaveChapterAborted(d: Disk, chapter: Chapter, path: string, io: Io, k: nat, f: Failure)
    requires SaveChapterRun(d, chapter, path, io).status == Aborted(k, f)
    ensures var r := SaveChapterRun(d, chapter, path, io);
      var dir, pages := path + "/", chapter.pages;
      && k < |pages|
      && !Saved(dir, k, pages[k], io) && f == PageFailure(dir, k, pages[k], io)
      && (io.fetch(pages[k]).GetFailed? ==> f == GetError(pages[k]))
      && (forall j :: 0 <= j < k ==>
            Saved(dir, j, pages[j], io) &&
            PagePath(dir, j, pages[j]) in r.disk.files &&
            r.disk.files[PagePath(dir, j, pages[j])] == io.fetch(pages[j]).body)
      && (!Touched(dir, k, pages[k], io) ==> Untouched(d, r.disk, PagePath(dir, k, pages[k])))
      && (forall j :: k < j < |pages| ==> Untouched(d, r.disk, PagePath(dir, j, pages[j])))
  {
    SaveFromStatus(d, path + "/", chapter.pages, 0, io);
    AbortedKeepsEarlier(d, chapter, path, io, k, f);
    var r, dir, pages := SaveChapterRun(d, chapter, path, io), path + "/", chapter.pages;
    forall j | k <= j < |pages| && (j == k ==> !Touched(dir, k, pages[k], io))
      ensures Untouched(d, r.disk, PagePath(dir, j, pages[j]))
    {
      AbortedSpares(d, chapter, path, io, k, f, j);
    }
  }

  /** After an abort at page `k`, each earlier page's file holds its fetched body. */
  lemma AbortedKeepsEarlier(d: Disk, chapter: Chapter, path: string, io: Io, k: nat, f: Failure)
    requires SaveChapterRun(d, chapter, path, io).status == Aborted(k, f)
    ensures k <= |chapter.pages|
    ensures var r := SaveChapterRun(d, chapter, path, io);
      var dir, pages := path + "/", chapter.pages;
      forall j :: 0 <= j < k ==>
        Saved(dir, j, pages[j], io) &&
        PagePath(dir, j, pages[j]) in r.disk.files &&
        r.disk.files[PagePath(dir, j, pages[j])] == io.fetch(pages[j]).body
  {
    var dir, pages := path + "/", chapter.pages;
    var r := SaveChapterRun(d, chapter, path, io);
    SaveFromStatus(d, dir, pages, 0, io);
    SaveFromFiles(d, dir, pages, 0, io);
    var reach := Reach(dir, pages, 0, io);
    forall j | 0 <= j < k
      ensures PagePath(dir, j, pages[j]) in r.disk.files
      ensures r.disk.files[PagePath(dir, j, pages[j])] == io.fetch(pages[j]).body
    {
      WrittenAt(dir, pages, 0, reach, io, j);
    }
  }

  /** After an abort at page `k`, a later page's path, and page `k`'s when it got no file, is as it was. */
  lemma AbortedSpares(d: Disk, chapter: Chapter, path: string, io: Io, k: nat, f: Failure, j: nat)
    requires SaveChapterRun(d, chapter, path, io).status == Aborted(k, f)
    requires k <= j < |chapter.pages|
    requires j == k ==> !Touched(path + "/", k, chapter.pages[k], io)
    ensures Untouched(d, SaveChapterRun(d, chapter, path, io).disk, PagePath(path + "/", j, chapter.pages[j]))
  {
    var dir, pages := path + "/", chapter.pages;
    SaveFromStatus(d, dir, pages, 0, io);
    SaveFromFiles(d, dir, pages, 0, io);
    var reach := Reach(dir, pages, 0, io);
    WrittenKeys(dir, pages, 0, reach, io);
    PagePathOutside(dir, pages, 0, reach, j);
  }

  /** Downloading a chapter again after a complete download changes nothing. */
  lemma SaveChapterRepeat(d: Disk, chapter: Chapter, path: string, io: Io)
    requires SaveChapterRun(d, chapter, path, io).status == Completed
    ensures var r := SaveChapterRun(d, chapter, path, io);
      SaveChapterRun(r.disk, chapter, path, io) == r
  {
    var dir, pages := path + "/", chapter.pages;
    var r := SaveChapterRun(d, chapter, path, io);
    SaveFromEffect(d, dir, pages, 0, io);
    SaveFromEffect(r.disk, dir, pages, 0, io);
    var w := Written(dir, pages, 0, |pages|, io);
    assert r.disk.files + w == r.disk.files;
    if 0 < |pages| && !io.fetch(pages[0]).GetFailed? {
      WithDirAgain(d, r.disk, dir, io.mkdirOk);
    }
  }

  /**
   * A chapter of `n` pages gets `n` distinct page paths, and for `n <= 100` their order as
   * strings is the page order.
   */
  lemma ChapterPagePaths(dir: string, pages: seq<string>)
    ensures |PagePaths(dir, pages, 0, |pages|)| == |pages|
    ensures |pages| <= 100 ==> forall i, j :: 0 <= i < j < |pages| ==>
      Precedes(PagePath(dir, i, pages[i]), PagePath(dir, j, pages[j]))
  {
    PagePathsCount(dir, pages, 0, |pages|);
    if |pages| <= 100 {
      forall i, j | 0 <= i < j < |pages|
        ensures Precedes(PagePath(dir, i, pages[i]), PagePath(dir, j, pages[j]))
      {
        PageFileNamesOrdered(i, j, pages[i], pages[j]);
        PrecedesCommonPrefix(dir, PageFileName(i, pages[i]), PageFileName(j, pages[j]));
      }
    }
  }

  // ---------------------------------------------------------------------------
  // ConvertMRItoPNG
  // ---------------------------------------------------------------------------

  /** What `png.Encode` does: the whole image, or a failure after writing some bytes. */
  datatype Encoded = Encoded(png: Bytes) | EncodeFailed(written: Bytes)

  datatype Codec<!R> = Codec(decode: Bytes -> Option<R>, encode: R -> Encoded, createOk: string -> bool)

  /** One iteration of the `ConvertMRItoPNG` loop, for entry `name` of directory `path`. */
  function ConvertEntry<R>(d: Disk, path: string, name: string, codec: Codec<R>): Step {
    var src := path + name;
    if src !in d.files then
      // a directory opens, but decoding it fails; a missing path does not open
      Step(d, Some(if src in d.dirs then DecodeError(src) else OpenError(src)))
    else
      match codec.decode(d.files[src])
      case None => Step(d, Some(DecodeError(src)))
      case Some(img) =>
        var out := PngName(path, name);
        if !codec.createOk(out) then Step(d, Some(CreateError(out)))
        else
          match codec.encode(img)
          case Encoded(png) => Step(Disk(d.files[out := png], d.dirs), None)
          case EncodeFailed(part) => Step(Disk(d.files[out := part], d.dirs), Some(EncodeError(out)))
  }

  /** The conversion loop from entry `i` on. */
  function ConvertFrom<R>(d: Disk, path: string, names: seq<string>, i: nat, codec: Codec<R>): Run
    requires i <= |names|
    decreases |names| - i
  {
    if i == |names| then Run(d, Completed)
    else
      var s := ConvertEntry(d, path, names[i], codec);
      if s.failure.Some? then Run(s.disk, Aborted(i, s.failure.value))
      else ConvertFrom(s.disk, path, names, i + 1, codec)
  }

  /** `ConvertMRItoPNG(path)`, given what `ioutil.ReadDir(path)` lists (None: it failed). */
  function ConvertRun<R>(d: Disk, path: string, listing: Option<seq<string>>, codec: Codec<R>): Run {
    match listing
    case None => Run(d, Unlisted(path))
    case Some(names) => ConvertFrom(d, path, names, 0, codec)
  }

  method ConvertMRItoPNG<R>(fs: FileSystem, path: string, listing: Option<seq<string>>, codec: Codec<R>)
    returns (status: Status)
    modifies fs
    ensures Run(fs.Contents(), status) == ConvertRun(old(fs.Contents()), path, listing, codec)
  {
    if listing.None? {
      return Unlisted(path);
    }
    var files := listing.value;
    var i := 0;
    while i < |files|
      invariant i <= |files|
      invariant ConvertFrom(fs.Contents(), path, files, i, codec)
             == ConvertRun(old(fs.Contents()), path, listing, codec)
    {
      var src := path + files[i];
      if src !in fs.files {
        return Aborted(i, if src in fs.dirs then DecodeError(src) else OpenError(src));
      }
      var img := codec.decode(fs.files[src]);
      if img.None? {
        return Aborted(i, DecodeError(src));
      }
      var out := PngName(path, files[i]);
      if !codec.createOk(out) {
        return Aborted(i, CreateError(out));
      }
      var encoded := codec.encode(img.value);
      match encoded {
        case Encoded(png) =>
          fs.files := fs.files[out := png];
        case EncodeFailed(part) =>
          fs.files := fs.files[out := part];
          return Aborted(i, EncodeError(out));
      }
      i := i + 1;
    }
    return Completed;
  }

  /** The output names of entries `lo..hi-1`. */
  function Outputs(path: string, names: seq<string>, lo: nat, hi: nat): set<string>
    requires lo <= hi <= |names|
    decreases hi - lo
  {
    if lo == hi then {} else {PngName(path, names[lo])} + Outputs(path, names, lo + 1, hi)
  }

  /** How many entries from `i` on a conversion run finished: all, or those before the abort. */
  function Converted(r: Run, n: nat): nat {
    if r.status.Aborted? then r.status.at else n
  }

  /** One entry's conversion writes at most its own output, and writes it when it succeeds. */
  lemma ConvertEntryEffect<R>(d: Disk, path: string, name: string, codec: Codec<R>)
    ensures var s := ConvertEntry(d, path, name, codec);
      var out := PngName(path, name);
      && s.disk.dirs == d.dirs
      && d.files.Keys <= s.disk.files.Keys
      && (forall key :: key != out ==> Untouched(d, s.disk, key))
      && (s.failure.None? ==> out in s.disk.files)
  {
  }

  /** The conversion loop either completes or aborts on one of the entries from `i` on. */
  lemma {:induction false} ConvertFromStatus<R>(d: Disk, path: string, names: seq<string>, i: nat, codec: Codec<R>)
    requires i <= |names|
    ensures var r := ConvertFrom(d, path, names, i, codec);
      r.status.Completed? || (r.status.Aborted? && i <= r.status.at < |names|)
    decreases |names| - i
  {
    if i < |names| {
      var s := ConvertEntry(d, path, names[i], codec);
      if s.failure.None? {
        ConvertFromStatus(s.disk, path, names, i + 1, codec);
      }
    }
  }

  /** The entries from `i` on that a conversion run reached: up to and including a failing one. */
  function Reached<R>(d: Disk, path: string, names: seq<string>, i: nat, codec: Codec<R>): (hi: nat)
    requires i <= |names|
    ensures i <= hi <= |names|
    ensures i < |names| ==> i < hi
  {
    ConvertFromStatus(d, path, names, i, codec);
    var r := ConvertFrom(d, path, names, i, codec);
    if r.status.Aborted? then r.status.at + 1 else |names|
  }

  /** The conversion loop from entry `i` on removes no file and creates no directory. */
  lemma {:induction false} ConvertFromGrows<R>(d: Disk, path: string, names: seq<string>, i: nat, codec: Codec<R>)
    requires i <= |names|
    ensures var r := ConvertFrom(d, path, names, i, codec);
      r.disk.dirs == d.dirs && d.files.Keys <= r.disk.files.Keys
    decreases |names| - i
  {
    if i < |names| {
      var s := ConvertEntry(d, path, names[i], codec);
      ConvertEntryEffect(d, path, names[i], codec);
      if s.failure.None? {
        ConvertFromGrows(s.disk, path, names, i + 1, codec);
      }
    }
  }

  /** A file that is not the output of an entry the conversion loop from `i` on reached keeps its contents. */
  lemma {:induction false} ConvertFromFrame<R>(d: Disk, path: string, names: seq<string>, i: nat, codec: Codec<R>, key: string)
    requires i <= |names|
    requires key !in Outputs(path, names, i, Reached(d, path, names, i, codec))
    ensures Untouched(d, ConvertFrom(d, path, names, i, codec).disk, key)
    decreases |names| - i
  {
    if i < |names| {
      var s := ConvertEntry(d, path, names[i], codec);
      var hi := Reached(d, path, names, i, codec);
      ConvertEntryEffect(d, path, names[i], codec);
      assert key != PngName(path, names[i]);
      assert Untouched(d, s.disk, key);
      if s.failure.None? {
        assert hi == Reached(s.disk, path, names, i + 1, codec);
        assert key !in Outputs(path, names, i + 1, hi);
        ConvertFromFrame(s.disk, path, names, i + 1, codec, key);
      }
    }
  }

  /** Every entry the conversion loop finished has its output on disk at the end. */
  lemma {:induction false} ConvertFromOutput<R>(d: Disk, path: string, names: seq<string>, i: nat, codec: Codec<R>, j: nat)
    requires i <= j < |names|
    requires j < Converted(ConvertFrom(d, path, names, i, codec), |names|)
    ensures PngName(path, names[j]) in ConvertFrom(d, path, names, i, codec).disk.files
    decreases j - i
  {
    var s := ConvertEntry(d, path, names[i], codec);
    if s.failure.None? {
      if i == j {
        ConvertEntryEffect(d, path, names[i], codec);
        ConvertFromGrows(s.disk, path, names, i + 1, codec);
      } else {
        ConvertFromOutput(s.disk, path, names, i + 1, codec, j);
      }
    }
  }

  /**
   * `ConvertMRItoPNG` never deletes a file and never creates a directory; a complete run leaves
   * one output per listed entry, an aborted run one per entry before the failing one; every
   * file that is not the output of an entry reached keeps its contents.
   */
  lemma ConvertEffect<R>(d: Disk, path: string, listing: Option<seq<string>>, codec: Codec<R>)
    ensures var r := ConvertRun(d, path, listing, codec);
      && r.disk.dirs == d.dirs
      && d.files.Keys <= r.disk.files.Keys
      && (listing.None? ==> r == Run(d, Unlisted(path)))
      && (listing.Some? ==>
            var names := listing.value;
            var hi := if r.status.Aborted? then r.status.at + 1 else |names|;
            && (r.status.Completed? || (r.status.Aborted? && r.status.at < |names|))
            && hi <= |names|
            && (forall key :: key !in Outputs(path, names, 0, hi) ==> Untouched(d, r.disk, key))
            && (forall j :: 0 <= j < |names| && j < Converted(r, |names|) ==> PngName(path, names[j]) in r.disk.files))
  {
    if listing.Some? {
      ConvertFromStatus(d, path, listing.value, 0, codec);
      ConvertFromGrows(d, path, listing.value, 0, codec);
      var r := ConvertRun(d, path, listing, codec);
      var hi := Reached(d, path, listing.value, 0, codec);
      forall key | key !in Outputs(path, listing.value, 0, hi) ensures Untouched(d, r.disk, key) {
        ConvertFromFrame(d, path, listing.value, 0, codec, key);
      }
      forall j | 0 <= j < |listing.value| && j < Converted(r, |listing.value|)
        ensures PngName(path, listing.value[j]) in r.disk.files
      {
        ConvertFromOutput(d, path, listing.value, 0, codec, j);
      }
    }
  }

  // ---------------------------------------------------------------------------
  // The conversion read against the disk it started from
  // ---------------------------------------------------------------------------

  /**
   * No entry's output is an entry's input path, so no conversion changes what a later entry
   * reads. Entries "a.mri" and "a.png" of one directory break this: the first writes "a.png".
   */
  predicate NoOverwrite(path: string, names: seq<string>) {
    forall i, j :: 0 <= i < |names| && 0 <= j < |names| ==> PngName(path, names[i]) != path + names[j]
  }

  /** The first entry from `i` on whose conversion fails when it reads disk `d`; `|names|` if none does. */
  function FirstFailing<R>(d: Disk, path: string, names: seq<string>, i: nat, codec: Codec<R>): (k: nat)
    requires i <= |names|
    ensures i <= k <= |names|
    ensures forall j :: i <= j < k ==> ConvertEntry(d, path, names[j], codec).failure.None?
    ensures k < |names| ==> ConvertEntry(d, path, names[k], codec).failure.Some?
    decreases |names| - i
  {
    if i == |names| || ConvertEntry(d, path, names[i], codec).failure.Some? then i
    else FirstFailing(d, path, names, i + 1, codec)
  }

  /** Whether one entry's conversion fails depends on the disk only through its input path. */
  lemma EntrySameOn<R>(d: Disk, e: Disk, path: string, name: string, codec: Codec<R>)
    requires d.dirs == e.dirs && Untouched(d, e, path + name)
    ensures ConvertEntry(d, path, name, codec).failure == ConvertEntry(e, path, name, codec).failure
  {
  }

  /** An output name none of entries `lo..hi-1` has is not among their outputs. */
  lemma {:induction false} OutputsOutside(path: string, names: seq<string>, lo: nat, hi: nat, out: string)
    requires lo <= hi <= |names|
    requires forall m :: lo <= m < hi ==> PngName(path, names[m]) != out
    ensures out !in Outputs(path, names, lo, hi)
    decreases hi - lo
  {
    if lo < hi {
      OutputsOutside(path, names, lo + 1, hi, out);
    }
  }

  /**
   * The loop from entry `i` on, run on a disk `d` that still holds the inputs of disk `d0`,
   * stops where the entries fail when they read `d0`.
   */
  lemma {:induction false} ConvertFromFirstFailing<R>(d0: Disk, d: Disk, path: string, names: seq<string>, i: nat, codec: Codec<R>)
    requires i <= |names| && NoOverwrite(path, names)
    requires d.dirs == d0.dirs
    requires forall m :: i <= m < |names| ==> Untouched(d0, d, path + names[m])
    ensures var k := FirstFailing(d0, path, names, i, codec);
      ConvertFrom(d, path, names, i, codec).status
        == (if k == |names| then Completed else Aborted(k, ConvertEntry(d0, path, names[k], codec).failure.value))
    decreases |names| - i
  {
    if i < |names| {
      var s := ConvertEntry(d, path, names[i], codec);
      EntrySameOn(d0, d, path, names[i], codec);
      if s.failure.None? {
        ConvertEntryEffect(d, path, names[i], codec);
        forall m | i + 1 <= m < |names| ensures Untouched(d0, s.disk, path + names[m]) {
          assert PngName(path, names[i]) != path + names[m];
        }
        ConvertFromFirstFailing(d0, s.disk, path, names, i + 1, codec);
      }
    }
  }

  /**
   * When no output is an entry's input, `ConvertMRItoPNG` completes exactly when no entry fails
   * on the disk it started from, and otherwise aborts at the first entry that fails there, with
   * that entry's failure: the first failure stops the batch.
   */
  lemma ConvertFirstFailure<R>(d: Disk, path: string, names: seq<string>, codec: Codec<R>)
    requires NoOverwrite(path, names)
    ensures var k := FirstFailing(d, path, names, 0, codec);
      ConvertRun(d, path, Some(names), codec).status
        == (if k == |names| then Completed else Aborted(k, ConvertEntry(d, path, names[k], codec).failure.value))
  {
    ConvertFromFirstFailing(d, d, path, names, 0, codec);
  }

  /**
   * In the loop from entry `i` on, run on a disk that still holds the inputs of `d0`, a finished
   * entry `j` whose output no later entry shares ends up holding the PNG of its input in `d0`.
   */
  lemma {:induction false} ConvertFromOutputHolds<R>(d0: Disk, d: Disk, path: string, names: seq<string>, i: nat, codec: Codec<R>, j: nat)
    requires i <= j < |names| && NoOverwrite(path, names)
    requires d.dirs == d0.dirs
    requires forall m :: i <= m < |names| ==> Untouched(d0, d, path + names[m])
    requires j < Converted(ConvertFrom(d, path, names, i, codec), |names|)
    requires forall m :: j < m < |names| ==> PngName(path, names[m]) != PngName(path, names[j])
    ensures var src, out, r := path + names[j], PngName(path, names[j]), ConvertFrom(d, path, names, i, codec);
      && src in d0.files
      && codec.decode(d0.files[src]).Some?
      && codec.encode(codec.decode(d0.files[src]).value).Encoded?
      && out in r.disk.files
      && r.disk.files[out] == codec.encode(codec.decode(d0.files[src]).value).png
    decreases j - i
  {
    var s := ConvertEntry(d, path, names[i], codec);
    ConvertEntryEffect(d, path, names[i], codec);
    assert s.failure.None?;
    if i == j {
      var out := PngName(path, names[j]);
      var hi := Reached(s.disk, path, names, i + 1, codec);
      OutputsOutside(path, names, i + 1, hi, out);
      ConvertFromFrame(s.disk, path, names, i + 1, codec, out);
    } else {
      forall m | i + 1 <= m < |names| ensures Untouched(d0, s.disk, path + names[m]) {
        assert PngName(path, names[i]) != path + names[m];
      }
      ConvertFromOutputHolds(d0, s.disk, path, names, i + 1, codec, j);
    }
  }

  /**
   * When no output is an entry's input, every entry `ConvertMRItoPNG` finished, unless a later
   * entry has the same output, ends up holding the PNG encoding of its input as it was before
   * the run: its input opened, decoded and encoded whole.
   */
  lemma ConvertOutputHolds<R>(d: Disk, path: string, names: seq<string>, codec: Codec<R>, j: nat)
    requires NoOverwrite(path, names) && j < |names|
    requires j < Converted(ConvertRun(d, path, Some(names), codec), |names|)
    requires forall m :: j < m < |names| ==> PngName(path, names[m]) != PngName(path, names[j])
    ensures var src, out, r := path + names[j], PngName(path, names[j]), ConvertRun(d, path, Some(names), codec);
      && src in d.files
      && codec.decode(d.files[src]).Some?
      && codec.encode(codec.decode(d.files[src]).value).Encoded?
      && out in r.disk.files
      && r.disk.files[out] == codec.encode(codec.decode(d.files[src]).value).png
  {
    ConvertFromOutputHolds(d, d, path, names, 0, codec, j);
  }
}
