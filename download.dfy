/** `downloadImages` (threader.py, lines 22-58) as a function from the state
    it touches to the state it leaves: the filesystem, the two global
    counters and the log of URLs requested. */
module Download {
  import opened Common
  import opened Naming
  import opened Files

  /** What `requests.get(url).content` yields, or None when the request
      raises. */
  type Fetcher = Url -> Option<Bytes>

  /** The exceptions that leave `downloadImages` early. */
  datatype Error =
    | FetchFailed(url: Url)       // `requests.get` raised
    | NotADirectory(path: Path)   // `mkdir` or `open` found no directory at `path`

  /** The state `downloadImages` reads and changes: the filesystem,
      `_img_count`, `_already_saved_img_count`, and every URL requested so
      far, in order. */
  datatype World = World(fs: FileSystem, imgCount: nat, alreadySaved: nat, requested: seq<Url>)

  /** The state after a call, and the exception it raised, if any. */
  datatype Outcome = Outcome(world: World, err: Option<Error>)

  /** Media items accounted for so far, written or skipped. */
  function Handled(w: World): nat {
    w.imgCount + w.alreadySaved
  }

  /** `final_path` of every media item of `post`, in order. */
  function ItemPaths(post: Post, outdir: Path, individual: bool): (paths: seq<Path>)
    ensures |paths| == |post.media|
  {
    seq(|post.media|, i requires 0 <= i < |post.media| =>
      TargetPath(outdir, post.id, individual, i, post.media[i]))
  }

  /** If item `i` is a file that `fs'` has and `fs` had not, it holds the
      bytes fetched from that item's URL. */
  predicate WroteFetched(fs: FileSystem, fs': FileSystem, urls: seq<Url>, paths: seq<Path>, i: int, fetch: Fetcher)
    requires 0 <= i < |urls| == |paths|
  {
    paths[i] in fs' && paths[i] !in fs ==> fs'[paths[i]].File? && fetch(urls[i]) == Some(fs'[paths[i]].data)
  }

  /** One turn of the loop over the media items: request `url`, then skip
      the item if `path` exists, else write the response to it. */
  function SaveItem(w: World, dir: Path, url: Url, path: Path, fetch: Fetcher): Outcome {
    var w1 := w.(requested := w.requested + [url]);
    match fetch(url)
    case None => Outcome(w1, Some(FetchFailed(url)))
    case Some(bytes) =>
      if path in w1.fs then
        Outcome(w1.(alreadySaved := w1.alreadySaved + 1), None)
      else if !IsDir(w1.fs, dir) then
        Outcome(w1, Some(NotADirectory(dir)))
      else
        Outcome(w1.(fs := w1.fs[path := File(bytes)], imgCount := w1.imgCount + 1), None)
  }

  /** The loop over the first `n` items, item i fetched from `urls[i]` and
      saved at `paths[i]` in directory `dir`; an exception ends it. */
  function SaveItems(w: World, dir: Path, urls: seq<Url>, paths: seq<Path>, n: nat, fetch: Fetcher): Outcome
    requires n <= |urls| == |paths|
    decreases n
  {
    if n == 0 then Outcome(w, None)
    else
      var o := SaveItems(w, dir, urls, paths, n - 1, fetch);
      if o.err.Some? then o else SaveItem(o.world, dir, urls[n - 1], paths[n - 1], fetch)
  }

  /** A whole call of `downloadImages`. In per-post mode it first makes the
      post's directory; when that directory already exists and holds as many
      entries as the post has media items, the post counts as saved and
      nothing else happens. */
  function Download(w: World, post: Post, outdir: Path, individual: bool, fetch: Fetcher): Outcome {
    var n := |post.media|;
    var dir := PostDir(outdir, post.id, individual);
    var paths := ItemPaths(post, outdir, individual);
    if !individual then SaveItems(w, dir, post.media, paths, n, fetch)
    else if dir in w.fs then
      if CountEntries(w.fs, dir) == n then Outcome(w.(alreadySaved := w.alreadySaved + n), None)
      else SaveItems(w, dir, post.media, paths, n, fetch)
    else if !IsDir(w.fs, outdir) then Outcome(w, Some(NotADirectory(outdir)))
    else SaveItems(w.(fs := w.fs[dir := Dir]), dir, post.media, paths, n, fetch)
  }

  // ---------------------------------------------------------------------
  // One item

  /** One item: one request, and one more item accounted for unless the
      step raised. */
  lemma SaveItemCounts(w: World, dir: Path, url: Url, path: Path, fetch: Fetcher)
    ensures var o := SaveItem(w, dir, url, path, fetch);
            o.world.requested == w.requested + [url] &&
            Handled(o.world) == Handled(w) + (if o.err.None? then 1 else 0) &&
            o.world.imgCount >= w.imgCount && o.world.alreadySaved >= w.alreadySaved
  {
  }

  /** One item changes the filesystem only by writing a new file at its
      path, inside an existing directory, with the fetched bytes; that write
      and nothing else raises `_img_count`. A step that raised nothing leaves
      the path present. */
  lemma SaveItemWrites(w: World, dir: Path, url: Url, path: Path, fetch: Fetcher)
    ensures var o := SaveItem(w, dir, url, path, fetch);
            (o.err.None? ==> path in o.world.fs) &&
            if o.world.fs == w.fs then o.world.imgCount == w.imgCount
            else
              path !in w.fs && fetch(url).Some? && o.err.None? && IsDir(w.fs, dir) &&
              o.world.fs == w.fs[path := File(fetch(url).value)] &&
              o.world.imgCount == w.imgCount + 1
  {
  }

  // ---------------------------------------------------------------------
  // The item loop

  /** Each request either accounts for one item (written or skipped) or is
      the one that raised; the URLs are requested in item order, so a loop
      that raises at item m has requested exactly items 0..m. */
  lemma {:induction false} SaveItemsAccounting(w: World, dir: Path, urls: seq<Url>, paths: seq<Path>, n: nat, fetch: Fetcher)
    requires n <= |urls| == |paths|
    ensures var o := SaveItems(w, dir, urls, paths, n, fetch);
            var m := |o.world.requested| - |w.requested|;
            0 <= m <= n &&
            o.world.requested == w.requested + urls[..m] &&
            Handled(o.world) + (if o.err.Some? then 1 else 0) == Handled(w) + m &&
            (o.err.None? ==> m == n) &&
            o.world.imgCount >= w.imgCount && o.world.alreadySaved >= w.alreadySaved
    decreases n
  {
    if n > 0 {
      var prev := SaveItems(w, dir, urls, paths, n - 1, fetch);
      SaveItemsAccounting(w, dir, urls, paths, n - 1, fetch);
      if prev.err.None? {
        SaveItemCounts(prev.world, dir, urls[n - 1], paths[n - 1], fetch);
        assert urls[..n] == urls[..n - 1] + [urls[n - 1]];
      }
    }
  }

  /** An exception ends the loop: once the first `k` items raised, the
      later items change nothing. */
  lemma {:induction false} SaveItemsStopsAtError(w: World, dir: Path, urls: seq<Url>, paths: seq<Path>, k: nat, n: nat, fetch: Fetcher)
    requires k <= n <= |urls| == |paths|
    requires SaveItems(w, dir, urls, paths, k, fetch).err.Some?
    ensures SaveItems(w, dir, urls, paths, n, fetch) == SaveItems(w, dir, urls, paths, k, fetch)
    decreases n
  {
    if k < n {
      SaveItemsStopsAtError(w, dir, urls, paths, k, n - 1, fetch);
    }
  }

  /** The item loop never changes or removes an existing entry, and what it
      adds are files at the items' paths. */
  lemma {:induction false} SaveItemsGrows(w: World, dir: Path, urls: seq<Url>, paths: seq<Path>, n: nat, fetch: Fetcher)
    requires n <= |urls| == |paths|
    ensures var o := SaveItems(w, dir, urls, paths, n, fetch);
            Extends(w.fs, o.world.fs) &&
            forall p :: p in o.world.fs && p !in w.fs ==> p in paths[..n] && o.world.fs[p].File?
    decreases n
  {
    if n > 0 {
      var prev := SaveItems(w, dir, urls, paths, n - 1, fetch);
      SaveItemsGrows(w, dir, urls, paths, n - 1, fetch);
      assert paths[..n] == paths[..n - 1] + [paths[n - 1]];
      if prev.err.None? {
        SaveItemWrites(prev.world, dir, urls[n - 1], paths[n - 1], fetch);
      }
    }
  }

  /** `_img_count` grows by exactly the number of files the loop adds. */
  lemma {:induction false} SaveItemsCountsNewFiles(w: World, dir: Path, urls: seq<Url>, paths: seq<Path>, n: nat, fetch: Fetcher)
    requires n <= |urls| == |paths|
    ensures var o := SaveItems(w, dir, urls, paths, n, fetch);
            o.world.imgCount - w.imgCount == |NewFiles(w.fs, o.world.fs)|
    decreases n
  {
    if n > 0 {
      var prev := SaveItems(w, dir, urls, paths, n - 1, fetch);
      var o := SaveItems(w, dir, urls, paths, n, fetch);
      SaveItemsCountsNewFiles(w, dir, urls, paths, n - 1, fetch);
      SaveItemsGrows(w, dir, urls, paths, n - 1, fetch);
      if prev.err.None? {
        SaveItemWrites(prev.world, dir, urls[n - 1], paths[n - 1], fetch);
        if o.world.fs != prev.world.fs {
          assert NewFiles(w.fs, o.world.fs) == NewFiles(w.fs, prev.world.fs) + {paths[n - 1]};
        }
      }
    }
  }

  /** When the items' paths are pairwise distinct, every file the loop adds
      holds the bytes fetched for its own item. (With a repeated path a later
      item would find an earlier item's file and skip it.) */
  lemma {:induction false} SaveItemsWritesFetched(w: World, dir: Path, urls: seq<Url>, paths: seq<Path>, n: nat, fetch: Fetcher)
    requires n <= |urls| == |paths|
    requires forall i, j :: 0 <= i < j < |paths| ==> paths[i] != paths[j]
    ensures var o := SaveItems(w, dir, urls, paths, n, fetch);
            forall i :: 0 <= i < n ==> WroteFetched(w.fs, o.world.fs, urls, paths, i, fetch)
    decreases n
  {
    if n > 0 {
      var prev := SaveItems(w, dir, urls, paths, n - 1, fetch);
      SaveItemsWritesFetched(w, dir, urls, paths, n - 1, fetch);
      SaveItemsGrows(w, dir, urls, paths, n - 1, fetch);
      var o := SaveItems(w, dir, urls, paths, n, fetch);
      assert paths[n - 1] !in paths[..n - 1];
      if prev.err.None? {
        SaveItemWrites(prev.world, dir, urls[n - 1], paths[n - 1], fetch);
      }
      forall i | 0 <= i < n
        ensures WroteFetched(w.fs, o.world.fs, urls, paths, i, fetch)
      {
        if i < n - 1 {
          assert WroteFetched(w.fs, prev.world.fs, urls, paths, i, fetch);
          assert paths[i] != paths[n - 1];
        }
      }
    }
  }

  /** A loop that raised nothing leaves every item's path in place. */
  lemma {:induction false} SaveItemsCompletes(w: World, dir: Path, urls: seq<Url>, paths: seq<Path>, n: nat, fetch: Fetcher)
    requires n <= |urls| == |paths|
    requires SaveItems(w, dir, urls, paths, n, fetch).err.None?
    ensures var o := SaveItems(w, dir, urls, paths, n, fetch);
            forall i :: 0 <= i < n ==> paths[i] in o.world.fs
    decreases n
  {
    if n > 0 {
      var prev := SaveItems(w, dir, urls, paths, n - 1, fetch);
      SaveItemsCompletes(w, dir, urls, paths, n - 1, fetch);
      SaveItemWrites(prev.world, dir, urls[n - 1], paths[n - 1], fetch);
    }
  }

  /** When every item's path already exists, the loop writes nothing and
      leaves `_img_count` alone; if every request succeeds, each item is
      counted as already saved. */
  lemma {:induction false} SaveItemsIdle(w: World, dir: Path, urls: seq<Url>, paths: seq<Path>, n: nat, fetch: Fetcher)
    requires n <= |urls| == |paths|
    requires forall i :: 0 <= i < n ==> paths[i] in w.fs
    ensures var o := SaveItems(w, dir, urls, paths, n, fetch);
            o.world.fs == w.fs && o.world.imgCount == w.imgCount &&
            ((forall i :: 0 <= i < n ==> fetch(urls[i]).Some?) ==>
               o.err.None? && o.world.alreadySaved == w.alreadySaved + n)
    decreases n
  {
    if n > 0 {
      SaveItemsIdle(w, dir, urls, paths, n - 1, fetch);
    }
  }

  /** A first run of the loop: the directory exists, no item's path does,
      the paths are pairwise distinct and every request succeeds; then every
      item is written and none is skipped. */
  lemma {:induction false} SaveItemsFresh(w: World, dir: Path, urls: seq<Url>, paths: seq<Path>, n: nat, fetch: Fetcher)
    requires n <= |urls| == |paths|
    requires IsDir(w.fs, dir)
    requires forall i :: 0 <= i < n ==> paths[i] !in w.fs
    requires forall i, j :: 0 <= i < j < n ==> paths[i] != paths[j]
    requires forall i :: 0 <= i < n ==> fetch(urls[i]).Some?
    ensures var o := SaveItems(w, dir, urls, paths, n, fetch);
            o.err.None? && o.world.imgCount == w.imgCount + n && o.world.alreadySaved == w.alreadySaved
    decreases n
  {
    if n > 0 {
      var prev := SaveItems(w, dir, urls, paths, n - 1, fetch);
      SaveItemsFresh(w, dir, urls, paths, n - 1, fetch);
      SaveItemsGrows(w, dir, urls, paths, n - 1, fetch);
      assert paths[n - 1] !in paths[..n - 1];
      assert paths[n - 1] !in prev.world.fs;
      assert IsDir(prev.world.fs, dir);
    }
  }

  /** In an existing directory, a loop whose requests all succeed raises
      nothing. */
  lemma {:induction false} SaveItemsSucceeds(w: World, dir: Path, urls: seq<Url>, paths: seq<Path>, n: nat, fetch: Fetcher)
    requires n <= |urls| == |paths|
    requires IsDir(w.fs, dir)
    requires forall i :: 0 <= i < n ==> fetch(urls[i]).Some?
    ensures SaveItems(w, dir, urls, paths, n, fetch).err.None?
    decreases n
  {
    if n > 0 {
      SaveItemsSucceeds(w, dir, urls, paths, n - 1, fetch);
      SaveItemsGrows(w, dir, urls, paths, n - 1, fetch);
    }
  }

  /** Every write lands in the loop's directory, which must already exist,
      so a well-formed filesystem stays well-formed. */
  lemma {:induction false} SaveItemsPreservesWellFormed(w: World, dir: Path, urls: seq<Url>, paths: seq<Path>, n: nat, fetch: Fetcher)
    requires n <= |urls| == |paths|
    requires WellFormed(w.fs)
    requires forall i :: 0 <= i < |paths| ==> IsChild(paths[i], dir)
    ensures WellFormed(SaveItems(w, dir, urls, paths, n, fetch).world.fs)
    decreases n
  {
    if n > 0 {
      var prev := SaveItems(w, dir, urls, paths, n - 1, fetch);
      SaveItemsPreservesWellFormed(w, dir, urls, paths, n - 1, fetch);
      SaveItemWrites(prev.world, dir, urls[n - 1], paths[n - 1], fetch);
      var p := paths[n - 1];
      assert p != [] && Parent(p) == dir;
    }
  }

  // ---------------------------------------------------------------------
  // The target paths of a post

  /** The items of one post have pairwise distinct target paths, each
      directly inside the post's directory. */
  lemma ItemPathsLayout(post: Post, outdir: Path, individual: bool)
    ensures var paths := ItemPaths(post, outdir, individual);
            (forall i, j :: 0 <= i < j < |paths| ==> paths[i] != paths[j]) &&
            (forall i :: 0 <= i < |paths| ==> IsChild(paths[i], PostDir(outdir, post.id, individual)))
  {
    var paths := ItemPaths(post, outdir, individual);
    forall i, j | 0 <= i < j < |paths|
      ensures paths[i] != paths[j]
    {
      if paths[i] == paths[j] {
        TargetPathsDistinctWithinPost(outdir, post.id, individual, i, j, post.media[i], post.media[j]);
      }
    }
  }

  // ---------------------------------------------------------------------
  // A whole call

  /** Every item of `post` fetches without an exception. */
  predicate FetchesSucceed(fetch: Fetcher, post: Post) {
    forall i :: 0 <= i < |post.media| ==> fetch(post.media[i]).Some?
  }

  /** Post `post` needs nothing more: in per-post mode its directory holds
      as many entries as it has items, or (in either mode) its directory and
      every one of its target paths exist. */
  predicate Settled(fs: FileSystem, post: Post, outdir: Path, individual: bool) {
    var dir := PostDir(outdir, post.id, individual);
    var paths := ItemPaths(post, outdir, individual);
    (individual && dir in fs && CountEntries(fs, dir) == |post.media|) ||
    ((individual ==> dir in fs) && forall i :: 0 <= i < |paths| ==> paths[i] in fs)
  }

  /** Per-post short cut: when the post's directory exists and holds as many
      entries as the post has media items, the call requests nothing, writes
      nothing, leaves `_img_count` alone and counts every item as already
      saved. */
  lemma DownloadShortCircuit(w: World, post: Post, outdir: Path, fetch: Fetcher)
    requires PostDir(outdir, post.id, true) in w.fs
    requires CountEntries(w.fs, PostDir(outdir, post.id, true)) == |post.media|
    ensures var o := Download(w, post, outdir, true, fetch);
            o.err.None? && o.world.fs == w.fs && o.world.requested == w.requested &&
            o.world.imgCount == w.imgCount &&
            o.world.alreadySaved == w.alreadySaved + |post.media|
  {
  }

  /** The counters: a call that raises nothing accounts for every media item
      exactly once, as written or as already saved; any call accounts for at
      most that many; `_img_count` grows by the number of files created; and
      the URLs requested are the post's first few media URLs, in order. */
  lemma DownloadAccounting(w: World, post: Post, outdir: Path, individual: bool, fetch: Fetcher)
    ensures var o := Download(w, post, outdir, individual, fetch);
            var m := |o.world.requested| - |w.requested|;
            0 <= m <= |post.media| && o.world.requested == w.requested + post.media[..m] &&
            o.world.imgCount >= w.imgCount && o.world.alreadySaved >= w.alreadySaved &&
            Handled(o.world) <= Handled(w) + |post.media| &&
            (o.err.None? ==> Handled(o.world) == Handled(w) + |post.media|) &&
            o.world.imgCount - w.imgCount == |NewFiles(w.fs, o.world.fs)|
  {
    var n, dir, paths := |post.media|, PostDir(outdir, post.id, individual), ItemPaths(post, outdir, individual);
    var o := Download(w, post, outdir, individual, fetch);
    if !individual || dir in w.fs {
      if !(individual && CountEntries(w.fs, dir) == n) {
        SaveItemsAccounting(w, dir, post.media, paths, n, fetch);
        SaveItemsCountsNewFiles(w, dir, post.media, paths, n, fetch);
      } else {
        assert NewFiles(w.fs, o.world.fs) == {};
      }
    } else if IsDir(w.fs, outdir) {
      var w1 := w.(fs := w.fs[dir := Dir]);
      SaveItemsAccounting(w1, dir, post.media, paths, n, fetch);
      SaveItemsCountsNewFiles(w1, dir, post.media, paths, n, fetch);
      SaveItemsGrows(w1, dir, post.media, paths, n, fetch);
      assert NewFiles(w.fs, o.world.fs) == NewFiles(w1.fs, o.world.fs);
    } else {
      assert NewFiles(w.fs, o.world.fs) == {};
    }
  }

  /** No overwrite: every entry that existed keeps its contents; what a call
      adds is the post's directory (per-post mode) and files at the post's
      target paths. */
  lemma DownloadNoOverwrite(w: World, post: Post, outdir: Path, individual: bool, fetch: Fetcher)
    ensures var o := Download(w, post, outdir, individual, fetch);
            var dir := PostDir(outdir, post.id, individual);
            var paths := ItemPaths(post, outdir, individual);
            Extends(w.fs, o.world.fs) &&
            (forall p :: p in o.world.fs && p !in w.fs ==>
               (individual && p == dir && o.world.fs[p] == Dir) || (p in paths && o.world.fs[p].File?))
  {
    var n, dir, paths := |post.media|, PostDir(outdir, post.id, individual), ItemPaths(post, outdir, individual);
    ItemPathsLayout(post, outdir, individual);
    assert paths[..n] == paths;
    if !individual || dir in w.fs {
      if !(individual && CountEntries(w.fs, dir) == n) {
        SaveItemsGrows(w, dir, post.media, paths, n, fetch);
      }
    } else if IsDir(w.fs, outdir) {
      var w1 := w.(fs := w.fs[dir := Dir]);
      SaveItemsGrows(w1, dir, post.media, paths, n, fetch);
      forall i | 0 <= i < n
        ensures paths[i] != dir
      {
        assert IsChild(paths[i], dir);
      }
    }
  }

  /** Every file a call adds at a target path holds the bytes fetched for
      that item's own URL. */
  lemma DownloadWritesFetched(w: World, post: Post, outdir: Path, individual: bool, fetch: Fetcher)
    ensures var o := Download(w, post, outdir, individual, fetch);
            var paths := ItemPaths(post, outdir, individual);
            forall i :: 0 <= i < |paths| ==> WroteFetched(w.fs, o.world.fs, post.media, paths, i, fetch)
  {
    ItemPathsLayout(post, outdir, individual);
    var dir, paths := PostDir(outdir, post.id, individual), ItemPaths(post, outdir, individual);
    var w1 := if !individual || dir in w.fs then w else w.(fs := w.fs[dir := Dir]);
    if !individual || dir in w.fs || IsDir(w.fs, outdir) {
      SaveItemsWritesFetched(w1, dir, post.media, paths, |post.media|, fetch);
      SaveItemsGrows(w1, dir, post.media, paths, |post.media|, fetch);
      forall i | 0 <= i < |paths|
        ensures WroteFetched(w.fs, Download(w, post, outdir, individual, fetch).world.fs, post.media, paths, i, fetch)
      {
        assert WroteFetched(w1.fs, SaveItems(w1, dir, post.media, paths, |post.media|, fetch).world.fs, post.media, paths, i, fetch);
        assert IsChild(paths[i], dir);
      }
    }
  }

  /** A call that raises nothing leaves its post settled. */
  lemma DownloadSettles(w: World, post: Post, outdir: Path, individual: bool, fetch: Fetcher)
    requires Download(w, post, outdir, individual, fetch).err.None?
    ensures Settled(Download(w, post, outdir, individual, fetch).world.fs, post, outdir, individual)
  {
    var n, dir, paths := |post.media|, PostDir(outdir, post.id, individual), ItemPaths(post, outdir, individual);
    var o := Download(w, post, outdir, individual, fetch);
    if !individual || dir in w.fs {
      if !(individual && CountEntries(w.fs, dir) == n) {
        SaveItemsCompletes(w, dir, post.media, paths, n, fetch);
        SaveItemsGrows(w, dir, post.media, paths, n, fetch);
      }
    } else {
      var w1 := w.(fs := w.fs[dir := Dir]);
      SaveItemsCompletes(w1, dir, post.media, paths, n, fetch);
      SaveItemsGrows(w1, dir, post.media, paths, n, fetch);
    }
  }

  /** A call on a settled post writes nothing and leaves `_img_count` alone;
      if every request succeeds it raises nothing and counts every item as
      already saved. */
  lemma DownloadIdle(w: World, post: Post, outdir: Path, individual: bool, fetch: Fetcher)
    requires Settled(w.fs, post, outdir, individual)
    ensures var o := Download(w, post, outdir, individual, fetch);
            o.world.fs == w.fs && o.world.imgCount == w.imgCount &&
            (FetchesSucceed(fetch, post) ==>
               o.err.None? && o.world.alreadySaved == w.alreadySaved + |post.media|)
  {
    var n, dir, paths := |post.media|, PostDir(outdir, post.id, individual), ItemPaths(post, outdir, individual);
    if !(individual && dir in w.fs && CountEntries(w.fs, dir) == n) {
      SaveItemsIdle(w, dir, post.media, paths, n, fetch);
    }
  }

  /** Re-run idempotence: calling `downloadImages` again for the same post,
      on the filesystem a call that raised nothing left behind, writes no
      file and does not raise `_img_count`, whatever the network returns;
      when every request succeeds, all items are counted as already saved. */
  lemma DownloadRerun(w: World, post: Post, outdir: Path, individual: bool, fetch: Fetcher, fetch': Fetcher)
    requires Download(w, post, outdir, individual, fetch).err.None?
    ensures var o := Download(w, post, outdir, individual, fetch);
            var o' := Download(o.world, post, outdir, individual, fetch');
            o'.world.fs == o.world.fs && o'.world.imgCount == o.world.imgCount &&
            (FetchesSucceed(fetch', post) ==>
               o'.err.None? && o'.world.alreadySaved == o.world.alreadySaved + |post.media|)
  {
    DownloadSettles(w, post, outdir, individual, fetch);
    DownloadIdle(Download(w, post, outdir, individual, fetch).world, post, outdir, individual, fetch');
  }

  /** A call never leaves an entry outside a directory. */
  lemma DownloadPreservesWellFormed(w: World, post: Post, outdir: Path, individual: bool, fetch: Fetcher)
    requires WellFormed(w.fs)
    ensures WellFormed(Download(w, post, outdir, individual, fetch).world.fs)
  {
    var n, dir, paths := |post.media|, PostDir(outdir, post.id, individual), ItemPaths(post, outdir, individual);
    ItemPathsLayout(post, outdir, individual);
    if !individual || dir in w.fs {
      SaveItemsPreservesWellFormed(w, dir, post.media, paths, n, fetch);
    } else if IsDir(w.fs, outdir) {
      var w1 := w.(fs := w.fs[dir := Dir]);
      assert dir != [] && Parent(dir) == outdir;
      assert WellFormed(w1.fs);
      SaveItemsPreservesWellFormed(w1, dir, post.media, paths, n, fetch);
    }
  }

  /** A first call in per-post mode: the output directory exists, the
      post's directory does not, and every request succeeds; then the call
      creates the directory, writes every item and skips none. */
  lemma DownloadFresh(w: World, post: Post, outdir: Path, fetch: Fetcher)
    requires WellFormed(w.fs) && IsDir(w.fs, outdir)
    requires PostDir(outdir, post.id, true) !in w.fs
    requires FetchesSucceed(fetch, post)
    ensures var o := Download(w, post, outdir, true, fetch);
            o.err.None? && o.world.imgCount == w.imgCount + |post.media| && o.world.alreadySaved == w.alreadySaved
  {
    var n, dir, paths := |post.media|, PostDir(outdir, post.id, true), ItemPaths(post, outdir, true);
    ItemPathsLayout(post, outdir, true);
    var w1 := w.(fs := w.fs[dir := Dir]);
    forall i | 0 <= i < n
      ensures paths[i] !in w1.fs
    {
      assert IsChild(paths[i], dir);
      assert paths[i] != [] && Parent(paths[i]) == dir;
    }
    SaveItemsFresh(w1, dir, post.media, paths, n, fetch);
  }

  /** A per-post directory that exists but holds a number of entries other
      than the post's item count is not skipped: every item is requested
      again, in order, yet no existing entry is changed and afterwards every
      item's file is present. */
  lemma DownloadPartialDirectory(w: World, post: Post, outdir: Path, fetch: Fetcher)
    requires IsDir(w.fs, PostDir(outdir, post.id, true))
    requires CountEntries(w.fs, PostDir(outdir, post.id, true)) != |post.media|
    requires FetchesSucceed(fetch, post)
    ensures var o := Download(w, post, outdir, true, fetch);
            o.err.None? && o.world.requested == w.requested + post.media &&
            Extends(w.fs, o.world.fs) &&
            forall i :: 0 <= i < |post.media| ==> ItemPaths(post, outdir, true)[i] in o.world.fs
  {
    var n, dir, paths := |post.media|, PostDir(outdir, post.id, true), ItemPaths(post, outdir, true);
    SaveItemsSucceeds(w, dir, post.media, paths, n, fetch);
    SaveItemsAccounting(w, dir, post.media, paths, n, fetch);
    SaveItemsGrows(w, dir, post.media, paths, n, fetch);
    SaveItemsCompletes(w, dir, post.media, paths, n, fetch);
    assert post.media[..n] == post.media;
  }
}
