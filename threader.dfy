/** The running script: the module globals `_img_count` and
    `_already_saved_img_count`, the filesystem and the requests made, updated
    in place by `downloadImages` (threader.py, lines 22-58) and by the walk in
    `main` (threader.py, lines 100-128). Each method is proved to leave the
    state the functions of modules Download and Walk describe. */
module Threader {
  import opened Common
  import opened Decimal
  import opened Naming
  import opened Files
  import opened Download
  import opened Walk

  class Session {
    var fs: FileSystem
    var imgCount: nat          // `_img_count`
    var alreadySaved: nat      // `_already_saved_img_count`
    var requested: seq<Url>    // every URL passed to `requests.get`, in order

    /** The session's state as a value. */
    function State(): World
      reads this
    {
      World(fs, imgCount, alreadySaved, requested)
    }

    /** A fresh run: both counters start at 0 and nothing was requested. */
    constructor(fs0: FileSystem)
      ensures State() == World(fs0, 0, 0, [])
    {
      fs := fs0;
      imgCount := 0;
      alreadySaved := 0;
      requested := [];
    }

    /** One turn of the loop of `downloadImages`: request `url`, then count
        the item as already saved if `finalPath` exists, else write the
        response to it. */
    method SaveImage(finalDir: Path, url: Url, finalPath: Path, fetch: Fetcher) returns (err: Option<Error>)
      modifies this
      ensures Outcome(State(), err) == SaveItem(old(State()), finalDir, url, finalPath, fetch)
    {
      var res := fetch(url);
      requested := requested + [url];
      if res.None? {
        return Some(FetchFailed(url));
      }
      if finalPath in fs {
        alreadySaved := alreadySaved + 1;
      } else {
        if !IsDir(fs, finalDir) {
          return Some(NotADirectory(finalDir));
        }
        fs := fs[finalPath := File(res.value)];
        imgCount := imgCount + 1;
      }
      return None;
    }

    /** `downloadImages(status, outdir, individual_dir)`: returns the
        exception it raised, if any, and leaves the state `Download`
        describes. */
    method DownloadImages(post: Post, outdir: Path, individualDir: bool, fetch: Fetcher) returns (err: Option<Error>)
      modifies this
      ensures Outcome(State(), err) == Download.Download(old(State()), post, outdir, individualDir, fetch)
    {
      var images := post.media;
      ghost var paths := ItemPaths(post, outdir, individualDir);
      var finalDir := outdir;
      if individualDir {
        finalDir := outdir + [NatToString(post.id)];
        if finalDir in fs {
          // `mkdir` raised FileExistsError
          var fileCount := CountEntries(fs, finalDir);
          if fileCount == |images| {
            alreadySaved := alreadySaved + fileCount;
            return None;
          }
        } else if !IsDir(fs, outdir) {
          return Some(NotADirectory(outdir));
        } else {
          fs := fs[finalDir := Dir];
        }
      }
      ghost var w0 := State();
      assert Download.Download(old(State()), post, outdir, individualDir, fetch)
          == SaveItems(w0, finalDir, images, paths, |images|, fetch);
      var i := 0;
      while i < |images|
        invariant 0 <= i <= |images|
        invariant Outcome(State(), None) == SaveItems(w0, finalDir, images, paths, i, fetch)
      {
        var fileName := NumberedName(i, images[i]);
        if !individualDir {
          fileName := NatToString(post.id) + fileName;
        }
        assert finalDir + [fileName] == paths[i];
        err := SaveImage(finalDir, images[i], finalDir + [fileName], fetch);
        if err.Some? {
          SaveItemsStopsAtError(w0, finalDir, images, paths, i + 1, |images|, fetch);
          return;
        }
        i := i + 1;
      }
      return None;
    }

    /** One turn of the walk for `post`: skip it if it has no media, else
        call `downloadImages` and catch what it raises. */
    method HandlePost(post: Post, outdir: Path, individualDir: bool, fetch: Fetcher) returns (failed: bool)
      modifies this
      ensures State() == ProcessPost(old(State()), post, outdir, individualDir, fetch).world
      ensures failed == ProcessPost(old(State()), post, outdir, individualDir, fetch).err.Some?
    {
      failed := false;
      if |post.media| > 0 {
        var err := DownloadImages(post, outdir, individualDir, fetch);
        // caught: "Something went wrong. Carrying on..."
        failed := err.Some?;
      }
    }

    /** The `while 1` loop of `main`, from the post `leaf`: returns how the
        walk ended, with the number of posts handled, and how many
        `downloadImages` calls raised; the state is the one `ProcessChain`
        gives for the chain of replies from `leaf`. */
    method WalkThread(posts: PostStore, leaf: Id, outdir: Path, individualDir: bool, fetch: Fetcher)
      returns (r: WalkResult, raised: nat)
      requires Ranked(posts)
      modifies this
      ensures r == WalkResultOf(posts, leaf)
      ensures leaf !in posts ==> State() == old(State()) && raised == 0
      ensures leaf in posts ==>
        Progress(State(), raised) == ProcessChain(old(State()), posts, Chain(posts, leaf), outdir, individualDir, fetch)
    {
      raised := 0;
      if leaf !in posts {
        return LeafUnavailable, raised;
      }
      var lastTweet := posts[leaf];
      var tweetCount := 0;
      ghost var c := Chain(posts, leaf);
      ghost var w0 := State();
      assert c[..0] == [];
      while true
        invariant tweetCount < |c| && c[tweetCount] == lastTweet.id && posts[lastTweet.id] == lastTweet
        invariant Progress(State(), raised) == ProcessChain(w0, posts, c[..tweetCount], outdir, individualDir, fetch)
        decreases lastTweet.id
      {
        ProcessChainPrefix(w0, posts, c, tweetCount, outdir, individualDir, fetch);
        ChainNext(posts, leaf, tweetCount);
        tweetCount := tweetCount + 1;
        var failed := HandlePost(lastTweet, outdir, individualDir, fetch);
        if failed {
          raised := raised + 1;
        }
        if !HasParent(lastTweet) {
          return Finished(tweetCount), raised;
        }
        var parent := lastTweet.parent.value;
        if parent !in posts {
          return ParentUnavailable(tweetCount, parent), raised;
        }
        lastTweet := posts[parent];
      }
    }
  }
}
