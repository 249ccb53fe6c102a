/** The thread walk of `main` (threader.py, lines 100-128): from the leaf
    post, handle each post's media and follow `in_reply_to_status_id` until
    it is falsy. Posts are looked up in a finite store instead of the API. */
module Walk {
  import opened Common
  import opened Decimal
  import opened Naming
  import opened Files
  import opened Download

  /** What `get_status` can answer: the post stored under an id. */
  type PostStore = map<Id, Post>

  /** Each post is stored under its own id, and a reply was posted after the
      post it answers, so its parent's id is smaller (ids grow with time).
      This ranking is what makes every chain of replies finite. */
  predicate Ranked(posts: PostStore) {
    forall k :: k in posts ==> posts[k].id == k && (HasParent(posts[k]) ==> posts[k].parent.value < k)
  }

  /** The ids the walk visits from `id`: each next one is the parent of the
      one before, so the ids fall strictly and none repeats; the chain ends at
      a post with no (truthy) parent, or whose parent is not in the store. */
  function Chain(posts: PostStore, id: Id): (c: seq<Id>)
    requires Ranked(posts) && id in posts
    ensures |c| >= 1 && c[0] == id
    ensures forall k :: 0 <= k < |c| ==> c[k] in posts
    ensures forall k :: 0 <= k < |c| - 1 ==> HasParent(posts[c[k]]) && posts[c[k]].parent.value == c[k + 1]
    ensures forall j, k :: 0 <= j < k < |c| ==> c[k] < c[j]
    ensures !HasParent(posts[c[|c| - 1]]) || posts[c[|c| - 1]].parent.value !in posts
    decreases id
  {
    var p := posts[id];
    if HasParent(p) && p.parent.value in posts then [id] + Chain(posts, p.parent.value) else [id]
  }

  /** How `main` ends, as far as the walk decides it. */
  datatype WalkResult =
    | LeafUnavailable                              // the first `get_status` failed: `die`
    | Finished(tweetCount: nat)                    // left the loop at a post with no parent
    | ParentUnavailable(tweetCount: nat, missing: Id) // `get_status` on a parent raised, uncaught

  /** The walk's verdict for a store and a leaf id. */
  function WalkResultOf(posts: PostStore, leaf: Id): WalkResult
    requires Ranked(posts)
  {
    if leaf !in posts then LeafUnavailable
    else
      var c := Chain(posts, leaf);
      var last := posts[c[|c| - 1]];
      if HasParent(last) then ParentUnavailable(|c|, last.parent.value) else Finished(|c|)
  }

  /** One turn of the loop for one post: a post without media is skipped,
      otherwise `downloadImages` runs, and an exception from it is caught. */
  function ProcessPost(w: World, post: Post, outdir: Path, individual: bool, fetch: Fetcher): Outcome {
    if |post.media| == 0 then Outcome(w, None) else Download.Download(w, post, outdir, individual, fetch)
  }

  /** The state after handling the posts `ids` in order, and how many of
      those calls raised (each printed "Something went wrong"). */
  datatype Progress = Progress(world: World, raised: nat)

  function ProcessChain(w: World, posts: PostStore, ids: seq<Id>, outdir: Path, individual: bool, fetch: Fetcher): Progress
    requires forall k :: k in ids ==> k in posts
    decreases |ids|
  {
    if ids == [] then Progress(w, 0)
    else
      var pr := ProcessChain(w, posts, ids[..|ids| - 1], outdir, individual, fetch);
      var o := ProcessPost(pr.world, posts[ids[|ids| - 1]], outdir, individual, fetch);
      Progress(o.world, pr.raised + if o.err.Some? then 1 else 0)
  }

  /** Handling the first n+1 posts of `ids` is handling the first n, then
      post n. */
  lemma ProcessChainPrefix(w: World, posts: PostStore, ids: seq<Id>, n: nat, outdir: Path, individual: bool, fetch: Fetcher)
    requires n < |ids|
    requires forall k :: k in ids ==> k in posts
    ensures forall k :: k in ids[..n] ==> k in posts
    ensures var pr := ProcessChain(w, posts, ids[..n], outdir, individual, fetch);
            var o := ProcessPost(pr.world, posts[ids[n]], outdir, individual, fetch);
            ProcessChain(w, posts, ids[..n + 1], outdir, individual, fetch)
              == Progress(o.world, pr.raised + if o.err.Some? then 1 else 0)
  {
    assert ids[..n + 1][..n] == ids[..n];
  }

  /** Where the walk stands after n+1 posts of the chain: it goes on to the
      parent exactly when the parent is set and in the store, and that
      parent is the next post of the chain; otherwise the chain is done. */
  lemma ChainNext(posts: PostStore, leaf: Id, n: nat)
    requires Ranked(posts) && leaf in posts && n < |Chain(posts, leaf)|
    ensures var c := Chain(posts, leaf);
            var p := posts[c[n]];
            if HasParent(p) && p.parent.value in posts then n + 1 < |c| && c[n + 1] == p.parent.value
            else n + 1 == |c| && c[..n + 1] == c
  {
  }

  /** The number of media items of the posts `ids`. */
  function MediaTotal(posts: PostStore, ids: seq<Id>): nat
    requires forall k :: k in ids ==> k in posts
    decreases |ids|
  {
    if ids == [] then 0
    else MediaTotal(posts, ids[..|ids| - 1]) + |posts[ids[|ids| - 1]].media|
  }

  /** No id occurs twice in `ids`. */
  predicate Distinct(ids: seq<Id>) {
    forall j, k :: 0 <= j < k < |ids| ==> ids[j] != ids[k]
  }

  /** Every request for a media item of the posts `ids` succeeds. */
  predicate ThreadFetchesSucceed(fetch: Fetcher, posts: PostStore, ids: seq<Id>) {
    forall k :: k in ids && k in posts ==> FetchesSucceed(fetch, posts[k])
  }

  // ---------------------------------------------------------------------
  // Termination and the tweet count

  lemma {:induction false} DistinctWithin(ids: seq<Id>, keys: set<Id>)
    requires Distinct(ids)
    requires forall k :: k in ids ==> k in keys
    ensures |ids| <= |keys|
    decreases |ids|
  {
    if ids != [] {
      var rest := ids[1..];
      assert forall k :: k in rest ==> k in keys - {ids[0]} by {
        forall k | k in rest ensures k in keys - {ids[0]} {
          var j :| 0 <= j < |rest| && rest[j] == k;
          assert ids[j + 1] == k;
        }
      }
      DistinctWithin(rest, keys - {ids[0]});
    }
  }

  /** The walk visits at most as many posts as the store holds, so it stops
      within that many turns, and `tweet_count` is the length of the chain. */
  lemma ChainLengthBound(posts: PostStore, leaf: Id)
    requires Ranked(posts) && leaf in posts
    ensures var c := Chain(posts, leaf);
            |c| <= |posts| && Distinct(c)
  {
    var c := Chain(posts, leaf);
    assert forall k :: k in c ==> k in posts.Keys;
    DistinctWithin(c, posts.Keys);
  }

  // ---------------------------------------------------------------------
  // Counters over a whole walk

  /** Over the posts of a walk no entry is changed or removed, and
      `_img_count` grows by the number of files created: the count printed
      at the end is the number of files the run wrote. */
  lemma {:induction false} ProcessChainGrows(w: World, posts: PostStore, ids: seq<Id>, outdir: Path, individual: bool, fetch: Fetcher)
    requires forall k :: k in ids ==> k in posts
    ensures var pr := ProcessChain(w, posts, ids, outdir, individual, fetch);
            Extends(w.fs, pr.world.fs) &&
            pr.world.imgCount - w.imgCount == |NewFiles(w.fs, pr.world.fs)|
    decreases |ids|
  {
    if ids != [] {
      var init := ids[..|ids| - 1];
      var pr := ProcessChain(w, posts, init, outdir, individual, fetch);
      ProcessChainGrows(w, posts, init, outdir, individual, fetch);
      var post := posts[ids[|ids| - 1]];
      var o := ProcessPost(pr.world, post, outdir, individual, fetch);
      if |post.media| > 0 {
        DownloadAccounting(pr.world, post, outdir, individual, fetch);
        DownloadNoOverwrite(pr.world, post, outdir, individual, fetch);
      }
      var f0, f1, f2 := w.fs, pr.world.fs, o.world.fs;
      assert NewFiles(f0, f2) == NewFiles(f0, f1) + NewFiles(f1, f2);
      assert NewFiles(f0, f1) !! NewFiles(f1, f2);
    }
  }

  /** Over the posts of a walk at most one item is accounted for (written
      or already saved) per media item, and exactly one per media item when
      no `downloadImages` call raised; at most one call raises per post. */
  lemma {:induction false} ProcessChainAccounting(w: World, posts: PostStore, ids: seq<Id>, outdir: Path, individual: bool, fetch: Fetcher)
    requires forall k :: k in ids ==> k in posts
    ensures var pr := ProcessChain(w, posts, ids, outdir, individual, fetch);
            Handled(w) <= Handled(pr.world) <= Handled(w) + MediaTotal(posts, ids) &&
            (pr.raised == 0 ==> Handled(pr.world) == Handled(w) + MediaTotal(posts, ids)) &&
            pr.raised <= |ids|
    decreases |ids|
  {
    if ids != [] {
      var init := ids[..|ids| - 1];
      var pr := ProcessChain(w, posts, init, outdir, individual, fetch);
      ProcessChainAccounting(w, posts, init, outdir, individual, fetch);
      var post := posts[ids[|ids| - 1]];
      if |post.media| > 0 {
        DownloadAccounting(pr.world, post, outdir, individual, fetch);
      }
    }
  }

  // ---------------------------------------------------------------------
  // Re-running the walk

  /** The post needs nothing more from the walk: it has no media, or its
      download is settled. */
  predicate Done(fs: FileSystem, post: Post, outdir: Path, individual: bool) {
    |post.media| == 0 || Settled(fs, post, outdir, individual)
  }

  /** Handling one post does not unsettle another: it only adds entries
      under its own directory (and that directory), and different ids give
      different directories. */
  lemma DoneStable(w: World, a: Post, b: Post, outdir: Path, individual: bool, fetch: Fetcher)
    requires Done(w.fs, a, outdir, individual)
    requires a.id != b.id
    ensures Done(ProcessPost(w, b, outdir, individual, fetch).world.fs, a, outdir, individual)
  {
    var fs' := ProcessPost(w, b, outdir, individual, fetch).world.fs;
    if |a.media| > 0 && |b.media| > 0 {
      DownloadNoOverwrite(w, b, outdir, individual, fetch);
      ItemPathsLayout(b, outdir, individual);
      var dirA, dirB := PostDir(outdir, a.id, individual), PostDir(outdir, b.id, individual);
      if individual && dirA in w.fs && CountEntries(w.fs, dirA) == |a.media| {
        forall p | p in fs' && p !in w.fs
          ensures !IsChild(p, dirA)
        {
          if IsChild(p, dirA) {
            assert IsChild(p, dirB);
            assert dirA == p[..|dirA|] == dirB;
            assert NatToString(a.id) == dirA[|outdir|] == dirB[|outdir|] == NatToString(b.id);
            NatToStringInjective(a.id, b.id);
          }
        }
        CountEntriesUnchanged(w.fs, fs', dirA);
      }
    }
  }

  /** After a walk over distinct posts in which no call raised, every one of
      those posts is done. */
  lemma {:induction false} ProcessChainSettles(w: World, posts: PostStore, ids: seq<Id>, outdir: Path, individual: bool, fetch: Fetcher)
    requires Ranked(posts) && Distinct(ids)
    requires forall k :: k in ids ==> k in posts
    requires ProcessChain(w, posts, ids, outdir, individual, fetch).raised == 0
    ensures var fs := ProcessChain(w, posts, ids, outdir, individual, fetch).world.fs;
            forall k :: k in ids ==> Done(fs, posts[k], outdir, individual)
    decreases |ids|
  {
    if ids != [] {
      var init, last := ids[..|ids| - 1], ids[|ids| - 1];
      var pr := ProcessChain(w, posts, init, outdir, individual, fetch);
      ProcessChainSettles(w, posts, init, outdir, individual, fetch);
      var post := posts[last];
      var fs := ProcessPost(pr.world, post, outdir, individual, fetch).world.fs;
      if |post.media| > 0 {
        DownloadSettles(pr.world, post, outdir, individual, fetch);
      }
      forall k | k in ids
        ensures Done(fs, posts[k], outdir, individual)
      {
        if k != last {
          var j :| 0 <= j < |ids| && ids[j] == k;
          assert k in init by { assert init[j] == k; }
          DoneStable(pr.world, posts[k], post, outdir, individual, fetch);
        }
      }
    }
  }

  /** A walk over posts that are all done writes nothing and leaves
      `_img_count` alone; if no request for their media fails, no call raises
      and every media item is counted as already saved. */
  lemma {:induction false} ProcessChainIdle(w: World, posts: PostStore, ids: seq<Id>, outdir: Path, individual: bool, fetch: Fetcher)
    requires forall k :: k in ids ==> k in posts
    requires forall k :: k in ids ==> Done(w.fs, posts[k], outdir, individual)
    ensures var pr := ProcessChain(w, posts, ids, outdir, individual, fetch);
            pr.world.fs == w.fs && pr.world.imgCount == w.imgCount &&
            (ThreadFetchesSucceed(fetch, posts, ids) ==>
               pr.raised == 0 && pr.world.alreadySaved == w.alreadySaved + MediaTotal(posts, ids))
    decreases |ids|
  {
    if ids != [] {
      var init, last := ids[..|ids| - 1], ids[|ids| - 1];
      var pr := ProcessChain(w, posts, init, outdir, individual, fetch);
      assert forall k :: k in init ==> k in ids;
      ProcessChainIdle(w, posts, init, outdir, individual, fetch);
      var post := posts[last];
      if |post.media| > 0 {
        DownloadIdle(pr.world, post, outdir, individual, fetch);
      }
    }
  }

  /** Re-run idempotence of the whole walk: walking the same thread again,
      on the filesystem a walk in which no `downloadImages` call raised left
      behind, creates no file and does not raise `_img_count`, whatever the
      network does; when no request for the thread's media fails, nothing
      raises and every media item of the thread is counted as already saved. */
  lemma WalkRerun(w: World, posts: PostStore, leaf: Id, outdir: Path, individual: bool, fetch: Fetcher, fetch': Fetcher)
    requires Ranked(posts) && leaf in posts
    requires ProcessChain(w, posts, Chain(posts, leaf), outdir, individual, fetch).raised == 0
    ensures var c := Chain(posts, leaf);
            var first := ProcessChain(w, posts, c, outdir, individual, fetch).world;
            var second := ProcessChain(first, posts, c, outdir, individual, fetch');
            second.world.fs == first.fs && second.world.imgCount == first.imgCount &&
            (ThreadFetchesSucceed(fetch', posts, c) ==>
               second.raised == 0 && second.world.alreadySaved == first.alreadySaved + MediaTotal(posts, c))
  {
    var c := Chain(posts, leaf);
    ChainLengthBound(posts, leaf);
    ProcessChainSettles(w, posts, c, outdir, individual, fetch);
    ProcessChainIdle(ProcessChain(w, posts, c, outdir, individual, fetch).world, posts, c, outdir, individual, fetch');
  }

  // ---------------------------------------------------------------------
  // A first walk in per-post mode

  /** Handling post `b` in per-post mode never creates the directory of
      another post. */
  lemma DirStaysAbsent(w: World, a: Id, b: Post, outdir: Path, fetch: Fetcher)
    requires a != b.id && PostDir(outdir, a, true) !in w.fs
    ensures PostDir(outdir, a, true) !in ProcessPost(w, b, outdir, true, fetch).world.fs
  {
    var dirA, dirB := PostDir(outdir, a, true), PostDir(outdir, b.id, true);
    if |b.media| > 0 {
      DownloadNoOverwrite(w, b, outdir, true, fetch);
      ItemPathsLayout(b, outdir, true);
      if dirA == dirB {
        assert NatToString(a) == dirA[|outdir|] == dirB[|outdir|] == NatToString(b.id);
        NatToStringInjective(a, b.id);
      }
      forall i | 0 <= i < |b.media|
        ensures ItemPaths(b, outdir, true)[i] != dirA
      {
        assert IsChild(ItemPaths(b, outdir, true)[i], dirB);
      }
    }
  }

  /** A first walk in per-post mode over distinct posts, starting with an
      existing output directory and none of the posts' directories, with
      every request succeeding: no call raises, every media item is written
      and none is counted as already saved. */
  lemma {:induction false} ProcessChainFresh(w: World, posts: PostStore, ids: seq<Id>, outdir: Path, fetch: Fetcher)
    requires Ranked(posts) && Distinct(ids)
    requires forall k :: k in ids ==> k in posts
    requires WellFormed(w.fs) && IsDir(w.fs, outdir)
    requires forall k :: k in ids ==> PostDir(outdir, k, true) !in w.fs
    requires ThreadFetchesSucceed(fetch, posts, ids)
    ensures var pr := ProcessChain(w, posts, ids, outdir, true, fetch);
            pr.raised == 0 && pr.world.imgCount == w.imgCount + MediaTotal(posts, ids) &&
            pr.world.alreadySaved == w.alreadySaved
    ensures var fs := ProcessChain(w, posts, ids, outdir, true, fetch).world.fs;
            WellFormed(fs) && IsDir(fs, outdir) &&
            forall k :: k !in ids && PostDir(outdir, k, true) !in w.fs ==> PostDir(outdir, k, true) !in fs
    decreases |ids|
  {
    if ids != [] {
      var init, last := ids[..|ids| - 1], ids[|ids| - 1];
      assert forall k :: k in init ==> k in ids;
      var pr := ProcessChain(w, posts, init, outdir, true, fetch);
      ProcessChainFresh(w, posts, init, outdir, fetch);
      assert last !in init;
      var post := posts[last];
      var o := ProcessPost(pr.world, post, outdir, true, fetch);
      if |post.media| > 0 {
        DownloadFresh(pr.world, post, outdir, fetch);
        DownloadPreservesWellFormed(pr.world, post, outdir, true, fetch);
        DownloadNoOverwrite(pr.world, post, outdir, true, fetch);
      }
      forall k | k !in ids && PostDir(outdir, k, true) !in w.fs
        ensures PostDir(outdir, k, true) !in o.world.fs
      {
        DirStaysAbsent(pr.world, k, post, outdir, fetch);
      }
    }
  }
}
