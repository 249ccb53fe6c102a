/** A worked thread of three posts: the root has no media, its reply has
    two images and the leaf, replying to that, has one. */
module Scenario {
  import opened Common
  import opened Naming
  import opened Files
  import opened Download
  import opened Walk

  function ThreePosts(): PostStore {
    map[1 := Post(1, None, []),
        2 := Post(2, Some(1), ["a.jpg", "b.jpg"]),
        3 := Post(3, Some(2), ["c.jpg"])]
  }

  /** A filesystem with only the output directory `out` in it. */
  function EmptyOutput(): FileSystem {
    map[[] := Dir, ["out"] := Dir]
  }

  /** The walk from the leaf visits posts 3, 2 and 1, then stops at the
      root, which has no parent; the three posts carry three media items. */
  lemma ThreePostChain()
    ensures Ranked(ThreePosts()) && Chain(ThreePosts(), 3) == [3, 2, 1]
    ensures MediaTotal(ThreePosts(), [3, 2, 1]) == 3
    ensures WalkResultOf(ThreePosts(), 3) == Finished(3)
  {
    var posts := ThreePosts();
    assert Ranked(posts);
    assert Chain(posts, 1) == [1];
    assert Chain(posts, 2) == [2] + Chain(posts, 1);
    assert Chain(posts, 3) == [3] + Chain(posts, 2);
    assert MediaTotal(posts, [3]) == 1 by { assert [3][..0] == []; }
    assert MediaTotal(posts, [3, 2]) == 3 by { assert [3, 2][..1] == [3]; }
    assert MediaTotal(posts, [3, 2, 1]) == 3 by { assert [3, 2, 1][..2] == [3, 2]; }
  }

  /** Walking from the leaf in per-post mode visits the three posts, writes
      the three images and skips none; a second run over what the first left
      (counters starting again at zero) writes nothing and skips all three. */
  lemma ThreePostThread(fetch: Fetcher, fetch': Fetcher)
    requires ThreadFetchesSucceed(fetch, ThreePosts(), [3, 2, 1])
    requires ThreadFetchesSucceed(fetch', ThreePosts(), [3, 2, 1])
    ensures Ranked(ThreePosts()) && WalkResultOf(ThreePosts(), 3) == Finished(3)
    ensures var posts, outdir := ThreePosts(), ["out"];
            var first := ProcessChain(World(EmptyOutput(), 0, 0, []), posts, Chain(posts, 3), outdir, true, fetch);
            var second := ProcessChain(World(first.world.fs, 0, 0, []), posts, Chain(posts, 3), outdir, true, fetch');
            first.raised == 0 && first.world.imgCount == 3 && first.world.alreadySaved == 0 &&
            second.raised == 0 && second.world.imgCount == 0 && second.world.alreadySaved == 3 &&
            second.world.fs == first.world.fs
  {
    ThreePostChain();
    var posts, outdir := ThreePosts(), ["out"];
    var c := Chain(posts, 3);
    var w0 := World(EmptyOutput(), 0, 0, []);
    assert WellFormed(w0.fs);
    forall k | k in c
      ensures PostDir(outdir, k, true) !in w0.fs
    {
    }
    ChainLengthBound(posts, 3);
    ProcessChainFresh(w0, posts, c, outdir, fetch);
    var first := ProcessChain(w0, posts, c, outdir, true, fetch);
    ProcessChainSettles(w0, posts, c, outdir, true, fetch);
    ProcessChainIdle(World(first.world.fs, 0, 0, []), posts, c, outdir, true, fetch');
  }
}
