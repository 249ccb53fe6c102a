# Twitter media thread downloader in Dafny

`threader.py` saves every image of a Twitter thread. It starts from the last
post of the thread (the leaf), downloads that post's media, then follows
`in_reply_to_status_id` to the post it answers, and so on until a post
answers nothing. `downloadImages` stores the items of one post in one of
two layouts:

- **flat mode:** `<outdir>/<id><i+1><ext>`;
- **per-post mode:** `<outdir>/<id>/<i+1><ext>`.

An item whose file already exists is counted as already saved and is not
written again. In per-post mode, a post whose directory already holds as
many entries as the post has media items is skipped entirely. Two global
counters, `_img_count` and `_already_saved_img_count`, are reported at the
end.

The model is laid out by module:

- `Common`: posts, ids, bytes, paths, and "has a parent" (the parent id is set and not 0).
- `Decimal`: `str` of a non-negative integer, and digit runs.
- `Naming`: `os.path.splitext`, the file name and directory of each item, and the injectivity of that naming.
- `Files`: the filesystem, as a map from paths to directories and files.
- `Download`: `downloadImages` as functions from the state it touches (the filesystem, both counters, and the log of requested URLs) to the state it leaves, plus the exception it raises.
- `Walk`: the thread walk as a fold over the chain of replies.
- `Threader`: class `Session`, which holds the counters, the filesystem and the request log as fields. Its methods `DownloadImages` and `WalkThread` run the loops of the source in place. Each is proved to leave exactly the state the functions of `Download` and `Walk` describe.
- `Cli`: the tweet-id regular expression and the per-post flag.
- `Scenario`: a worked three-post thread.

The Twitter API is a finite map from ids to posts. `requests.get` is a
function from URLs to optional bytes, where none means the request raised.

The model follows the code as written, including these behaviours:

- An exception at one item ends the rest of that post's `downloadImages` call, so the remaining items of the post are not attempted. The walk catches the exception and goes on to the parent.
- Each item's URL is requested before the code checks whether its file exists. So in flat mode, and in per-post mode when the directory's entry count differs from the item count, a re-run with files already present still makes one request per item, and a failing request raises even for an item that is already saved. A per-post directory whose entry count equals the item count is skipped before the loop, with no request at all (`Download.DownloadShortCircuit`).
- A parent id that `get_status` cannot fetch is not a graceful end of the thread. The exception is uncaught, and `main` ends without printing its summary (`WalkResult.ParentUnavailable`).
- The `.` in `https://twitter.com/` is an unescaped wildcard, so `https://twitterXcom/...` is accepted (`Cli.ExtractFromLookAlikeHost`).
- Flat mode puts no separator between the id and the item number, so posts 1 and 11 collide: item 12 of post 1 and item 2 of post 11 are both `112.jpg` (`Naming.FlatTargetsCollideAcrossPosts`). Per-post mode and equal-length ids never collide (`Naming.PerPostTargetsInjective`, `Naming.FlatTargetsInjectiveForEqualLengthIds`).
- In per-post mode, a directory that exists but holds any number of entries other than the post's item count is not skipped. When no request for the post's items fails, every item is fetched again, existing files are kept and only the missing ones are written (`Download.DownloadPartialDirectory`, `Download.DownloadNoOverwrite`).

## Model

| member | source | states |
|---|---|---|
| Decimal.NatToString | threader.py:31 | `str(id)` (used as `status.id_str`) is a non-empty digit string with no leading zero unless the id is 0 |
| Decimal.DigitsValueOfNatToString | threader.py:31 | reading the decimal text of an id back gives the id |
| Decimal.NatToStringInjective | threader.py:31 | different ids have different decimal texts, so different per-post directories |
| Decimal.DigitRun | threader.py:68 | `\d+` takes the longest digit prefix: all digits up to it, and the next character is not a digit |
| Naming.LastIndex | threader.py:46 | `rfind` inside `splitext`: the index holds the character, no later index does, -1 when absent |
| Naming.Extension | threader.py:46 | `splitext(url)[1]` is a suffix of the URL that is empty or a dot followed by no slash and no further dot |
| Naming.ExtensionOfSplit | threader.py:46 | when the last path component has a non-dot character before its last dot, the extension is that dot and everything after it |
| Naming.ExtensionNonEmpty | threader.py:46 | the extension is non-empty exactly when the last path component has a dot after some non-dot character |
| Naming.JpgExtension | threader.py:46 | a one-letter `.jpg` name has extension `.jpg` (a corollary of `ExtensionOfSplit`) |
| Naming.NumberedNameRoundTrip | threader.py:46 | the name `f"{i+1}{ext}"` reads back as the number i+1 followed by the extension |
| Naming.NumberedNameInjective | threader.py:46 | two items get the same numbered name only if they have the same index and extension |
| Naming.TargetPathLayout | threader.py:28-51 | `final_path` lies directly in the output directory (flat) or in `outdir/id_str` (per post); its name decodes to `id_str` (flat), the item number and the extension |
| Naming.TargetPathsDistinctWithinPost | threader.py:43-51 | within one post, different items never share a path, in either mode |
| Naming.PerPostTargetsInjective | threader.py:30-31 | in per-post mode every (post, item) pair has its own path |
| Naming.FlatTargetsInjectiveForEqualLengthIds | threader.py:48-51 | in flat mode, posts whose ids have the same number of digits never share a path |
| Naming.FlatTargetsCollideAcrossPosts | threader.py:48-49 | in flat mode, item 12 of post 1 and item 2 of post 11 are both saved as `112.jpg` |
| Files.CountEntriesUnchanged | threader.py:36 | adding entries outside a directory does not change the count `glob("*")` gives for it |
| Download.ItemPaths | threader.py:46-51 | one `final_path` per media item |
| Download.ItemPathsLayout | threader.py:43-51 | the paths of a post's items are pairwise distinct and all sit directly in the post's directory |
| Download.SaveItemCounts | threader.py:44-58 | one loop turn makes one request and accounts for one more item unless it raised; counters never fall |
| Download.SaveItemWrites | threader.py:51-58 | one turn changes the filesystem only by creating the item's missing file, with the fetched bytes, in an existing directory; exactly then `_img_count` rises by 1 |
| Download.SaveItemsAccounting | threader.py:43-58 | the loop requests the URLs in item order; an exception at item m ends it after exactly m+1 requests; written plus skipped equals the requests that did not raise |
| Download.SaveItemsStopsAtError | threader.py:43-58 | after an exception, the later items change nothing |
| Download.SaveItemsGrows | threader.py:51-58 | the loop changes or removes no entry; what it adds are files at the items' paths |
| Download.SaveItemsCountsNewFiles | threader.py:52-58 | `_img_count` grows by the number of files the loop creates |
| Download.SaveItemsWritesFetched | threader.py:44-57 | when the items' paths are pairwise distinct, every file the loop creates holds the bytes fetched for its own item's URL |
| Download.SaveItemsCompletes | threader.py:43-58 | a loop that raised nothing leaves every item's path present |
| Download.SaveItemsIdle | threader.py:52-54 | with every path present, the loop writes nothing and leaves `_img_count` alone; when no request for the items fails it counts every item as already saved |
| Download.SaveItemsFresh | threader.py:43-58 | in an existing directory, with pairwise distinct paths and no path present, when every request succeeds, the loop writes every item and skips none |
| Download.SaveItemsPreservesWellFormed | threader.py:56 | writes only land inside an existing directory |
| Download.DownloadShortCircuit | threader.py:33-40 | a per-post directory that exists with as many entries as there are items: no request, no write, every item counted as already saved |
| Download.DownloadAccounting | threader.py:22-58 | a whole call: URLs requested are a prefix of the media URLs in order; at most one item accounted per media item, exactly one each if nothing raised; `_img_count` grows by the files created |
| Download.DownloadNoOverwrite | threader.py:22-58 | a call changes and removes nothing; it adds only the post's directory (per-post mode) and files at the post's item paths |
| Download.DownloadWritesFetched | threader.py:43-58 | every file a call adds holds the bytes fetched for that item |
| Download.DownloadSettles | threader.py:22-58 | a call that raised nothing leaves its post settled (directory and every item path present) |
| Download.DownloadIdle | threader.py:33-54 | a call on a settled post writes nothing and leaves `_img_count` alone; when no request for the post's items fails it counts all items as already saved |
| Download.DownloadRerun | threader.py:22-58 | re-running a call that raised nothing creates no file and adds nothing to `_img_count`, whatever the network does |
| Download.DownloadPreservesWellFormed | threader.py:30-34 | `mkdir` and the writes never leave an entry outside a directory |
| Download.SaveItemsSucceeds | threader.py:43-58 | in an existing directory, a loop whose requests all succeed raises nothing |
| Download.DownloadPartialDirectory | threader.py:33-58 | a per-post directory whose entry count differs from the item count, when no request for the post's items fails: every item is requested again in order, nothing existing changes, and every item's file is present afterwards |
| Download.DownloadFresh | threader.py:30-58 | a per-post call in an existing output directory, with no post directory yet and no failing request for the post's items, creates it, writes every item and skips none |
| Walk.Chain | threader.py:112-128 | the posts the walk visits: starts at the leaf, each next is the parent of the one before, ids fall strictly, and it ends at a post with no parent or a parent not in the store |
| Walk.ChainNext | threader.py:125-128 | after a post, the walk goes on exactly when the parent is set and fetchable, and the parent is the next post of the chain |
| Walk.ChainLengthBound | threader.py:112-128 | the walk visits distinct posts, at most as many as exist, so it terminates and `tweet_count` is bounded |
| Walk.ProcessChainGrows | threader.py:112-128 | over a walk nothing is changed or removed and the final `_img_count` counts exactly the files created |
| Walk.ProcessChainAccounting | threader.py:112-128 | over a walk at most one item is accounted per media item, exactly one each when no call raised; at most one exception per post |
| Walk.DoneStable | threader.py:30-31 | handling one post never unsettles another post |
| Walk.ProcessChainSettles | threader.py:112-128 | after a walk with no exception, every post of the thread is settled |
| Walk.ProcessChainIdle | threader.py:112-128 | a walk over settled posts writes nothing and leaves `_img_count` alone; when no request for the thread's media fails, nothing raises and every item counts as already saved |
| Walk.WalkRerun | threader.py:112-128 | re-running the walk on what a walk without exceptions left creates no file and adds nothing to `_img_count`; when no request for the thread's media fails, every item counts as already saved |
| Walk.DirStaysAbsent | threader.py:30-34 | in per-post mode, handling one post never creates another post's directory |
| Walk.ProcessChainFresh | threader.py:112-128 | a first per-post walk in which no request for the thread's media fails writes every media item of the thread and skips none |
| Scenario.ThreePostChain | threader.py:112-128 | the walk from the leaf visits posts 3, 2, 1 and finishes with `tweet_count` 3 |
| Scenario.ThreePostThread | threader.py:112-134 | root without media, two images, one image: 3 posts, 3 written, 0 skipped; a second run writes 0 and skips 3 |
| Threader.Session.constructor | threader.py:11-12 | both counters start at 0 |
| Threader.Session.SaveImage | threader.py:44-58 | one loop turn in place, leaving the state `SaveItem` gives |
| Threader.Session.DownloadImages | threader.py:22-58 | `downloadImages` in place: the new state and the exception are exactly those of `Download` |
| Threader.Session.HandlePost | threader.py:115-123 | a post without media is skipped; otherwise `downloadImages` runs and its exception is caught and reported |
| Threader.Session.WalkThread | threader.py:100-128 | the `while 1` loop in place: result and `tweet_count` as `WalkResultOf`, state as `ProcessChain` over the chain; an unavailable leaf changes nothing |
| Cli.WordRun | threader.py:68 | `\w+` takes the longest prefix of word characters |
| Cli.ExtractTweetIdComplete | threader.py:67-73 | every argument made of the scheme, any non-newline character, `com/`, a word-character user, `/status/`, digits and a non-digit rest yields those digits |
| Cli.ExtractTweetIdSound | threader.py:67-73 | every id extracted comes from an argument of exactly that shape |
| Cli.ExtractTweetIdDigits | threader.py:67-73 | the extracted id is a non-empty run of digits |
| Cli.ExtractFromSharedLink | threader.py:67-73 | the match is anchored only at the start: `.../status/42?s=20` yields `42` |
| Cli.ExtractFromLookAlikeHost | threader.py:68 | the unescaped `.` accepts `https://twitterXcom/ab/status/7` |
| Cli.IndividualDirIgnoresCase | threader.py:86-87 | per-post mode is on exactly when a third argument exists and spells y, yes, true or 1 in any case |
| Cli.ParseArgs | threader.py:64-87 | a lone script name is a usage error; otherwise the run goes on exactly when the id is extracted; the output argument is `argv[2]` when `sys.argv` has at least three entries and absent otherwise; the flag is `individual_dir` |

## Left out

- Tweepy authentication, `verify_credentials` and `get_status` are foreign network calls. Post lookup is a map lookup. A lookup that raises is a missing key.
- Threader.Session.WalkThread: requires every reply to have a larger id than the post it answers (`Ranked`; `Walk.Chain` requires the same). Tweet ids grow with time. A store with a reply cycle would make the source loop forever, which a terminating model cannot express.
- Tweepy's attribute access is not modelled. A post without media is taken to read as empty `extended_entities`.
- `requests.get` is a function from URL to optional bytes. Status codes, partial writes, and write failures other than a missing directory are not modelled.
- `requests.get` is one fixed function for a whole run, so two requests for the same URL in one run return the same bytes. A network whose answers change during a run is not modelled; a second run takes its own fetcher.
- `load_dotenv`, the environment, the `input` prompt, every `print` and `die` are left out (threader.py:8-9, 16-19, 109-110). They are console and process I/O.
- Output-directory resolution and `mkdir(exist_ok=True)` are left out (threader.py:75-84). The walk takes the output directory as a parameter. `custom_path.is_absolute` is never called there, so the condition is always true.
- Interruption handling, the delete prompt and `rmtree` are left out (threader.py:137-150). They are signal handling and destructive I/O.
- Cli.WordRun: `\w` is modelled over ASCII letters, digits and `_` only. Python's `\w` also matches other Unicode word characters.
- Decimal.DigitRun: `\d` is modelled over ASCII digits only. Python's `\d` also matches other Unicode decimal digits.
- Cli.Lower: `str.lower` is modelled over ASCII only. Python lower-cases every Unicode letter.
- `ParseArgs` keeps the extracted id as text. How `get_status` reads that text is part of the API.
