/** The command line of `main` (threader.py, lines 63-73 and 86-87): the
    tweet id taken from the first argument, and the per-post flag taken from
    the third. */
module Cli {
  import opened Common
  import opened Decimal

  // ---------------------------------------------------------------------
  // The tweet URL

  /** `\w`, over ASCII: a letter, a digit or an underscore. */
  predicate IsWordChar(c: char) {
    'a' <= c <= 'z' || 'A' <= c <= 'Z' || IsDigit(c) || c == '_'
  }

  predicate AllWordChars(s: string) {
    forall i :: 0 <= i < |s| ==> IsWordChar(s[i])
  }

  /** Length of the longest prefix of `s` made of word characters. */
  function WordRun(s: string): (k: nat)
    ensures k <= |s| && AllWordChars(s[..k])
    ensures k < |s| ==> !IsWordChar(s[k])
  {
    if s == [] || !IsWordChar(s[0]) then 0
    else
      var k := 1 + WordRun(s[1..]);
      assert s[..k] == [s[0]] + s[1..][..k - 1];
      k
  }

  lemma WordRunOfConcat(word: string, rest: string)
    requires AllWordChars(word)
    requires rest == [] || !IsWordChar(rest[0])
    ensures WordRun(word + rest) == |word|
  {
    var s := word + rest;
    var k := WordRun(s);
    assert forall i :: 0 <= i < |word| ==> s[i] == word[i];
    assert |word| < |s| ==> !IsWordChar(s[|word|]);
  }

  /** The fixed parts of the pattern: the scheme and host up to the `.`,
      the host after it, and the path segment before the id. */
  const Scheme: string := "https://twitter"
  const Host: string := "com/"
  const Status: string := "/status/"

  /** The pattern `https://twitter.com/\w+/status/(\d+)` as `re.match` reads
      it: anchored at the start only, the `.` of the host matching any
      character but a newline, `\w+` and `\d+` taking as many characters as
      they can. Returns the captured digits. */
  function ExtractTweetId(arg: string): Option<string> {
    if |arg| < 20 || arg[..15] != Scheme || arg[15] == '\n' || arg[16..20] != Host then None
    else IdFromPath(arg[20..])
  }

  /** The part of the pattern after the host. */
  function IdFromPath(path: string): Option<string> {
    var u := WordRun(path);
    if u == 0 || |path| < u + 8 || path[u..u + 8] != Status then None
    else IdFromTail(path[u + 8..])
  }

  /** The captured group `(\d+)`. */
  function IdFromTail(tail: string): Option<string> {
    var d := DigitRun(tail);
    if d == 0 then None else Some(tail[..d])
  }

  /** `arg` is the scheme and host (with any character but a newline at
      `sep`), a user name of word characters, "/status/", the digits `id`,
      and a `rest` that does not continue the digits. */
  predicate Accepts(arg: string, sep: char, user: string, id: string, rest: string) {
    sep != '\n' && |user| > 0 && AllWordChars(user) && |id| > 0 && AllDigits(id) &&
    (rest == [] || !IsDigit(rest[0])) &&
    arg == Scheme + [sep] + Host + user + Status + id + rest
  }

  lemma TailComplete(id: string, rest: string)
    requires |id| > 0 && AllDigits(id) && (rest == [] || !IsDigit(rest[0]))
    ensures IdFromTail(id + rest) == Some(id)
  {
    DigitRunOfConcat(id, rest);
    assert (id + rest)[..|id|] == id;
  }

  lemma PathComplete(user: string, id: string, rest: string)
    requires |user| > 0 && AllWordChars(user)
    requires |id| > 0 && AllDigits(id) && (rest == [] || !IsDigit(rest[0]))
    ensures IdFromPath(user + Status + id + rest) == Some(id)
  {
    var path := user + Status + id + rest;
    var after := Status + id + rest;
    assert path == user + after;
    assert after[0] == '/';
    WordRunOfConcat(user, after);
    assert path[|user|..|user| + 8] == Status;
    assert path[|user| + 8..] == id + rest;
    TailComplete(id, rest);
  }

  /** Every argument of the accepted shape yields its digits. */
  lemma ExtractTweetIdComplete(arg: string, sep: char, user: string, id: string, rest: string)
    requires Accepts(arg, sep, user, id, rest)
    ensures ExtractTweetId(arg) == Some(id)
  {
    var path := user + Status + id + rest;
    assert arg == Scheme + [sep] + Host + path;
    assert arg[..15] == Scheme && arg[15] == sep && arg[16..20] == Host && arg[20..] == path;
    PathComplete(user, id, rest);
  }

  lemma TailSound(tail: string)
    requires IdFromTail(tail).Some?
    ensures var id := IdFromTail(tail).value;
            var rest := tail[|id|..];
            |id| > 0 && AllDigits(id) && (rest == [] || !IsDigit(rest[0])) && tail == id + rest
  {
  }

  /** Prefixing a joined string is joining with the prefix first. */
  lemma PrefixOfJoin(a: string, p: string, d: string, e: string, f: string, g: string)
    requires p == d + e + f + g
    ensures a + p == a + d + e + f + g
  {
  }

  lemma PathSound(path: string) returns (user: string, rest: string)
    requires IdFromPath(path).Some?
    ensures |user| > 0 && AllWordChars(user) && (rest == [] || !IsDigit(rest[0]))
    ensures path == user + Status + IdFromPath(path).value + rest
  {
    var u := WordRun(path);
    var tail := path[u + 8..];
    var id := IdFromTail(tail).value;
    TailSound(tail);
    user, rest := path[..u], tail[|id|..];
    assert path == path[..u] + path[u..u + 8] + tail;
    assert tail == id + rest;
  }

  /** Whatever is extracted comes from an argument of the accepted shape. */
  lemma ExtractTweetIdSound(arg: string)
    requires ExtractTweetId(arg).Some?
    ensures exists sep, user, rest :: Accepts(arg, sep, user, ExtractTweetId(arg).value, rest)
  {
    var path := arg[20..];
    var id := IdFromPath(path).value;
    var user, rest := PathSound(path);
    var head := Scheme + [arg[15]] + Host;
    assert arg == head + path by {
      assert arg == arg[..15] + [arg[15]] + arg[16..20] + path;
    }
    PrefixOfJoin(head, path, user, Status, id, rest);
    assert Accepts(arg, arg[15], user, id, rest);
  }

  /** The id is a non-empty run of digits. */
  lemma ExtractTweetIdDigits(arg: string)
    requires ExtractTweetId(arg).Some?
    ensures |ExtractTweetId(arg).value| > 0 && AllDigits(ExtractTweetId(arg).value)
  {
    ExtractTweetIdSound(arg);
  }

  // ---------------------------------------------------------------------
  // The per-post flag

  /** `str.lower` over ASCII. */
  function Lower(s: string): (r: string)
    ensures |r| == |s|
  {
    if s == [] then []
    else [if 'A' <= s[0] <= 'Z' then (s[0] as int + 32) as char else s[0]] + Lower(s[1..])
  }

  /** The words that switch per-post directories on. */
  const FlagWords: seq<string> := ["y", "yes", "true", "1"]

  /** `individual_dir`: a third argument exists and, lower-cased, is one of
      the flag words. */
  predicate IndividualDir(argv: seq<string>) {
    |argv| > 3 && Lower(argv[3]) in FlagWords
  }

  /** `a` spells `b` when upper-case ASCII letters of `a` are taken as their
      lower-case forms. */
  predicate SameIgnoringCase(a: string, b: string) {
    |a| == |b| &&
    forall i :: 0 <= i < |a| ==> a[i] == b[i] || ('a' <= b[i] <= 'z' && a[i] as int == b[i] as int - 32)
  }

  predicate NoUpper(s: string) {
    forall i :: 0 <= i < |s| ==> !('A' <= s[i] <= 'Z')
  }

  lemma {:induction false} LowerMatches(a: string, b: string)
    requires NoUpper(b)
    ensures Lower(a) == b <==> SameIgnoringCase(a, b)
    decreases |a|
  {
    if a != [] && |a| == |b| {
      LowerMatches(a[1..], b[1..]);
      var l := Lower(a);
      assert l == [l[0]] + Lower(a[1..]);
      if SameIgnoringCase(a, b) {
        assert SameIgnoringCase(a[1..], b[1..]) by {
          forall i | 0 <= i < |a| - 1
            ensures a[1..][i] == b[1..][i] || ('a' <= b[1..][i] <= 'z' && a[1..][i] as int == b[1..][i] as int - 32)
          {
            assert a[1..][i] == a[i + 1] && b[1..][i] == b[i + 1];
          }
        }
        assert b == [b[0]] + b[1..];
      }
      if l == b {
        forall i | 0 <= i < |a|
          ensures a[i] == b[i] || ('a' <= b[i] <= 'z' && a[i] as int == b[i] as int - 32)
        {
          if i > 0 {
            assert a[1..][i - 1] == a[i] && b[1..][i - 1] == b[i];
          }
        }
      }
    }
  }

  /** The flag is on exactly when a third argument exists and spells one of
      "y", "yes", "true" or "1" in any mix of upper and lower case. */
  lemma IndividualDirIgnoresCase(argv: seq<string>)
    ensures IndividualDir(argv) <==>
            |argv| > 3 && exists w :: w in FlagWords && SameIgnoringCase(argv[3], w)
  {
    if |argv| > 3 {
      forall w | w in FlagWords
        ensures Lower(argv[3]) == w <==> SameIgnoringCase(argv[3], w)
      {
        LowerMatches(argv[3], w);
      }
    }
  }

  // ---------------------------------------------------------------------
  // The arguments together

  /** What the command line decides before any network call. */
  datatype Config = Config(tweetId: string, outdirArg: Option<string>, individualDir: bool)

  /** Why `main` stops at once (each a `die`). */
  datatype ArgError = Usage | InvalidTweet

  /** `sys.argv` read as `main` reads it; `argv[0]` is the script's name. */
  function ParseArgs(argv: seq<string>): (r: Result<Config, ArgError>)
    requires |argv| >= 1
    ensures |argv| == 1 ==> r == Failure(Usage)
    ensures |argv| > 1 ==> (r.Success? <==> ExtractTweetId(argv[1]).Some?)
    ensures r.Success? ==> r.value.tweetId == ExtractTweetId(argv[1]).value &&
                           r.value.outdirArg == (if |argv| >= 3 then Some(argv[2]) else None) &&
                           r.value.individualDir == IndividualDir(argv)
  {
    if |argv| == 1 then Failure(Usage)
    else
      match ExtractTweetId(argv[1])
      case None => Failure(InvalidTweet)
      case Some(id) => Success(Config(id, if |argv| >= 3 then Some(argv[2]) else None, IndividualDir(argv)))
  }

  // ---------------------------------------------------------------------
  // Examples

  /** A shared link with a query string: the digits stop at `?`. */
  lemma ExtractFromSharedLink()
    ensures ExtractTweetId("https://twitter.com/ab_1/status/42?s=20") == Some("42")
  {
    var arg := "https://twitter.com/ab_1/status/42?s=20";
    assert arg == Scheme + ['.'] + Host + "ab_1" + Status + "42" + "?s=20";
    ExtractTweetIdComplete(arg, '.', "ab_1", "42", "?s=20");
  }

  /** The `.` of the host is a wildcard, so a look-alike host is accepted. */
  lemma ExtractFromLookAlikeHost()
    ensures ExtractTweetId("https://twitterXcom/ab/status/7") == Some("7")
  {
    var arg := "https://twitterXcom/ab/status/7";
    assert arg == Scheme + ['X'] + Host + "ab" + Status + "7" + "";
    ExtractTweetIdComplete(arg, 'X', "ab", "7", "");
  }
}
