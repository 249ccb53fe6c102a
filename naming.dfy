/** Where `downloadImages` puts each media item: the directory of a post and
    the file name of its i-th item (threader.py, lines 28-31 and 46-51). */
module Naming {
  import opened Common
  import opened Decimal

  /** `s.rfind(c)`: the last index holding `c`, or -1. */
  function LastIndex(s: string, c: char): (k: int)
    ensures -1 <= k < |s|
    ensures k >= 0 ==> s[k] == c
    ensures forall j :: k < j < |s| ==> s[j] != c
  {
    if s == [] then -1
    else if s[|s| - 1] == c then |s| - 1
    else LastIndex(s[..|s| - 1], c)
  }

  predicate HasNonDot(s: string, lo: int, hi: int)
    requires 0 <= lo && hi <= |s|
  {
    exists k :: lo <= k < hi && s[k] != '.'
  }

  /** `os.path.splitext(p)[1]` on a POSIX path: from the last dot of the last
      path component to the end, unless that dot only belongs to a run of
      leading dots; otherwise empty. The result is a suffix of `p`, and when
      it is not empty it is one dot followed by neither a dot nor a slash. */
  function Extension(p: string): (e: string)
    ensures |e| <= |p| && e == p[|p| - |e|..]
    ensures e != [] ==> e[0] == '.'
    ensures forall j :: 0 <= j < |e| ==> e[j] != '/' && (j > 0 ==> e[j] != '.')
  {
    var sep := LastIndex(p, '/');
    var dot := LastIndex(p, '.');
    if dot > sep && HasNonDot(p, sep + 1, dot) then p[dot..] else ""
  }

  /** `f"{i+1}{ext}"`, the name an item gets before any prefix. */
  function NumberedName(i: nat, url: Url): string {
    NatToString(i + 1) + Extension(url)
  }

  /** The item number and extension read back from a file name: the leading
      digit run as a number, and everything after it. */
  function ParseNumberedName(name: string): (nat, string) {
    var k := DigitRun(name);
    (DigitsValue(name[..k]), name[k..])
  }

  /** The file name of item `i` of post `id`; in flat mode `id_str` is glued
      in front with no separator. */
  function FileName(id: Id, individual: bool, i: nat, url: Url): string {
    if individual then NumberedName(i, url) else NatToString(id) + NumberedName(i, url)
  }

  /** `final_dir`: the output directory, or `outdir/id_str` in per-post mode. */
  function PostDir(outdir: Path, id: Id, individual: bool): Path {
    if individual then outdir + [NatToString(id)] else outdir
  }

  /** `final_path` for item `i` of post `id`. */
  function TargetPath(outdir: Path, id: Id, individual: bool, i: nat, url: Url): Path {
    PostDir(outdir, id, individual) + [FileName(id, individual, i, url)]
  }

  /** A numbered name decodes back to the item number (counted from 1) and
      the URL's extension. */
  lemma NumberedNameRoundTrip(i: nat, url: Url)
    ensures ParseNumberedName(NumberedName(i, url)) == (i + 1, Extension(url))
  {
    var digits, ext := NatToString(i + 1), Extension(url);
    var name := digits + ext;
    DigitRunOfConcat(digits, ext);
    assert name[..|digits|] == digits;
    assert name[|digits|..] == ext;
    DigitsValueOfNatToString(i + 1);
  }

  /** Two items get the same numbered name only if they are the same item
      and their URLs have the same extension. */
  lemma NumberedNameInjective(i: nat, j: nat, u: Url, v: Url)
    requires NumberedName(i, u) == NumberedName(j, v)
    ensures i == j && Extension(u) == Extension(v)
  {
    NumberedNameRoundTrip(i, u);
    NumberedNameRoundTrip(j, v);
  }

  /** The layout of a target path: it lies directly in `outdir` (flat mode,
      its name starting with `id_str`) or in `outdir/id_str` (per-post mode),
      and the rest of its name reads back as the item number i+1 followed by
      the URL's extension. */
  lemma TargetPathLayout(outdir: Path, id: Id, individual: bool, i: nat, url: Url)
    ensures var p := TargetPath(outdir, id, individual, i, url);
            var idStr := NatToString(id);
            p[..|outdir|] == outdir &&
            (individual ==>
               |p| == |outdir| + 2 && p[|outdir|] == idStr &&
               ParseNumberedName(p[|outdir| + 1]) == (i + 1, Extension(url))) &&
            (!individual ==>
               |p| == |outdir| + 1 && |idStr| <= |p[|outdir|]| &&
               p[|outdir|][..|idStr|] == idStr &&
               ParseNumberedName(p[|outdir|][|idStr|..]) == (i + 1, Extension(url)))
  {
    var p := TargetPath(outdir, id, individual, i, url);
    var idStr := NatToString(id);
    NumberedNameRoundTrip(i, url);
    assert p[..|outdir|] == outdir;
    if !individual {
      var name := idStr + NumberedName(i, url);
      assert p[|outdir|] == name;
      assert name[..|idStr|] == idStr;
      assert name[|idStr|..] == NumberedName(i, url);
    }
  }

  /** Within one post, different items never share a target path, in either
      mode. */
  lemma TargetPathsDistinctWithinPost(outdir: Path, id: Id, individual: bool, i: nat, j: nat, u: Url, v: Url)
    requires TargetPath(outdir, id, individual, i, u) == TargetPath(outdir, id, individual, j, v)
    ensures i == j
  {
    var p, q := TargetPath(outdir, id, individual, i, u), TargetPath(outdir, id, individual, j, v);
    var dir := PostDir(outdir, id, individual);
    assert FileName(id, individual, i, u) == p[|dir|] == q[|dir|] == FileName(id, individual, j, v);
    if !individual {
      var idStr := NatToString(id);
      assert NumberedName(i, u) == (idStr + NumberedName(i, u))[|idStr|..];
      assert NumberedName(j, v) == (idStr + NumberedName(j, v))[|idStr|..];
    }
    NumberedNameInjective(i, j, u, v);
  }

  /** In per-post mode every (post, item) pair has its own target path. */
  lemma PerPostTargetsInjective(outdir: Path, a: Id, b: Id, i: nat, j: nat, u: Url, v: Url)
    requires TargetPath(outdir, a, true, i, u) == TargetPath(outdir, b, true, j, v)
    ensures a == b && i == j
  {
    var p := TargetPath(outdir, a, true, i, u);
    assert NatToString(a) == p[|outdir|] == NatToString(b);
    NatToStringInjective(a, b);
    TargetPathsDistinctWithinPost(outdir, a, true, i, j, u, v);
  }

  /** In flat mode two posts whose ids have equally many digits never share
      a target path. */
  lemma FlatTargetsInjectiveForEqualLengthIds(outdir: Path, a: Id, b: Id, i: nat, j: nat, u: Url, v: Url)
    requires |NatToString(a)| == |NatToString(b)|
    requires TargetPath(outdir, a, false, i, u) == TargetPath(outdir, b, false, j, v)
    ensures a == b && i == j
  {
    var sa, sb := NatToString(a), NatToString(b);
    var name := TargetPath(outdir, a, false, i, u)[|outdir|];
    assert name == sa + NumberedName(i, u) == sb + NumberedName(j, v);
    assert sa == name[..|sa|] == sb;
    NatToStringInjective(a, b);
    TargetPathsDistinctWithinPost(outdir, a, false, i, j, u, v);
  }

  /** Flat mode does not keep posts apart: item 12 of post 1 and item 2 of
      post 11 are both saved as "112.jpg" in the output directory. */
  lemma FlatTargetsCollideAcrossPosts(outdir: Path)
    ensures TargetPath(outdir, 1, false, 11, "a.jpg") == TargetPath(outdir, 11, false, 1, "b.jpg")
    ensures TargetPath(outdir, 1, false, 11, "a.jpg") == outdir + ["112.jpg"]
  {
    assert "a.jpg" == ['a'] + ".jpg" && "b.jpg" == ['b'] + ".jpg";
    JpgExtension('a');
    JpgExtension('b');
    var one, two := NatToString(1), NatToString(2);
    assert one == "1" && two == "2";
    var eleven, twelve := NatToString(11), NatToString(12);
    assert eleven == one + [DigitChar(1)] == "11";
    assert twelve == one + [DigitChar(2)] == "12";
    var n1, n2 := NumberedName(11, "a.jpg"), NumberedName(1, "b.jpg");
    assert n1 == "12.jpg";
    assert n2 == "2.jpg";
    assert FileName(1, false, 11, "a.jpg") == one + n1 == "112.jpg";
    assert FileName(11, false, 1, "b.jpg") == eleven + n2 == "112.jpg";
  }

  /** When the last path component holds a dot after some other character,
      the extension is everything from its last dot: a root whose last
      component has a non-dot character at `m`, then ".", then a tail with
      no dot and no slash, has that dot and tail as its extension. */
  lemma ExtensionOfSplit(root: string, x: string, m: nat)
    requires m < |root| && root[m] != '.' && root[m] != '/'
    requires forall j :: m < j < |root| ==> root[j] != '/'
    requires forall j :: 0 <= j < |x| ==> x[j] != '.' && x[j] != '/'
    ensures Extension(root + "." + x) == "." + x
  {
    var p := root + "." + x;
    var sep, dot := LastIndex(p, '/'), LastIndex(p, '.');
    assert p[|root|] == '.';
    assert forall j :: |root| < j < |p| ==> p[j] == x[j - |root| - 1];
    assert dot == |root|;
    assert forall j :: m <= j < |root| ==> p[j] == root[j];
    assert sep < m;
    assert HasNonDot(p, sep + 1, dot) by { assert p[m] != '.'; }
    assert p[dot..] == "." + x;
  }

  /** `splitext` finds an extension exactly when the last path component
      has a dot somewhere after a character that is not a dot (a name made
      only of leading dots, such as ".bashrc", has none). */
  lemma ExtensionNonEmpty(p: string)
    ensures Extension(p) != [] <==>
            exists m, d :: 0 <= m < d < |p| && p[m] != '.' && p[d] == '.' &&
                           forall j :: m <= j < |p| ==> p[j] != '/'
  {
    var sep, dot := LastIndex(p, '/'), LastIndex(p, '.');
    if Extension(p) != [] {
      var m :| sep + 1 <= m < dot && p[m] != '.';
      assert forall j :: m <= j < |p| ==> p[j] != '/';
    }
    if exists m, d :: 0 <= m < d < |p| && p[m] != '.' && p[d] == '.' &&
                      forall j :: m <= j < |p| ==> p[j] != '/' {
      var m, d :| 0 <= m < d < |p| && p[m] != '.' && p[d] == '.' &&
                  forall j :: m <= j < |p| ==> p[j] != '/';
      assert sep < m;
      assert d <= dot;
      assert HasNonDot(p, sep + 1, dot) by { assert p[m] != '.'; }
    }
  }

  /** A one-letter JPEG file name keeps ".jpg" as its extension. */
  lemma JpgExtension(c: char)
    requires c != '.' && c != '/'
    ensures Extension([c] + ".jpg") == ".jpg"
  {
    ExtensionOfSplit([c], "jpg", 0);
    assert [c] + "." + "jpg" == [c] + ".jpg";
  }
}
