/** The filesystem the downloader reads and writes, as a map from paths to
    directories and files. */
module Files {
  import opened Common

  datatype Node = Dir | File(data: Bytes)

  type FileSystem = map<Path, Node>

  function Parent(p: Path): Path
    requires p != []
  {
    p[..|p| - 1]
  }

  predicate IsDir(fs: FileSystem, p: Path) {
    p in fs && fs[p].Dir?
  }

  /** `p` names an entry directly inside directory `d`. */
  predicate IsChild(p: Path, d: Path) {
    |p| == |d| + 1 && p[..|d|] == d
  }

  function Children(fs: FileSystem, d: Path): set<Path> {
    set p | p in fs && IsChild(p, d)
  }

  /** `len(list(d.glob("*")))`: every entry directly inside `d`, files and
      directories alike, hidden ones included. On a well-formed filesystem
      this is 0 when `d` is not a directory. */
  function CountEntries(fs: FileSystem, d: Path): nat {
    |Children(fs, d)|
  }

  /** The root is a directory and every other entry sits in a directory. */
  predicate WellFormed(fs: FileSystem) {
    IsDir(fs, []) && forall p :: p in fs && p != [] ==> IsDir(fs, Parent(p))
  }

  /** `fs'` keeps every entry of `fs`, with the same contents. */
  predicate Extends(fs: FileSystem, fs': FileSystem) {
    forall p :: p in fs ==> p in fs' && fs'[p] == fs[p]
  }

  /** The files present in `fs'` that were absent from `fs`. */
  function NewFiles(fs: FileSystem, fs': FileSystem): set<Path> {
    set p | p in fs' && p !in fs && fs'[p].File?
  }

  /** Adding entries elsewhere does not change how many entries a directory
      holds. */
  lemma CountEntriesUnchanged(fs: FileSystem, fs': FileSystem, d: Path)
    requires Extends(fs, fs')
    requires forall p :: p in fs' && p !in fs ==> !IsChild(p, d)
    ensures CountEntries(fs', d) == CountEntries(fs, d)
  {
    assert Children(fs', d) == Children(fs, d);
  }
}
