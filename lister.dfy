/**
 * `get_dirs_and_files`: one level of a directory, the entries that could be
 * read, directories first, each group in enumeration order.
 */
module Lister {
  import opened Common
  import opened FsModel

  /** The entries that `read_dir` yields successfully, in enumeration order. */
  function OkEntries(es: seq<Option<Path>>): (r: seq<Path>)
    ensures |r| <= |es|
  {
    if es == [] then []
    else
      var last := es[|es| - 1];
      OkEntries(es[..|es| - 1]) + (if last.Some? then [last.value] else [])
  }

  /** The paths of `ps` that are directories (`dirs`) or are not (`!dirs`), in order. */
  function Keep(fs: FileSystem, ps: seq<Path>, dirs: bool): (r: seq<Path>)
    ensures |r| <= |ps|
  {
    if ps == [] then []
    else
      var last := ps[|ps| - 1];
      Keep(fs, ps[..|ps| - 1], dirs) + (if IsDir(fs, last) == dirs then [last] else [])
  }

  /** The listing of `dir`: empty when the directory cannot be opened. */
  function Listing(fs: FileSystem, dir: Path): seq<Path> {
    if dir in fs.entries then
      var ok := OkEntries(fs.entries[dir]);
      Keep(fs, ok, true) + Keep(fs, ok, false)
    else []
  }

  /** The loop of `get_dirs_and_files`: one pass, pushing each entry onto one of two vectors. */
  method GetDirsAndFiles(fs: FileSystem, dir: Path) returns (r: seq<Path>)
    ensures r == Listing(fs, dir)
    ensures dir !in fs.entries ==> r == []
  {
    var dirs: seq<Path> := [];
    var files: seq<Path> := [];
    if dir in fs.entries {
      var es := fs.entries[dir];
      for i := 0 to |es|
        invariant dirs == Keep(fs, OkEntries(es[..i]), true)
        invariant files == Keep(fs, OkEntries(es[..i]), false)
      {
        ghost var before := OkEntries(es[..i]);
        assert es[..i + 1][..i] == es[..i];
        match es[i]
        case Some(p) =>
          assert OkEntries(es[..i + 1]) == before + [p];
          assert (before + [p])[..|before|] == before;
          if IsDir(fs, p) {
            dirs := dirs + [p];
          } else {
            files := files + [p];
          }
        case None =>
          assert OkEntries(es[..i + 1]) == before;
      }
      assert es[..|es|] == es;
      dirs := dirs + files;
    }
    r := dirs;
  }

  /** Every directory of `ps` is kept by `Keep(.., true)` and nothing else. */
  lemma {:induction false} KeepIsFilter(fs: FileSystem, ps: seq<Path>, dirs: bool)
    ensures forall p :: p in Keep(fs, ps, dirs) <==> p in ps && IsDir(fs, p) == dirs
  {
    if ps != [] {
      KeepIsFilter(fs, ps[..|ps| - 1], dirs);
      assert ps == ps[..|ps| - 1] + [ps[|ps| - 1]];
    }
  }

  /** The two groups together hold every path of `ps` as often as `ps` does. */
  lemma {:induction false} KeepSplits(fs: FileSystem, ps: seq<Path>)
    ensures multiset(Keep(fs, ps, true)) + multiset(Keep(fs, ps, false)) == multiset(ps)
  {
    if ps != [] {
      KeepSplits(fs, ps[..|ps| - 1]);
      assert ps == ps[..|ps| - 1] + [ps[|ps| - 1]];
    }
  }

  /**
   * Directories come first: no directory follows a non-directory in a
   * listing, and the first group is exactly the directories.
   */
  lemma ListingDirsFirst(fs: FileSystem, dir: Path)
    ensures var r := Listing(fs, dir);
            forall i, j :: 0 <= i < j < |r| && IsDir(fs, r[j]) ==> IsDir(fs, r[i])
  {
    if dir in fs.entries {
      var ok := OkEntries(fs.entries[dir]);
      var ds, fs' := Keep(fs, ok, true), Keep(fs, ok, false);
      KeepIsFilter(fs, ok, true);
      KeepIsFilter(fs, ok, false);
      var r := ds + fs';
      forall i, j | 0 <= i < j < |r| && IsDir(fs, r[j]) ensures IsDir(fs, r[i]) {
        if j < |ds| {
          assert r[i] in ds;
        }
      }
    }
  }

  /** Every entry read successfully appears in the listing exactly as often as it was enumerated. */
  lemma ListingIsPermutation(fs: FileSystem, dir: Path)
    requires dir in fs.entries
    ensures multiset(Listing(fs, dir)) == multiset(OkEntries(fs.entries[dir]))
  {
    KeepSplits(fs, OkEntries(fs.entries[dir]));
  }

  /** A failed entry is skipped: it changes nothing in the listing. */
  lemma {:induction false} FailedEntrySkipped(es: seq<Option<Path>>, k: nat)
    requires k < |es| && es[k].None?
    ensures OkEntries(es) == OkEntries(es[..k] + es[k + 1..])
    decreases |es|
  {
    if k == |es| - 1 {
      assert es[..k] + es[k + 1..] == es[..|es| - 1];
    } else {
      var init := es[..|es| - 1];
      FailedEntrySkipped(init, k);
      assert es[..k] + es[k + 1..] == (init[..k] + init[k + 1..]) + [es[|es| - 1]];
    }
  }
}
