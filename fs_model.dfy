/**
 * The filesystem as the browser sees it, as a value: what `fs::metadata`,
 * `fs::read_dir`, `fs::read_to_string` and `fs::canonicalize` would answer
 * for each path at one moment. Calls that change the filesystem are not
 * computed; their outcomes are inputs of the operations that make them.
 */
module FsModel {
  import opened Common

  type Name = string

  /** An absolute path as its components; `[]` is the root directory. */
  type Path = seq<Name>

  /**
   * What `fs::metadata` reports. It follows symbolic links, so on a real
   * system `isSymlink` is false for every path it succeeds on.
   */
  datatype Metadata = Metadata(isDir: bool, isFile: bool, isSymlink: bool, mode: bv32)

  datatype FileSystem = FileSystem(
    meta: map<Path, Metadata>,              // paths whose metadata can be read
    entries: map<Path, seq<Option<Path>>>,  // directories that `read_dir` opens: entries in
                                            // enumeration order, None for an entry that fails
    text: map<Path, string>,                // files that `read_to_string` reads
    canon: map<Path, Path>)                 // paths that `canonicalize` resolves, and to what

  /** An I/O error as the browser stores it in its status line. */
  datatype IoError =
    | Os(path: Path)            // the operating system refused an operation on `path`
    | AlreadyExists(path: Path) // `File::create_new` found `path` taken
    | IsADirectory(msg: string)
    | Unsupported
    | Other(msg: string)

  /** `Path::is_dir`: false when the metadata cannot be read. */
  predicate IsDir(fs: FileSystem, p: Path) {
    p in fs.meta && fs.meta[p].isDir
  }

  /** `Path::is_file`: false when the metadata cannot be read. */
  predicate IsFile(fs: FileSystem, p: Path) {
    p in fs.meta && fs.meta[p].isFile
  }

  /** `Path::parent`: every path but the root has one. */
  function Parent(p: Path): (r: Option<Path>)
    ensures r.None? <==> p == []
    ensures r.Some? ==> r.value + [p[|p| - 1]] == p
  {
    if p == [] then None else Some(p[..|p| - 1])
  }

  /** `Path::file_name`: the last component. */
  function FileName(p: Path): (r: Option<Name>)
    ensures r.None? <==> p == []
    ensures r.Some? ==> Parent(p).value + [r.value] == p
  {
    if p == [] then None else Some(p[|p| - 1])
  }

  /** `PathBuf::push(name)` for a name without separators; an empty name adds nothing. */
  function Push(p: Path, name: Name): (r: Path)
    ensures name != "" ==> Parent(r) == Some(p) && FileName(r) == Some(name)
    ensures name == "" ==> r == p
  {
    if name == "" then p else p + [name]
  }
}
