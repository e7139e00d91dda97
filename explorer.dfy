/**
 * The navigation state (`FileStruct`): the working directory and its
 * listing, the parent listing, the preview of the selected entry, the
 * permission badge and the last error. A class whose methods assign its
 * fields; `State()` reads them all into one value so that each method can
 * say exactly what the new state is, in terms of the functions below.
 */
module Explorer {
  import opened Common
  import opened FsModel
  import opened Lister
  import opened Permissions
  import opened TextLines

  /** Every field of a `FileStruct`, as a value. */
  datatype Nav = Nav(
    pwd: Path,
    parent: Path,
    next: Path,
    currentPath: Option<Path>,
    lineCount: nat,
    currentDir: seq<Path>,
    currentState: Option<nat>,   // the selected row of the current listing
    parentDir: seq<Path>,
    parentState: Option<nat>,    // the selected row of the parent listing
    nextDir: seq<Path>,
    error: Option<IoError>,
    content: string,
    permission: string)

  /** `FileStruct::default()`. */
  const EmptyNav := Nav([], [], [], None, 0, [], None, [], None, [], None, "", "")

  /** The listing of the parent directory: empty at the root, which has none. */
  function ParentListing(fs: FileSystem, pwd: Path): (r: seq<Path>)
    ensures pwd == [] ==> r == []
    ensures pwd != [] ==> r == Listing(fs, Parent(pwd).value)
  {
    match Parent(pwd)
    case None => []
    case Some(p) => Listing(fs, p)
  }

  /**
   * `file_permission`: stores the badge of `p` when its metadata can be
   * read; otherwise records the error and keeps the old badge.
   */
  function WithPermission(s: Nav, fs: FileSystem, p: Path): (r: Nav)
    ensures p in fs.meta ==> r == s.(permission := Badge(fs.meta[p])) && |r.permission| == 10
    ensures p !in fs.meta ==> r == s.(error := Some(Os(p)))
  {
    if p in fs.meta then s.(permission := Badge(fs.meta[p])) else s.(error := Some(Os(p)))
  }

  /** `next_dir_fn`: the badge of directory `p`, then `p` and its listing in the preview pane. */
  function WithNextDir(s: Nav, fs: FileSystem, p: Path): (r: Nav)
    ensures r.next == p && r.nextDir == Listing(fs, p)
    ensures r.content == s.content && r.lineCount == s.lineCount
    ensures r.error == (if p in fs.meta then s.error else Some(Os(p)))
  {
    WithPermission(s, fs, p).(next := p, nextDir := Listing(fs, p))
  }

  /**
   * `read_file`: the badge of file `p`, then its text and number of lines;
   * an unreadable file gives the empty text and an error.
   */
  function WithFile(s: Nav, fs: FileSystem, p: Path): (r: Nav)
    ensures r.content == (if p in fs.text then fs.text[p] else "")
    ensures r.lineCount == |Lines(r.content)|
    ensures p !in fs.text ==> r.error == Some(Os(p))
    ensures p in fs.text && p in fs.meta ==> r.error == s.error
    ensures r.next == s.next && r.nextDir == s.nextDir
  {
    var s1 := WithPermission(s, fs, p);
    if p in fs.text then s1.(lineCount := |Lines(fs.text[p])|, content := fs.text[p])
    else s1.(error := Some(Os(p)), lineCount := 0, content := "")
  }

  /**
   * The preview of the selected entry `p` in `present_dir_fn`: a directory
   * shows its listing, a file its text, anything else only its badge, with
   * the preview listing cleared.
   */
  function Preview(s: Nav, fs: FileSystem, p: Path): (r: Nav)
    ensures IsDir(fs, p) ==> r == WithNextDir(s, fs, p)
    ensures !IsDir(fs, p) && IsFile(fs, p) ==> r == WithFile(s, fs, p)
    ensures !IsDir(fs, p) && !IsFile(fs, p) ==> r == WithPermission(s, fs, p).(nextDir := [])
  {
    if IsDir(fs, p) then WithNextDir(s, fs, p)
    else if IsFile(fs, p) then WithFile(s, fs, p)
    else WithPermission(s, fs, p).(nextDir := [])
  }

  /** The selected entry could not be stat-ed, or is a file that could not be read. */
  predicate PreviewFails(fs: FileSystem, p: Path) {
    p !in fs.meta || (!IsDir(fs, p) && IsFile(fs, p) && p !in fs.text)
  }

  /**
   * `present_dir_fn` entering the canonical directory `pwd` with row `idx`
   * selected, for a row that exists.
   */
  function Presented(s: Nav, fs: FileSystem, pwd: Path, idx: nat): (r: Nav)
    requires idx < |Listing(fs, pwd)|
    ensures r.pwd == pwd && r.currentDir == Listing(fs, pwd)
    ensures r.currentState == Some(idx) && r.currentPath == Some(r.currentDir[idx])
    ensures r.parentDir == ParentListing(fs, pwd) && r.parentState == s.parentState
    ensures pwd != [] ==> r.parent == Parent(pwd).value
    ensures pwd == [] ==> r.parent == s.parent
    ensures r.error == (if PreviewFails(fs, r.currentDir[idx]) then Some(Os(r.currentDir[idx])) else None)
    ensures IsDir(fs, r.currentDir[idx]) ==> r.next == r.currentDir[idx] && r.nextDir == Listing(fs, r.next)
    ensures !IsDir(fs, r.currentDir[idx]) && IsFile(fs, r.currentDir[idx]) ==>
              r.lineCount == |Lines(r.content)| && r.nextDir == s.nextDir
    ensures !IsDir(fs, r.currentDir[idx]) && !IsFile(fs, r.currentDir[idx]) ==> r.nextDir == []
  {
    var files := Listing(fs, pwd);
    var s1 := s.(error := None, pwd := pwd, parent := Parent(pwd).GetOr(s.parent),
                 currentState := Some(idx), currentPath := Some(files[idx]));
    Preview(s1, fs, files[idx]).(currentDir := files, parentDir := ParentListing(fs, pwd))
  }

  /**
   * `present_dir_fn` with the emptiness check in front of the indexing: a
   * row that does not exist (in particular any row of an empty directory)
   * leaves nothing selected and the preview as it was.
   */
  function PresentedOrEmpty(s: Nav, fs: FileSystem, pwd: Path, idx: nat): (r: Nav)
    ensures idx < |Listing(fs, pwd)| ==> r == Presented(s, fs, pwd, idx)
    ensures idx >= |Listing(fs, pwd)| ==>
              r.currentState == None && r.currentPath == None && r.error == None &&
              r.pwd == pwd && r.currentDir == Listing(fs, pwd) && r.parentDir == ParentListing(fs, pwd)
  {
    if idx < |Listing(fs, pwd)| then Presented(s, fs, pwd, idx)
    else s.(error := None, pwd := pwd, parent := Parent(pwd).GetOr(s.parent),
            currentState := None, currentPath := None,
            currentDir := Listing(fs, pwd), parentDir := ParentListing(fs, pwd))
  }

  /** A filesystem call's failure, if any, recorded as the error. */
  function Failed(s: Nav, failure: Option<IoError>): (r: Nav)
    ensures failure.Some? ==> r == s.(error := failure)
    ensures failure.None? ==> r == s
  {
    if failure.Some? then s.(error := failure) else s
  }

  /**
   * The rename `rename(name)` asks for: the selected entry, to `name` in
   * the same directory; nothing without a selection or for the root.
   */
  function RenameTarget(s: Nav, name: Name): (r: Option<(Path, Path)>)
    ensures r.Some? <==> s.currentPath.Some? && s.currentPath.value != []
    ensures r.Some? ==> r.value.0 == s.currentPath.value &&
                        r.value.1 == Push(Parent(s.currentPath.value).value, name)
  {
    match s.currentPath
    case None => None
    case Some(p) =>
      match Parent(p)
      case None => None
      case Some(dir) => Some((p, Push(dir, name)))
  }

  /**
   * The outcome of `File::create_new(pwd/name)`: it fails when that path
   * exists, otherwise with the filesystem's answer `failure`.
   */
  function CreateOutcome(pwd: Path, fs: FileSystem, name: Name, failure: Option<IoError>)
    : (r: Result<Path, IoError>)
    ensures Push(pwd, name) in fs.meta ==> r == Err(AlreadyExists(Push(pwd, name)))
    ensures Push(pwd, name) !in fs.meta && failure.Some? ==> r == Err(failure.value)
    ensures Push(pwd, name) !in fs.meta && failure.None? ==> r == Ok(Push(pwd, name))
  {
    var target := Push(pwd, name);
    if target in fs.meta then Err(AlreadyExists(target))
    else if failure.Some? then Err(failure.value)
    else Ok(target)
  }

  /**
   * `iter().position(|p| p == target)`: the first row holding `target`,
   * None when no row does.
   */
  function Position(ps: seq<Path>, target: Path): (r: Option<nat>)
    ensures r.None? <==> target !in ps
    ensures r.Some? ==> r.value < |ps| && ps[r.value] == target &&
                        forall j :: 0 <= j < r.value ==> ps[j] != target
  {
    if ps == [] then None
    else if ps[0] == target then Some(0)
    else match Position(ps[1..], target)
      case None => None
      case Some(i) => Some(i + 1)
  }

  class FileStruct {
    var pwd: Path
    var parent: Path
    var next: Path
    var currentPath: Option<Path>
    var lineCount: nat
    var currentDir: seq<Path>
    var currentState: Option<nat>
    var parentDir: seq<Path>
    var parentState: Option<nat>
    var nextDir: seq<Path>
    var error: Option<IoError>
    var content: string
    var permission: string

    /** All fields as one value. */
    function State(): Nav
      reads this
    {
      Nav(pwd, parent, next, currentPath, lineCount, currentDir, currentState,
          parentDir, parentState, nextDir, error, content, permission)
    }

    /** `FileStruct::default()`: everything empty, nothing selected, no error. */
    constructor ()
      ensures State() == EmptyNav
    {
      pwd, parent, next := [], [], [];
      currentPath, lineCount := None, 0;
      currentDir, currentState := [], None;
      parentDir, parentState := [], None;
      nextDir, error, content, permission := [], None, "", "";
    }

    /** `file_permission`. */
    method FilePermission(fs: FileSystem, path: Path)
      modifies this
      ensures State() == WithPermission(old(State()), fs, path)
    {
      if path in fs.meta {
        var m := fs.meta[path];
        var fPermission := FormatPermissions(m.mode);
        var badge := [TypeChar(m)];
        badge := badge + fPermission;
        permission := badge;
      } else {
        error := Some(Os(path));
      }
    }

    /** `next_dir_fn`. */
    method NextDirFn(fs: FileSystem, path: Path)
      modifies this
      ensures State() == WithNextDir(old(State()), fs, path)
    {
      FilePermission(fs, path);
      var files := GetDirsAndFiles(fs, path);
      next := path;
      nextDir := files;
    }

    /** `read_file`. */
    method ReadFile(fs: FileSystem, path: Path)
      modifies this
      ensures State() == WithFile(old(State()), fs, path)
    {
      FilePermission(fs, path);
      var line := "";
      if path in fs.text {
        line := fs.text[path];
      } else {
        error := Some(Os(path));
      }
      lineCount := |Lines(line)|;
      content := line;
    }

    /** `parent_dir_fn`. */
    method ParentDirFn(fs: FileSystem)
      modifies this
      ensures State() == old(State()).(parentDir := ParentListing(fs, pwd))
    {
      var files: seq<Path> := [];
      match Parent(pwd) {
        case Some(p) =>
          files := GetDirsAndFiles(fs, p);
        case None =>
      }
      parentDir := files;
    }

    /**
     * `present_dir_fn` as written: it panics (`ok` false) when
     * `canonicalize` fails, and when the row to select does not exist,
     * because it indexes the listing before it checks that the listing is
     * not empty.
     */
    /** The preview step of `present_dir_fn` for the selected entry `sel`. */
    method PreviewEntry(fs: FileSystem, sel: Path)
      modifies this
      ensures State() == Preview(old(State()), fs, sel)
    {
      if IsDir(fs, sel) {
        NextDirFn(fs, sel);
      } else if IsFile(fs, sel) {
        ReadFile(fs, sel);
      } else {
        FilePermission(fs, sel);
        nextDir := [];
      }
    }

    /** The first steps of `present_dir_fn`: clear the error, enter `dir`, move `parent` up. */
    method Enter(dir: Path)
      modifies this
      ensures State() == old(State()).(error := None, pwd := dir, parent := Parent(dir).GetOr(old(parent)))
    {
      error := None;
      pwd := dir;
      match Parent(pwd) {
        case Some(p) => parent := p;
        case None =>
      }
    }

    /**
     * `present_dir_fn` as written: it panics (`ok` false) when
     * `canonicalize` fails, and when the row to select does not exist,
     * because it indexes the listing before it checks that the listing is
     * not empty.
     */
    method PresentDirFn(fs: FileSystem, path: Path, index: Option<nat>) returns (ok: bool)
      modifies this
      ensures ok <==> path in fs.canon && index.GetOr(0) < |Listing(fs, fs.canon[path])|
      ensures ok ==> State() == Presented(old(State()), fs, fs.canon[path], index.GetOr(0))
    {
      if path !in fs.canon {
        return false;
      }
      var dir := fs.canon[path];
      Enter(dir);
      var files := GetDirsAndFiles(fs, dir);
      var idx := index.GetOr(0);
      currentState := Some(idx);
      if idx >= |files| {
        return false;
      }
      currentPath := Some(files[idx]);
      if |files| > 0 {
        PreviewEntry(fs, files[idx]);
      }
      currentDir := files;
      ParentDirFn(fs);
      ok := true;
    }

    /**
     * `present_dir_fn` with the emptiness check moved in front of the
     * indexing; only a failing `canonicalize` still panics. This is the
     * version the key handlers use.
     */
    method PresentDir(fs: FileSystem, path: Path, index: Option<nat>) returns (ok: bool)
      modifies this
      ensures ok <==> path in fs.canon
      ensures ok ==> State() == PresentedOrEmpty(old(State()), fs, fs.canon[path], index.GetOr(0))
    {
      if path !in fs.canon {
        return false;
      }
      var dir := fs.canon[path];
      Enter(dir);
      var files := GetDirsAndFiles(fs, dir);
      var idx := index.GetOr(0);
      if idx < |files| {
        currentState := Some(idx);
        currentPath := Some(files[idx]);
        PreviewEntry(fs, files[idx]);
      } else {
        currentState := None;
        currentPath := None;
      }
      currentDir := files;
      ParentDirFn(fs);
      ok := true;
    }

    /**
     * `rename`: asks the filesystem to rename the selected entry within its
     * directory; `failure` is the filesystem's answer. Nothing happens
     * without a selection.
     */
    method Rename(name: Name, failure: Option<IoError>) returns (request: Option<(Path, Path)>)
      modifies this
      ensures request == RenameTarget(old(State()), name)
      ensures State() == if request.Some? then Failed(old(State()), failure) else old(State())
    {
      request := None;
      match currentPath {
        case None =>
        case Some(p) =>
          match Parent(p) {
            case None =>
            case Some(dir) =>
              request := Some((p, Push(dir, name)));
              if failure.Some? {
                error := failure;
              }
          }
      }
    }

    /**
     * `create_file`: `File::create_new` on `pwd/name`. No field changes,
     * whatever the outcome.
     */
    method CreateFile(fs: FileSystem, name: Name, failure: Option<IoError>)
      returns (r: Result<Path, IoError>)
      ensures r == CreateOutcome(pwd, fs, name, failure)
    {
      var target := Push(pwd, name);
      if target in fs.meta {
        r := Err(AlreadyExists(target));
      } else if failure.Some? {
        r := Err(failure.value);
      } else {
        r := Ok(target);
      }
    }

    /**
     * `file_write`: asks the filesystem to overwrite the selected file with
     * `text`; `failure` is its answer. Nothing happens without a selection.
     */
    method FileWrite(text: string, failure: Option<IoError>) returns (request: Option<(Path, string)>)
      modifies this
      ensures old(currentPath).None? ==> request.None? && State() == old(State())
      ensures old(currentPath).Some? ==> request == Some((old(currentPath).value, text))
      ensures old(currentPath).Some? ==> State() == Failed(old(State()), failure)
    {
      match currentPath {
        case None =>
          request := None;
        case Some(p) =>
          request := Some((p, text));
          if failure.Some? {
            error := failure;
          }
      }
    }

    /**
     * `file_read`: the text of the selected entry; `Unsupported` without a
     * selection, the filesystem's error when the text cannot be read.
     */
    function FileRead(fs: FileSystem): (r: Result<string, IoError>)
      reads this
      ensures currentPath.None? ==> r == Err(Unsupported)
      ensures currentPath.Some? && currentPath.value in fs.text ==> r == Ok(fs.text[currentPath.value])
      ensures currentPath.Some? && currentPath.value !in fs.text ==> r == Err(Os(currentPath.value))
    {
      match currentPath
      case None => Err(Unsupported)
      case Some(p) => if p in fs.text then Ok(fs.text[p]) else Err(Os(p))
    }

    /**
     * `delete`: a directory is removed with everything in it, anything else
     * as a file; `failure` is the filesystem's answer, recorded as the error.
     */
    method Delete(fs: FileSystem, path: Path, failure: Option<IoError>) returns (recursive: bool)
      modifies this
      ensures recursive == IsDir(fs, path)
      ensures State() == Failed(old(State()), failure)
    {
      recursive := IsDir(fs, path);
      if failure.Some? {
        error := failure;
      }
    }

    /**
     * The part of drawing the parent pane that changes state: the parent
     * listing's selected row is set to the row holding `pwd`, or to nothing.
     */
    method SelectParentRow()
      modifies this
      ensures State() == old(State()).(parentState := Position(parentDir, pwd))
    {
      parentState := Position(parentDir, pwd);
    }
  }

  /**
   * After the working directory is presented, the parent pane's selected
   * row holds the working directory whenever the parent listing lists it.
   */
  lemma ParentRowTracksPwd(s: Nav, fs: FileSystem, pwd: Path, idx: nat)
    requires idx < |Listing(fs, pwd)|
    requires pwd in ParentListing(fs, pwd)
    ensures var r := Presented(s, fs, pwd, idx);
            var row := Position(r.parentDir, r.pwd);
            row.Some? && r.parentDir[row.value] == pwd
  {
  }

  /** At the root there is no parent listing, so no parent row is selected. */
  lemma NoParentRowAtRoot(s: Nav, fs: FileSystem, idx: nat)
    requires idx < |Listing(fs, [])|
    ensures Position(Presented(s, fs, [], idx).parentDir, []) == None
  {
  }

  /** Entering without an index selects the first row; an empty directory selects nothing. */
  lemma EnterSelectsFirst(s: Nav, fs: FileSystem, pwd: Path)
    ensures var r := PresentedOrEmpty(s, fs, pwd, 0);
            (|Listing(fs, pwd)| == 0 ==> r.currentState == None && r.currentPath == None) &&
            (|Listing(fs, pwd)| > 0 ==> r.currentState == Some(0) && r.currentPath == Some(Listing(fs, pwd)[0]))
  {
  }

  /** The metadata of a directory with mode 0o755. */
  const DirMeta := Metadata(true, false, false, 0x1ED)

  /** A filesystem holding one directory `/d`, which is empty. */
  const OneEmptyDir := FileSystem(
    map[[] := DirMeta, ["d"] := DirMeta],
    map[[] := [Some(["d"])], ["d"] := []],
    map[],
    map[[] := [], ["d"] := ["d"]])

  /**
   * Entering the empty directory `/d` makes `present_dir_fn` as written
   * panic: `/d` canonicalizes, but row 0 of its empty listing is indexed.
   */
  lemma EmptyDirectoryPanics()
    ensures ["d"] in OneEmptyDir.canon
    ensures !(None.GetOr(0) < |Listing(OneEmptyDir, OneEmptyDir.canon[["d"]])|)
  {
    assert Listing(OneEmptyDir, ["d"]) == [];
  }

  /**
   * The corrected `present_dir_fn` enters `/d`: an empty listing with
   * nothing selected, and `/d` as the parent pane's row.
   */
  lemma CorrectedEntersEmptyDirectory()
    ensures var r := PresentedOrEmpty(EmptyNav, OneEmptyDir, ["d"], 0);
            r.pwd == ["d"] && r.currentDir == [] && r.currentState == None &&
            r.currentPath == None && r.parentDir == [["d"]] && Position(r.parentDir, r.pwd) == Some(0)
  {
    assert Listing(OneEmptyDir, ["d"]) == [];
    assert OkEntries([Some(["d"])]) == [["d"]];
    assert Listing(OneEmptyDir, []) == [["d"]];
  }
}
