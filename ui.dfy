/**
 * The application record (`FileScout`): the view mode, the text prompt or
 * editor buffer, the content-view scroll offsets, the colour theme and the
 * exit flag, next to the navigation state it shares with background jobs.
 * Drawing is left out except for what it reads and changes: the parent
 * pane's selected row, the choice of preview, and the colour table index.
 */
module Ui {
  import opened Common
  import opened FsModel
  import opened Lister
  import opened Explorer
  import opened EditBuffer

  datatype ViewMode = ListView | ContentView | Rename | Create | FileEdit

  /** The prompt or editor buffer, with its line count and cached row length. */
  datatype Input = Input(content: string, totalLines: nat, totalLetter: nat)

  /** `Input::default()`. */
  const EmptyInput := Input("", 0, 0)

  /** `COLORS.len()`: the number of colour themes. */
  const ColorCount: nat := 9

  /** What the third pane shows. */
  datatype Pane = Blank | FileText | SubListing

  /**
   * The choice of preview when drawing: nothing for an empty listing or
   * without a selection; the file's text when the selected entry is a file,
   * the `next_dir` listing otherwise. None where drawing panics: the
   * selected row is past the end of a non-empty listing.
   */
  function PreviewPane(fs: FileSystem, s: Nav): (r: Option<Pane>)
    ensures r.None? <==> s.currentDir != [] && s.currentState.Some? && s.currentState.value >= |s.currentDir|
    ensures r == Some(FileText) <==>
              s.currentDir != [] && s.currentState.Some? && s.currentState.value < |s.currentDir| &&
              IsFile(fs, s.currentDir[s.currentState.value])
    ensures r == Some(Blank) <==> s.currentDir == [] || s.currentState.None?
  {
    if s.currentDir == [] then Some(Blank)
    else match s.currentState
      case None => Some(Blank)
      case Some(i) =>
        if i >= |s.currentDir| then None
        else if IsFile(fs, s.currentDir[i]) then Some(FileText)
        else Some(SubListing)
  }

  /**
   * Right after a directory is presented, drawing never panics on the
   * preview, and the pane shows the selected file's text (as read then)
   * exactly when the selected entry is a file.
   */
  lemma PresentedPreviewShowsSelection(s: Nav, fs: FileSystem, pwd: Path, idx: nat)
    ensures var r := PresentedOrEmpty(s, fs, pwd, idx);
            PreviewPane(fs, r).Some? &&
            (idx < |Listing(fs, pwd)| ==>
              var sel := Listing(fs, pwd)[idx];
              (PreviewPane(fs, r) == Some(FileText) <==> IsFile(fs, sel)) &&
              (IsFile(fs, sel) && !IsDir(fs, sel) && sel in fs.text ==> r.content == fs.text[sel]) &&
              (IsDir(fs, sel) && !IsFile(fs, sel) ==>
                PreviewPane(fs, r) == Some(SubListing) && r.nextDir == Listing(fs, sel)))
  {
    var r := PresentedOrEmpty(s, fs, pwd, idx);
    if idx < |Listing(fs, pwd)| {
      var sel := Listing(fs, pwd)[idx];
      assert r == Presented(s, fs, pwd, idx);
      assert r.currentDir[idx] == sel;
      if IsFile(fs, sel) && !IsDir(fs, sel) && sel in fs.text {
        var s1 := s.(error := None, pwd := pwd, parent := Parent(pwd).GetOr(s.parent),
                     currentState := Some(idx), currentPath := Some(sel));
        assert Preview(s1, fs, sel) == WithFile(s1, fs, sel);
      }
    }
  }

  /** The 'c' key: the next colour theme, wrapping round after the last. */
  function NextColor(c: nat): (r: nat)
    ensures r < ColorCount
    ensures c + 1 < ColorCount ==> r == c + 1
    ensures c + 1 == ColorCount ==> r == 0
  {
    (c + 1) % ColorCount
  }

  /** Pressing 'c' as many times as there are themes gives back the theme. */
  lemma {:induction false} ColorCycle(c: nat)
    requires c < ColorCount
    ensures NextColor(NextColor(NextColor(NextColor(NextColor(NextColor(NextColor(NextColor(NextColor(c))))))))) == c
  {
    if c == 0 {
    } else if c < 5 {
      assert NextColor(NextColor(NextColor(NextColor(NextColor(c))))) == c + 5 || c + 5 >= ColorCount;
    }
  }

  class FileScout {
    /** The navigation state, shared with the background jobs. */
    const files: FileStruct
    var input: Input
    var textScrollY: nat
    var textScrollX: nat
    var colorIndex: nat
    var mode: ViewMode
    var exit: bool

    /**
     * Drawing can index the colour table, and the list modes hold no
     * leftover prompt text: every way back to them clears the input.
     */
    ghost predicate Valid()
      reads this
    {
      colorIndex < ColorCount && (mode == ListView || mode == ContentView ==> input.content == "")
    }

    /** The editor cursor: column, row and cached row length. */
    function EditCursor(): Cursor
      reads this
    {
      Cursor(textScrollX, textScrollY, input.totalLetter)
    }

    /** `FileScout::new`: list view, empty input, no scrolling, first colour theme. */
    constructor (files: FileStruct)
      ensures this.files == files
      ensures mode == ListView && input == EmptyInput && !exit
      ensures textScrollY == 0 && textScrollX == 0 && colorIndex == 0
      ensures Valid()
    {
      this.files := files;
      mode := ListView;
      input := EmptyInput;
      textScrollY, textScrollX := 0, 0;
      colorIndex := 0;
      exit := false;
    }

    /**
     * The state changes and panics of drawing one frame. The editor draws
     * only the buffer; every other mode marks the parent pane's row holding
     * `pwd` and chooses the preview.
     */
    method Draw(fs: FileSystem) returns (ok: bool)
      modifies files
      ensures mode == FileEdit ==> files.State() == old(files.State()) && (ok <==> colorIndex < ColorCount)
      ensures mode != FileEdit && colorIndex < ColorCount ==>
                files.State() == old(files.State()).(parentState := Position(files.parentDir, files.pwd))
      ensures mode != FileEdit ==> (ok <==> colorIndex < ColorCount && PreviewPane(fs, files.State()).Some?)
    {
      if colorIndex >= ColorCount {
        return false;
      }
      if mode == FileEdit {
        return true;
      }
      files.SelectParentRow();
      var pane := PreviewPane(fs, files.State());
      ok := pane.Some?;
    }
  }
}
