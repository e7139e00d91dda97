/**
 * The key handlers: the view-mode state machine of the browser, the name
 * prompt, the text editor, and the state changes that background jobs
 * apply when they finish.
 *
 * Each handler returns `ok` false where the source panics. The filesystem
 * is a value: `fs` is what the handler observes, and `effect` is the answer
 * to the one mutating call a key makes and the filesystem after it.
 * Requests to change files and jobs to run in the background are returned,
 * not performed.
 */
module KeyEvents {
  import opened Common
  import opened FsModel
  import opened TextLines
  import opened Lister
  import opened Explorer
  import opened EditBuffer
  import opened Ui

  /** The key codes the handlers tell apart. */
  datatype Key = Char(c: char) | Enter | Backspace | Tab | Up | Down | Left | Right | Delete | Esc | Other

  /** The filesystem's answer to a mutating call, and the filesystem afterwards. */
  datatype Effect = Effect(failure: Option<IoError>, after: FileSystem)

  /** A change a handler asks the filesystem to make. */
  datatype Request =
    | WriteText(path: Path, text: string)
    | RenameEntry(from: Path, to: Path)
    | CreateEntry(path: Path)
    | RemoveEntry(path: Path, recursive: bool)

  /** Work spawned on another thread or task. */
  datatype Job = EncryptJob(src: Path, dst: Path) | DecryptJob(src: Path, dst: Path) | LoadPreview(path: Path)

  const EncSuffix: string := ".enc"

  /** The name of the encrypted copy: `format!("{}.enc", name)`. */
  function EncryptedName(name: Name): (r: Name)
    ensures |r| == |name| + |EncSuffix| && r[..|name|] == name && r[|name|..] == EncSuffix
  {
    name + EncSuffix
  }

  /** `strip_suffix(".enc")`: None for a name without the suffix. */
  function DecryptedName(name: Name): (r: Option<Name>)
    ensures r.Some? <==> |name| >= |EncSuffix| && name[|name| - |EncSuffix|..] == EncSuffix
    ensures r.Some? ==> name == r.value + EncSuffix
  {
    if |name| >= |EncSuffix| && name[|name| - |EncSuffix|..] == EncSuffix
    then Some(name[..|name| - |EncSuffix|]) else None
  }

  /** Decrypting the name of an encrypted copy gives back the original name. */
  lemma DecryptedEncryptedName(name: Name)
    ensures DecryptedName(EncryptedName(name)) == Some(name)
  {
    var e := EncryptedName(name);
    assert e[|e| - |EncSuffix|..] == EncSuffix;
    assert e[..|e| - |EncSuffix|] == name;
  }

  /** Every name that decrypts is the encrypted name of its result. */
  lemma EncryptedDecryptedName(name: Name)
    requires DecryptedName(name).Some?
    ensures EncryptedName(DecryptedName(name).value) == name
  {
  }

  /** `ListState::select_next`: row 0 without a selection, else one row further (saturating). */
  function SelectNext(sel: Option<nat>): (r: nat)
    ensures sel.None? ==> r == 0
    ensures sel.Some? && sel.value < UsizeMax ==> r == sel.value + 1
    ensures sel.Some? && sel.value >= UsizeMax ==> r == sel.value
  {
    match sel
    case None => 0
    case Some(i) => if i < UsizeMax then i + 1 else i
  }

  /** `ListState::select_previous`: the last possible row without a selection, else one row back. */
  function SelectPrevious(sel: Option<nat>): (r: nat)
    ensures sel.None? ==> r == UsizeMax
    ensures sel.Some? ==> r == Dec(sel.value)
  {
    match sel
    case None => UsizeMax
    case Some(i) => Dec(i)
  }

  /** Down in the content view: one line further while not on the last line. */
  function ScrollDown(y: nat, lineCount: nat): (r: nat)
    ensures y < Dec(lineCount) ==> r == y + 1
    ensures y >= Dec(lineCount) ==> r == y
  {
    if y < Dec(lineCount) then y + 1 else y
  }

  /**
   * The content view's scroll offset never leaves the text: Down and Up
   * keep it at most the index of the last line.
   */
  lemma ScrollStaysInText(y: nat, lineCount: nat)
    requires y <= Dec(lineCount)
    ensures ScrollDown(y, lineCount) <= Dec(lineCount)
    ensures Dec(y) <= Dec(lineCount)
  {
  }

  /** `String::pop`: the last character goes, if there is one. */
  function Pop(s: string): (r: string)
    ensures s == [] ==> r == []
    ensures s != [] ==> r + [s[|s| - 1]] == s
  {
    if s == [] then s else s[..|s| - 1]
  }

  /**
   * The refresh after a change: `present_dir_fn(pwd, Some(i))` when row `i`
   * is selected, nothing otherwise. None where `pwd` no longer
   * canonicalizes. A row past the end of the fresh listing follows the
   * corrected entry (`PresentedOrEmpty`): nothing is selected, where the
   * code as written panics.
   */
  function Refreshed(s: Nav, fs: FileSystem): (r: Option<Nav>)
    ensures s.currentState.None? ==> r == Some(s)
    ensures s.currentState.Some? ==> (r.Some? <==> s.pwd in fs.canon)
    ensures s.currentState.Some? && r.Some? ==>
              r.value == PresentedOrEmpty(s, fs, fs.canon[s.pwd], s.currentState.value)
  {
    match s.currentState
    case None => Some(s)
    case Some(i) => if s.pwd in fs.canon then Some(PresentedOrEmpty(s, fs, fs.canon[s.pwd], i)) else None
  }

  /**
   * A refresh of a canonical working directory stays in it and keeps the
   * selected row when that row still exists; otherwise the corrected entry
   * clears the selection (the code as written panics there).
   */
  lemma RefreshKeepsPlace(s: Nav, fs: FileSystem)
    requires s.currentState.Some? && s.pwd in fs.canon && fs.canon[s.pwd] == s.pwd
    ensures var r := Refreshed(s, fs).value;
            r.pwd == s.pwd && r.currentDir == Listing(fs, s.pwd) &&
            (s.currentState.value < |r.currentDir| ==> r.currentState == s.currentState) &&
            (s.currentState.value >= |r.currentDir| ==> r.currentState == None)
  {
  }

  /** `present_dir_fn(pwd, Some(i))` for the selected row `i`. */
  method Refresh(files: FileStruct, fs: FileSystem) returns (ok: bool)
    modifies files
    ensures ok <==> Refreshed(old(files.State()), fs).Some?
    ensures ok ==> files.State() == Refreshed(old(files.State()), fs).value
  {
    var pwd := files.pwd;
    match files.currentState {
      case None =>
        ok := true;
      case Some(i) =>
        ok := files.PresentDir(fs, pwd, Some(i));
    }
  }

  /** `reset_mode`: clears the input and returns to the list view. */
  method ResetMode(app: FileScout)
    modifies app`input, app`mode
    ensures app.input == old(app.input).(content := "") && app.mode == ListView
  {
    app.input := app.input.(content := "");
    app.mode := ListView;
  }

  // ---------------------------------------------------------------------
  // The name prompt (Create and Rename modes)
  // ---------------------------------------------------------------------

  /** The navigation state after the prompt's Enter: the create or rename and its error. */
  function NameEntered(s: Nav, mode: ViewMode, name: Name, fs: FileSystem, failure: Option<IoError>)
    : (r: Nav)
    requires mode == Create || mode == Rename
    ensures mode == Create && CreateOutcome(s.pwd, fs, name, failure).Err? ==>
              r == s.(error := Some(CreateOutcome(s.pwd, fs, name, failure).error))
    ensures mode == Create && CreateOutcome(s.pwd, fs, name, failure).Ok? ==> r == s
    ensures mode == Rename ==> r == if RenameTarget(s, name).Some? then Failed(s, failure) else s
  {
    if mode == Create then
      match CreateOutcome(s.pwd, fs, name, failure)
      case Ok(_) => s
      case Err(e) => s.(error := Some(e))
    else if RenameTarget(s, name).Some? then Failed(s, failure) else s
  }

  /** The filesystem change the prompt's Enter asks for. */
  function NameRequest(s: Nav, mode: ViewMode, name: Name): (r: Option<Request>)
    requires mode == Create || mode == Rename
    ensures mode == Create ==> r == Some(CreateEntry(Push(s.pwd, name)))
    ensures mode == Rename ==> (r.Some? <==> RenameTarget(s, name).Some?)
    ensures mode == Rename && r.Some? ==>
              r.value == RenameEntry(RenameTarget(s, name).value.0, RenameTarget(s, name).value.1)
  {
    if mode == Create then Some(CreateEntry(Push(s.pwd, name)))
    else match RenameTarget(s, name)
      case None => None
      case Some((from, to)) => Some(RenameEntry(from, to))
  }

  /**
   * `handle_file_name`: every character, 'q' included, goes into the
   * prompt; Backspace pops; Esc leaves without touching any file; Enter
   * creates or renames, leaves the prompt and refreshes the listing.
   */
  method HandleFileName(app: FileScout, key: Key, fs: FileSystem, effect: Effect)
    returns (ok: bool, request: Option<Request>)
    requires app.mode == Create || app.mode == Rename
    modifies app`input, app`mode, app.files
    ensures key.Char? ==>
              ok && request.None? && app.mode == old(app.mode) &&
              app.input == old(app.input).(content := old(app.input.content) + [key.c]) &&
              app.files.State() == old(app.files.State())
    ensures key.Backspace? ==>
              ok && request.None? && app.mode == old(app.mode) &&
              app.input == old(app.input).(content := Pop(old(app.input.content))) &&
              app.files.State() == old(app.files.State())
    ensures key.Esc? ==>
              ok && request.None? && app.mode == ListView &&
              app.input == old(app.input).(content := "") &&
              app.files.State() == old(app.files.State())
    ensures key.Enter? ==>
              var entered := NameEntered(old(app.files.State()), old(app.mode), old(app.input.content), fs, effect.failure);
              request == NameRequest(old(app.files.State()), old(app.mode), old(app.input.content)) &&
              app.mode == ListView && app.input == old(app.input).(content := "") &&
              (ok <==> Refreshed(entered, effect.after).Some?) &&
              (ok ==> app.files.State() == Refreshed(entered, effect.after).value)
    ensures !(key.Char? || key.Backspace? || key.Esc? || key.Enter?) ==>
              ok && request.None? && app.mode == old(app.mode) && app.input == old(app.input) &&
              app.files.State() == old(app.files.State())
  {
    ok, request := true, None;
    match key {
      case Char(c) =>
        app.input := app.input.(content := app.input.content + [c]);
      case Backspace =>
        app.input := app.input.(content := Pop(app.input.content));
      case Enter =>
        var name := app.input.content;
        if app.mode == Create {
          request := Some(CreateEntry(Push(app.files.pwd, name)));
          var r := app.files.CreateFile(fs, name, effect.failure);
          if r.Err? {
            app.files.error := Some(r.error);
          }
        } else {
          var renamed := app.files.Rename(name, effect.failure);
          if renamed.Some? {
            request := Some(RenameEntry(renamed.value.0, renamed.value.1));
          }
        }
        ResetMode(app);
        ok := Refresh(app.files, effect.after);
      case Esc =>
        ResetMode(app);
      case _ =>
    }
  }

  // ---------------------------------------------------------------------
  // The text editor (FileEdit mode)
  // ---------------------------------------------------------------------

  /**
   * `edit_content`: cuts the buffer into lines, inserts `ch` into the row
   * under the cursor and joins the rows again; see `Inserted`.
   */
  method EditContent(app: FileScout, ch: char) returns (ok: bool)
    modifies app`input
    ensures ok <==> Inserted(old(app.input.content), app.textScrollX, app.textScrollY, ch).Some?
    ensures ok ==> app.input == old(app.input).(content := Inserted(old(app.input.content), app.textScrollX, app.textScrollY, ch).value)
    ensures !ok ==> app.input == old(app.input)
  {
    var content := app.input.content;
    var list := Lines(content);
    if |list| == 0 {
      app.input := app.input.(content := [ch] + content);
      return true;
    }
    if |list| > app.textScrollY {
      var row := list[app.textScrollY];
      if app.textScrollX > |row| {
        return false;
      }
      list := list[app.textScrollY := InsertAt(row, app.textScrollX, ch)];
      app.input := app.input.(content := Join(list));
    } else {
      app.input := app.input.(content := content + [ch]);
    }
    ok := true;
  }

  /**
   * `remove_at`: cuts the buffer into lines, removes the character before
   * the cursor from its row and joins the rows again; see `Removed`.
   */
  method RemoveCharAt(app: FileScout) returns (ok: bool)
    modifies app`input, app`textScrollY
    ensures ok <==> Removed(old(app.input.content), app.textScrollX, old(app.textScrollY)).Some?
    ensures ok ==> (app.input.content, app.textScrollY) == Removed(old(app.input.content), app.textScrollX, old(app.textScrollY)).value
    ensures app.input == old(app.input).(content := app.input.content)
  {
    var content := app.input.content;
    var list := Lines(content);
    if |list| != 0 {
      if |list| > app.textScrollY {
        var row := list[app.textScrollY];
        if |row| >= app.textScrollX {
          var k := Dec(app.textScrollX);
          if k >= |row| {
            return false;
          }
          list := list[app.textScrollY := RemoveAt(row, k)];
          app.input := app.input.(content := Join(list));
        }
      } else {
        app.input := app.input.(content := content[..|content| - 1]);
        app.textScrollY := Dec(app.textScrollY);
      }
    }
    ok := true;
  }

  /** Control+S saves; Control+C leaves the editor. */
  predicate SaveKey(key: Key, ctrl: bool) { ctrl && key == Char('s') }
  predicate QuitEditorKey(key: Key, ctrl: bool) { ctrl && key == Char('c') }

  /**
   * Control+S: writes the buffer to the selected file, leaves the editor
   * with the cursor back at the origin, and refreshes the listing.
   */
  method SaveAndLeave(app: FileScout, effect: Effect) returns (ok: bool, request: Option<Request>)
    modifies app`input, app`mode, app`textScrollX, app`textScrollY, app.files
    ensures var s := old(app.files.State());
            var written := if s.currentPath.Some? then Failed(s, effect.failure) else s;
            request == (if s.currentPath.Some? then Some(WriteText(s.currentPath.value, old(app.input.content))) else None) &&
            app.mode == ListView && app.input == old(app.input).(content := "") &&
            app.textScrollX == 0 && app.textScrollY == 0 &&
            (ok <==> Refreshed(written, effect.after).Some?) &&
            (ok ==> app.files.State() == Refreshed(written, effect.after).value)
  {
    request := None;
    var written := app.files.FileWrite(app.input.content, effect.failure);
    if written.Some? {
      request := Some(WriteText(written.value.0, written.value.1));
    }
    ResetMode(app);
    ok := Refresh(app.files, effect.after);
    app.textScrollY := 0;
    app.textScrollX := 0;
  }

  /** The keys that change the buffer: a character, Enter (a '\n'), Tab (a ' ') and Backspace. */
  method EditKey(app: FileScout, key: Key) returns (ok: bool)
    requires key.Char? || key.Enter? || key.Tab? || key.Backspace?
    modifies app`input, app`textScrollX, app`textScrollY
    ensures key.Char? || key.Tab? ==>
              var ch := if key.Char? then key.c else ' ';
              var typed := EditBuffer.TypeChar(old(app.input.content), old(app.EditCursor()), ch);
              (ok <==> typed.Some?) &&
              (ok ==> app.input.content == typed.value.0 && app.EditCursor() == typed.value.1)
    ensures key.Enter? ==>
              var broken := EditBuffer.BreakRow(old(app.input.content), old(app.EditCursor()));
              (ok <==> broken.Some?) &&
              (ok ==> app.input.content == broken.value.0 && app.EditCursor() == broken.value.1)
    ensures key.Backspace? ==>
              var erased := EditBuffer.Backspace(old(app.input.content), old(app.EditCursor()));
              (ok <==> erased.Some?) &&
              (ok ==> app.input.content == erased.value.0 && app.EditCursor() == erased.value.1)
    ensures app.input.totalLines == old(app.input.totalLines)
  {
    match key {
      case Char(ch) =>
        ok := EditContent(app, ch);
        app.textScrollX := app.textScrollX + 1;
      case Enter =>
        ok := EditContent(app, '\n');
        app.textScrollY := app.textScrollY + 1;
        app.textScrollX := 0;
      case Backspace =>
        ok := RemoveCharAt(app);
        app.textScrollX := Dec(app.textScrollX);
      case Tab =>
        ok := EditContent(app, ' ');
        app.textScrollX := app.textScrollX + 1;
    }
  }

  /** The arrows: the cursor moves, the buffer stays. */
  method CursorKey(app: FileScout, key: Key)
    requires key.Up? || key.Down? || key.Left? || key.Right?
    modifies app`input, app`textScrollX, app`textScrollY
    ensures app.input.content == old(app.input.content) && app.input.totalLines == old(app.input.totalLines)
    ensures key.Down? ==> app.EditCursor() == MoveDown(old(app.input.content), old(app.EditCursor()))
    ensures key.Up? ==> app.EditCursor() == MoveUp(old(app.input.content), old(app.EditCursor()))
    ensures key.Left? ==> app.EditCursor() == MoveLeft(old(app.input.content), old(app.EditCursor()))
    ensures key.Right? ==> app.EditCursor() == MoveRight(old(app.input.content), old(app.EditCursor()))
  {
    var content := app.input.content;
    match key {
      case Down =>
        if app.textScrollY < Dec(|Lines(content)|) {
          app.textScrollY := app.textScrollY + 1;
          app.input := app.input.(totalLetter := LineLen(content, app.textScrollY));
          if app.textScrollX > app.input.totalLetter {
            app.textScrollX := app.input.totalLetter;
          }
        }
      case Up =>
        app.textScrollY := Dec(app.textScrollY);
        app.input := app.input.(totalLetter := LineLen(content, app.textScrollY));
        if app.textScrollX > app.input.totalLetter {
          app.textScrollX := app.input.totalLetter;
        }
      case Left =>
        if app.textScrollX == 0 && app.textScrollY != 0 {
          app.textScrollY := Dec(app.textScrollY);
          app.input := app.input.(totalLetter := LineLen(content, app.textScrollY));
          app.textScrollX := app.input.totalLetter;
          return;
        }
        app.textScrollX := Dec(app.textScrollX);
      case Right =>
        if app.textScrollX == app.input.totalLetter {
          app.textScrollX := 0;
          app.textScrollY := app.textScrollY + 1;
          app.input := app.input.(totalLetter := LineLen(content, app.textScrollY));
          return;
        }
        app.textScrollX := app.textScrollX + 1;
    }
  }

  /**
   * `handle_file_edit`: Control+S saves and leaves, Control+C leaves
   * without writing, the other keys edit the buffer or move the cursor;
   * only saving touches the navigation state.
   */
  method HandleFileEdit(app: FileScout, key: Key, ctrl: bool, effect: Effect)
    returns (ok: bool, request: Option<Request>)
    requires app.mode == FileEdit
    modifies app`input, app`mode, app`textScrollX, app`textScrollY, app.files
    ensures SaveKey(key, ctrl) ==> app.mode == ListView && app.input.content == ""
    ensures QuitEditorKey(key, ctrl) ==>
              ok && request.None? && app.mode == ListView && app.input == old(app.input).(content := "") &&
              app.textScrollX == 0 && app.textScrollY == 0 && app.files.State() == old(app.files.State())
    ensures !SaveKey(key, ctrl) && !QuitEditorKey(key, ctrl) ==>
              request.None? && app.mode == FileEdit && app.files.State() == old(app.files.State())
    ensures key.Up? || key.Down? || key.Left? || key.Right? || key.Esc? || key.Delete? || key.Other? ==> ok
  {
    ok, request := true, None;
    if SaveKey(key, ctrl) {
      ok, request := SaveAndLeave(app, effect);
    } else if QuitEditorKey(key, ctrl) {
      ResetMode(app);
      app.textScrollY := 0;
      app.textScrollX := 0;
    } else if key.Char? || key.Enter? || key.Tab? || key.Backspace? {
      ok := EditKey(app, key);
    } else if key.Up? || key.Down? || key.Left? || key.Right? {
      CursorKey(app, key);
    }
  }

  // ---------------------------------------------------------------------
  // The browser (ListView and ContentView modes)
  // ---------------------------------------------------------------------

  /** The selected row, when there is one, lies inside the listing. */
  predicate SelectionInRange(s: Nav) {
    s.currentState.None? || s.currentState.value < |s.currentDir|
  }

  /**
   * Down or Up in the list view once the selection has moved to row `idx`:
   * the error is cleared; a directory is previewed at once, a file's preview
   * is emptied and its text left to a background job; the current path
   * follows the selection. A row past the end stops Down there, and makes
   * Up panic, because Up indexes the listing without checking.
   */
  function MovedTo(s: Nav, fs: FileSystem, idx: nat, down: bool): (r: Option<(Nav, Option<Job>)>)
    ensures idx >= |s.currentDir| ==> (r.Some? <==> down)
    ensures idx >= |s.currentDir| && down ==> r.value == (s.(error := None, currentState := Some(idx)), None)
    ensures idx < |s.currentDir| ==>
              r.Some? && r.value.0.currentState == Some(idx) &&
              r.value.0.currentPath == Some(s.currentDir[idx]) && r.value.0.currentDir == s.currentDir &&
              r.value.0.pwd == s.pwd && r.value.0.error == None
    ensures idx < |s.currentDir| && IsDir(fs, s.currentDir[idx]) ==>
              r.value.1.None? && r.value.0.next == s.currentDir[idx] &&
              r.value.0.nextDir == Listing(fs, s.currentDir[idx])
    ensures idx < |s.currentDir| && !IsDir(fs, s.currentDir[idx]) ==>
              r.value.1 == Some(LoadPreview(s.currentDir[idx])) && r.value.0.content == "" &&
              r.value.0.nextDir == s.nextDir
  {
    var s1 := s.(error := None, currentState := Some(idx));
    if idx < |s.currentDir| then
      var p := s.currentDir[idx];
      if IsDir(fs, p) then Some((WithNextDir(s1, fs, p).(currentPath := Some(p)), None))
      else Some((s1.(content := "", currentPath := Some(p)), Some(LoadPreview(p))))
    else if down then Some((s1, None))
    else None
  }

  /**
   * With a selection before the last row, Down moves to the next row and
   * keeps the selection inside the listing, with the current path on it.
   */
  lemma ListDownStaysInRange(s: Nav, fs: FileSystem)
    requires s.currentState.Some? && s.currentState.value + 1 < |s.currentDir| <= UsizeMax
    ensures var r := MovedTo(s, fs, SelectNext(s.currentState), true).value.0;
            SelectionInRange(r) && r.currentState == Some(s.currentState.value + 1) &&
            r.currentPath == Some(s.currentDir[s.currentState.value + 1])
  {
  }

  /**
   * Down at the last row does not stop there: the selection moves one past
   * the end of the listing, and the current path stays where it was.
   */
  lemma ListDownLeavesListing(s: Nav, fs: FileSystem)
    requires s.currentState.Some? && s.currentState.value + 1 == |s.currentDir| <= UsizeMax
    ensures var r := MovedTo(s, fs, SelectNext(s.currentState), true).value.0;
            !SelectionInRange(r) && r.currentState == Some(|s.currentDir|) &&
            r.currentPath == s.currentPath
  {
  }

  /**
   * With a selection inside the listing, the last row included, Up moves to
   * the previous row (staying at the first) and keeps the selection inside
   * the listing, with the current path on it.
   */
  lemma ListUpStaysInRange(s: Nav, fs: FileSystem)
    requires s.currentState.Some? && s.currentState.value < |s.currentDir|
    ensures var r := MovedTo(s, fs, SelectPrevious(s.currentState), false).value.0;
            SelectionInRange(r) && r.currentState == Some(Dec(s.currentState.value)) &&
            r.currentPath == Some(s.currentDir[Dec(s.currentState.value)])
  {
  }

  /** Down or Up in the list view. */
  method ListMove(files: FileStruct, fs: FileSystem, down: bool) returns (ok: bool, job: Option<Job>)
    modifies files
    ensures var idx := if down then SelectNext(old(files.currentState)) else SelectPrevious(old(files.currentState));
            var m := MovedTo(old(files.State()), fs, idx, down);
            (ok <==> m.Some?) && (ok ==> files.State() == m.value.0 && job == m.value.1)
  {
    var idx: nat;
    if down {
      files.error := None;
      idx := SelectNext(files.currentState);
      files.currentState := Some(idx);
    } else {
      idx := SelectPrevious(files.currentState);
      files.currentState := Some(idx);
      files.error := None;
    }
    job := None;
    if idx < |files.currentDir| && IsDir(fs, files.currentDir[idx]) {
      files.NextDirFn(fs, files.currentDir[idx]);
    } else if idx < |files.currentDir| {
      files.content := "";
      job := Some(LoadPreview(files.currentDir[idx]));
    } else if down {
      return true, None;
    }
    if idx >= |files.currentDir| {
      return false, None;
    }
    files.currentPath := Some(files.currentDir[idx]);
    ok := true;
  }

  /**
   * Tab: from the content view back to the list view with both scroll
   * offsets reset; from the list view into the content view only when the
   * selected entry is a file.
   */
  method TabKey(app: FileScout, fs: FileSystem) returns (ok: bool)
    requires app.mode == ListView || app.mode == ContentView
    modifies app`mode, app`textScrollX, app`textScrollY
    ensures old(app.mode) == ContentView ==>
              ok && app.mode == ListView && app.textScrollX == 0 && app.textScrollY == 0
    ensures old(app.mode) == ListView ==>
              app.textScrollX == old(app.textScrollX) && app.textScrollY == old(app.textScrollY) &&
              (ok <==> SelectionInRange(app.files.State())) &&
              (ok ==> (app.mode == ContentView <==>
                        app.files.currentState.Some? &&
                        IsFile(fs, app.files.currentDir[app.files.currentState.value]))) &&
              (app.mode == ListView || app.mode == ContentView)
  {
    ok := true;
    if app.mode == ContentView {
      app.mode := ListView;
      app.textScrollX := 0;
      app.textScrollY := 0;
    } else {
      match app.files.currentState {
        case None =>
        case Some(i) =>
          if i >= |app.files.currentDir| {
            return false;
          }
          if IsFile(fs, app.files.currentDir[i]) {
            app.mode := ContentView;
          }
      }
    }
  }

  /** 'r': the prompt starts with the selected entry's name; nothing without a selection. */
  method StartRename(app: FileScout) returns (ok: bool)
    modifies app`input, app`mode
    ensures app.files.currentPath.None? ==> ok && app.input == old(app.input) && app.mode == old(app.mode)
    ensures app.files.currentPath.Some? ==> (ok <==> FileName(app.files.currentPath.value).Some?)
    ensures app.files.currentPath.Some? && ok ==>
              app.input == old(app.input).(content := FileName(app.files.currentPath.value).value) &&
              app.mode == Rename
  {
    ok := true;
    match app.files.currentPath {
      case None =>
      case Some(p) =>
        match FileName(p) {
          case None =>
            return false;
          case Some(name) =>
            app.input := app.input.(content := name);
            app.mode := Rename;
        }
    }
  }

  /**
   * 'o': opens the selected file in the editor, with its line count and the
   * length of its first line; a read error is recorded instead.
   */
  method OpenEditor(app: FileScout, fs: FileSystem)
    modifies app`input, app`mode, app.files`error
    ensures old(app.files.FileRead(fs)).Ok? ==>
              var t := old(app.files.FileRead(fs)).value;
              app.input == Input(t, |Lines(t)|, LineLen(t, 0)) && app.mode == FileEdit &&
              app.files.error == old(app.files.error)
    ensures old(app.files.FileRead(fs)).Err? ==>
              app.files.error == Some(old(app.files.FileRead(fs)).error) &&
              app.input == old(app.input) && app.mode == old(app.mode)
  {
    var r := app.files.FileRead(fs);
    match r {
      case Ok(t) =>
        app.input := Input(t, |Lines(t)|, LineLen(t, 0));
        app.mode := FileEdit;
      case Err(e) =>
        app.files.error := Some(e);
    }
  }

  /**
   * 'e': a selected file is encrypted by a background job into
   * `pwd/<name>.enc`; a directory is refused with an error.
   */
  method StartEncrypt(files: FileStruct, fs: FileSystem) returns (ok: bool, job: Option<Job>)
    modifies files`error
    ensures files.currentState.None? ==> ok && job.None? && files.error == old(files.error)
    ensures files.currentState.Some? ==> (ok <==> files.currentState.value < |files.currentDir|)
    ensures files.currentState.Some? && ok ==>
              var p := files.currentDir[files.currentState.value];
              (IsFile(fs, p) ==>
                files.error == old(files.error) &&
                job == if FileName(p).Some? then Some(EncryptJob(p, Push(files.pwd, EncryptedName(FileName(p).value))))
                       else None) &&
              (!IsFile(fs, p) ==> job.None? && files.error == Some(IsADirectory("can't encrypt directory")))
  {
    ok, job := true, None;
    match files.currentState {
      case None =>
      case Some(i) =>
        if i >= |files.currentDir| {
          return false, None;
        }
        var path := files.currentDir[i];
        if IsFile(fs, path) {
          match FileName(path) {
            case None =>
            case Some(name) =>
              job := Some(EncryptJob(path, Push(files.pwd, EncryptedName(name))));
          }
        } else {
          files.error := Some(IsADirectory("can't encrypt directory"));
        }
    }
  }

  /**
   * 'd': a selected file is decrypted by a background job into `pwd/<name>`
   * with the ".enc" suffix stripped; a name without the suffix panics; a
   * directory is refused with an error.
   */
  method StartDecrypt(files: FileStruct, fs: FileSystem) returns (ok: bool, job: Option<Job>)
    modifies files`error
    ensures files.currentState.None? ==> ok && job.None? && files.error == old(files.error)
    ensures files.currentState.Some? && files.currentState.value >= |files.currentDir| ==> !ok
    ensures files.currentState.Some? && files.currentState.value < |files.currentDir| ==>
              var p := files.currentDir[files.currentState.value];
              (IsFile(fs, p) ==>
                files.error == old(files.error) &&
                (FileName(p).None? ==> ok && job.None?) &&
                (FileName(p).Some? ==>
                  (ok <==> DecryptedName(FileName(p).value).Some?) &&
                  (ok ==> job == Some(DecryptJob(p, Push(files.pwd, DecryptedName(FileName(p).value).value)))))) &&
              (!IsFile(fs, p) ==> ok && job.None? && files.error == Some(IsADirectory("Not allowed!")))
  {
    ok, job := true, None;
    match files.currentState {
      case None =>
      case Some(i) =>
        if i >= |files.currentDir| {
          return false, None;
        }
        var path := files.currentDir[i];
        if IsFile(fs, path) {
          match FileName(path) {
            case None =>
            case Some(name) =>
              match DecryptedName(name) {
                case None =>
                  return false, None;
                case Some(plain) =>
                  job := Some(DecryptJob(path, Push(files.pwd, plain)));
              }
          }
        } else {
          files.error := Some(IsADirectory("Not allowed!"));
        }
    }
  }

  /**
   * Delete: removes the selected entry (a directory with everything in it)
   * and presents the working directory again with the row above selected,
   * or the first row when the first was deleted. Nothing without a selection.
   * The corrected entry selects nothing when that row is gone (the code as
   * written panics, for instance after deleting a directory's only entry).
   */
  method DeleteKey(files: FileStruct, fs: FileSystem, effect: Effect)
    returns (ok: bool, request: Option<Request>)
    modifies files
    ensures old(files.currentState).None? ==> ok && request.None? && files.State() == old(files.State())
    ensures old(files.currentState).Some? && old(files.currentState).value >= |old(files.currentDir)| ==> !ok
    ensures old(files.currentState).Some? && old(files.currentState).value < |old(files.currentDir)| ==>
              var i := old(files.currentState).value;
              var p := old(files.currentDir)[i];
              var mid := Failed(old(files.State()), effect.failure);
              request == Some(RemoveEntry(p, IsDir(fs, p))) &&
              (ok <==> mid.pwd in effect.after.canon) &&
              (ok ==> files.State() == PresentedOrEmpty(mid, effect.after, effect.after.canon[mid.pwd], Dec(i)))
  {
    ok, request := true, None;
    match files.currentState {
      case None =>
      case Some(i) =>
        if i >= |files.currentDir| {
          return false, None;
        }
        var path := files.currentDir[i];
        var recursive := files.Delete(fs, path, effect.failure);
        request := Some(RemoveEntry(path, recursive));
        var pwd := files.pwd;
        var index := if i == 0 then 0 else i - 1;
        ok := files.PresentDir(effect.after, pwd, Some(index));
    }
  }

  /**
   * Right in the list view: enters the selected directory, selecting its
   * first row, or nothing in an empty directory (corrected entry; the code
   * as written panics there).
   */
  method EnterSelected(files: FileStruct, fs: FileSystem) returns (ok: bool)
    modifies files
    ensures var s := old(files.State());
            s.currentState.Some? && s.currentState.value < |s.currentDir| &&
            IsDir(fs, s.currentDir[s.currentState.value]) ==>
              var p := s.currentDir[s.currentState.value];
              (ok <==> p in fs.canon) && (ok ==> files.State() == PresentedOrEmpty(s, fs, fs.canon[p], 0))
    ensures var s := old(files.State());
            !(s.currentState.Some? && s.currentState.value < |s.currentDir| &&
              IsDir(fs, s.currentDir[s.currentState.value])) ==>
              ok && files.State() == s
  {
    ok := true;
    match files.currentState {
      case None =>
      case Some(i) =>
        if i < |files.currentDir| && IsDir(fs, files.currentDir[i]) {
          var path := files.currentDir[i];
          ok := files.PresentDir(fs, path, None);
        }
    }
  }

  /**
   * Left in the list view: presents the parent directory with the parent
   * pane's selected row (the row of the directory just left) selected, or
   * nothing when that row is gone (corrected entry; the code as written
   * panics there).
   */
  method LeaveDir(files: FileStruct, fs: FileSystem) returns (ok: bool)
    modifies files
    ensures var s := old(files.State());
            s.parentState.Some? ==>
              (ok <==> s.parent in fs.canon) &&
              (ok ==> files.State() == PresentedOrEmpty(s, fs, fs.canon[s.parent], s.parentState.value))
    ensures old(files.parentState).None? ==> ok && files.State() == old(files.State())
  {
    ok := true;
    match files.parentState {
      case None =>
      case Some(i) =>
        var path := files.parent;
        ok := files.PresentDir(fs, path, Some(i));
    }
  }

  /**
   * The browser's keys. The detailed effect of each key is stated by the
   * method it calls; here: the keys that change the `FileScout` fields.
   */
  method HandleBrowse(app: FileScout, key: Key, fs: FileSystem, effect: Effect)
    returns (ok: bool, request: Option<Request>, job: Option<Job>)
    requires app.mode == ListView || app.mode == ContentView
    requires app.Valid()
    modifies app, app.files
    ensures ok ==> app.Valid()
    ensures job.Some? ==> app.mode == old(app.mode) && app.input == old(app.input)
    ensures key == Char('q') || key == Char('Q') ==> ok && app.exit
    ensures !(key == Char('q') || key == Char('Q')) ==> app.exit == old(app.exit)
    ensures key == Char('n') || key == Char('N') ==> ok && app.mode == Create && app.input == old(app.input)
    ensures key == Char('c') || key == Char('C') ==> ok && app.colorIndex == NextColor(old(app.colorIndex))
    ensures old(app.mode) == ContentView && key.Down? ==>
              ok && app.textScrollY == ScrollDown(old(app.textScrollY), app.files.lineCount)
    ensures old(app.mode) == ContentView && key.Up? ==> ok && app.textScrollY == Dec(old(app.textScrollY))
    ensures old(app.mode) == ContentView && key.Right? ==> ok && app.textScrollX == old(app.textScrollX) + 1
    ensures old(app.mode) == ContentView && key.Left? ==> ok && app.textScrollX == Dec(old(app.textScrollX))
  {
    ok, request, job := true, None, None;
    match key {
      case Char(c) =>
        if c == 'q' || c == 'Q' {
          app.exit := true;
        } else if c == 'r' || c == 'R' {
          ok := StartRename(app);
        } else if c == 'n' || c == 'N' {
          app.mode := Create;
        } else if c == 'o' || c == 'O' {
          OpenEditor(app, fs);
        } else if c == 'e' || c == 'E' {
          ok, job := StartEncrypt(app.files, fs);
        } else if c == 'd' || c == 'D' {
          ok, job := StartDecrypt(app.files, fs);
        } else if c == 'c' || c == 'C' {
          app.colorIndex := NextColor(app.colorIndex);
        }
      case Delete =>
        ok, request := DeleteKey(app.files, fs, effect);
      case Tab =>
        ok := TabKey(app, fs);
      case Down =>
        if app.mode == ListView {
          ok, job := ListMove(app.files, fs, true);
        } else {
          app.textScrollY := ScrollDown(app.textScrollY, app.files.lineCount);
        }
      case Up =>
        if app.mode == ListView {
          ok, job := ListMove(app.files, fs, false);
        } else {
          app.textScrollY := Dec(app.textScrollY);
        }
      case Right =>
        if app.mode == ListView {
          ok := EnterSelected(app.files, fs);
        } else {
          app.textScrollX := app.textScrollX + 1;
        }
      case Left =>
        if app.mode == ListView {
          ok := LeaveDir(app.files, fs);
        } else {
          app.textScrollX := Dec(app.textScrollX);
        }
      case _ =>
    }
  }

  /**
   * `handle_events`: dispatches on the mode. Every handler keeps the
   * application record valid, and only the browser's 'q' ends the program:
   * in the prompt and the editor 'q' is text.
   */
  method HandleEvents(app: FileScout, key: Key, ctrl: bool, fs: FileSystem, effect: Effect)
    returns (ok: bool, request: Option<Request>, job: Option<Job>)
    requires app.Valid()
    modifies app, app.files
    ensures ok ==> app.Valid()
    ensures old(app.mode) in {Create, Rename, FileEdit} ==> app.exit == old(app.exit) && job.None?
    ensures app.exit != old(app.exit) ==>
              old(app.mode) in {ListView, ContentView} && (key == Char('q') || key == Char('Q'))
  {
    match app.mode {
      case FileEdit =>
        ok, request := HandleFileEdit(app, key, ctrl, effect);
        job := None;
      case Create =>
        ok, request := HandleFileName(app, key, fs, effect);
        job := None;
      case Rename =>
        ok, request := HandleFileName(app, key, fs, effect);
        job := None;
      case ListView =>
        ok, request, job := HandleBrowse(app, key, fs, effect);
      case ContentView =>
        ok, request, job := HandleBrowse(app, key, fs, effect);
    }
  }

  // ---------------------------------------------------------------------
  // Completion of background jobs
  // ---------------------------------------------------------------------

  const RefreshFailed: IoError := IoError.Other("Failed to refresh")
  const PreviewFailed: IoError := IoError.Other("something went wrong")

  /** The message an encryption or decryption job sends when it finishes. */
  function JobMessage(job: Job, succeeded: bool): (m: string)
    requires !job.LoadPreview?
    ensures job.EncryptJob? && succeeded ==> m == "File Encryption completed"
    ensures job.EncryptJob? && !succeeded ==> m == "Failed to Encrypt file"
    ensures job.DecryptJob? && succeeded ==> m == "File Decryption completed"
    ensures job.DecryptJob? && !succeeded ==> m == "Failed to Decrypt file"
  {
    match job
    case EncryptJob(_, _) => if succeeded then "File Encryption completed" else "Failed to Encrypt file"
    case DecryptJob(_, _) => if succeeded then "File Decryption completed" else "Failed to Decrypt file"
  }

  /**
   * The end of an encryption or decryption job, given the transform's
   * outcome and whether the message could be sent: on success the working
   * directory is presented again at the selected row; on failure the error
   * is recorded; a message that cannot be sent replaces the error.
   */
  method CompleteCrypto(files: FileStruct, fs: FileSystem, job: Job, failure: Option<IoError>, sent: bool)
    returns (ok: bool, message: string)
    requires !job.LoadPreview?
    modifies files
    ensures message == JobMessage(job, failure.None?)
    ensures failure.None? ==>
              var r := Refreshed(old(files.State()), fs);
              (ok <==> r.Some?) &&
              (ok ==> files.State() == if sent then r.value else r.value.(error := Some(RefreshFailed)))
    ensures failure.Some? ==>
              ok && files.State() == old(files.State()).(error := Some(if sent then failure.value else RefreshFailed))
  {
    ok := true;
    message := JobMessage(job, failure.None?);
    match failure {
      case None =>
        ok := Refresh(files, fs);
        if !ok {
          return;
        }
      case Some(e) =>
        files.error := Some(e);
    }
    if !sent {
      files.error := Some(RefreshFailed);
    }
  }

  /**
   * The end of a preview job: the file is read into the preview; a
   * notification that cannot be sent replaces the error.
   */
  method CompleteLoad(files: FileStruct, fs: FileSystem, path: Path, sent: bool)
    modifies files
    ensures sent ==> files.State() == WithFile(old(files.State()), fs, path)
    ensures !sent ==> files.State() == WithFile(old(files.State()), fs, path).(error := Some(PreviewFailed))
  {
    files.ReadFile(fs, path);
    if !sent {
      files.error := Some(PreviewFailed);
    }
  }
}
