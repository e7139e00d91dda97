# FileScout core in Dafny

FileScout is a terminal file browser with three panes: the parent directory,
the working directory and a preview of the selected entry. It can also show
a text file, edit it, create, rename and delete entries, and encrypt or
decrypt files in the background. This project models the state machine at its
core and proves what it promises:

- **Directory listing** (`Lister`): one directory level, failed entries
  skipped, directories first, each group in enumeration order.
- **Permission badge** (`Permissions`): the nine `rwx` characters of a mode
  and the type letter in front of them.
- **Navigation state** (`Explorer.FileStruct`): a class whose methods assign
  its fields: enter a directory (`present_dir_fn`), preview an entry
  (`next_dir_fn`, `read_file`), record a badge (`file_permission`), and the
  guarded `rename`, `create_file`, `file_write`, `file_read` and `delete`.
  `State()` reads all fields into one `Nav` value. Each method is specified
  by a function on `Nav` (`Presented`, `WithNextDir`, `WithFile`, ...).
- **Text editing** (`TextLines`, `EditBuffer`): the buffer is one string. It
  is cut with Rust's `str::lines`, one row is changed, and the rows are
  joined with `"\n"`. The cursor moves with its wrap and clamp rules.
- **Application record and key handlers** (`Ui.FileScout`, `KeyEvents`,
  `EventLoop`): the view modes, the name prompt, the editor keys, the
  browser keys, the colour cycle, the `.enc` name derivation, and what a
  finished background job does to the navigation state.

The filesystem is a value (`FsModel.FileSystem`): metadata, directory
entries in enumeration order (a failed entry is `None`), file texts and
canonical paths. A handler reads the filesystem it is given. Each change it
asks for is returned as a `Request`. The filesystem's answer (`failure`) and
the filesystem after the change are inputs (`Effect`). Work the source runs
on another thread is returned as a `Job`. The result of that work is an
input of `CompleteCrypto` / `CompleteLoad`. Where the source panics
(`unwrap`, out-of-range indexing, `String::insert`/`remove` out of range),
the model returns `ok == false` or `None` instead of adding a precondition.

The model follows the code, including where it departs from what the
program is evidently meant to do:

- **Entering an empty directory.** `present_dir_fn` indexes the listing
  before its emptiness check and panics (see Findings). The as-written
  entry is `Explorer.FileStruct.PresentDirFn`; the corrected entry,
  `Explorer.FileStruct.PresentDir`, leaves the selection empty, and the key
  handlers use it. The members that inherit this are listed one by one
  under "Left out".
- **Backspace at column 0.** The code removes the row's first character
  instead of merging with the previous line, and panics on an empty row.
- **Right at the end of the last row.** The code moves to column 0 of a row
  that does not exist.
- **Enter at the end of the last row.** The buffer gains a trailing '\n',
  which `lines` drops, so no row is added and the cursor moves to a row
  that does not exist.
- **Arrow keys on an empty listing.** Up indexes `usize::MAX` and panics.
- **Down past the end of the listing.** The code leaves the selected row
  past the end.
- **Content view.** The code bounds only the vertical scroll offset.

## Model

| member | source | states |
|---|---|---|
| TextLines.Lines | src/key_events.rs:358-362 | `str::lines`: no rows exactly for the empty string |
| TextLines.LinesOfJoin | src/key_events.rs:362-365 | cutting rows joined with "\n" gives back the rows, when no row holds a line break and the last is not empty |
| TextLines.JoinOfLines | src/key_events.rs:362-365 | joining the rows of a buffer without '\r' and without a trailing '\n' gives back the buffer, and those rows are plain |
| TextLines.LinesHaveNoNewline | src/key_events.rs:358-362 | no row of `str::lines` holds a '\n' |
| TextLines.JoinIsNormal | src/key_events.rs:365 | joined plain rows have no '\r' and no trailing '\n' |
| TextLines.JoinNonEmpty | src/key_events.rs:365 | joining a non-empty row vector whose last row is non-empty gives a non-empty buffer |
| TextLines.LinesIgnoreFinalNewline | src/key_events.rs:358-362 | `str::lines` of a normal buffer with one '\n' appended gives the same rows: the final empty piece is dropped |
| EditBuffer.InsertAt | src/key_events.rs:364 | `String::insert`: the row gets the character at the column, the rest shifts right |
| EditBuffer.RemoveAt | src/key_events.rs:378 | `String::remove`: the character at the index goes, the rest shifts left |
| EditBuffer.LineLen | src/key_events.rs:322 | the cached row length: the length of row `y` when it exists, 0 past the last row |
| EditBuffer.Inserted | src/key_events.rs:357-370 | `edit_content`: the empty buffer becomes the character, past the last row it is appended, and it panics exactly when the column is past the end of an existing row |
| EditBuffer.Removed | src/key_events.rs:372-386 | `remove_at`: the empty buffer is kept, past the last row the last character is popped and the row moves up, and it panics exactly at column 0 of an empty existing row |
| EditBuffer.InsertedChangesOneRow | src/key_events.rs:362-365 | typing a plain character inside a row of a normal buffer changes that row alone, by the insertion, and keeps the buffer normal |
| EditBuffer.RemovedChangesOneRow | src/key_events.rs:375-379 | Backspace inside a row of a normal buffer changes that row alone, by removing the character before the cursor |
| EditBuffer.TypeChar | src/key_events.rs:300-303 | the Char arm: succeeds exactly when `edit_content` does, and moves the column one right |
| EditBuffer.BreakRow | src/key_events.rs:304-309 | the Enter arm: succeeds exactly when `edit_content('\n')` does, and moves to column 0 of the next row without refreshing the cached length |
| EditBuffer.BreakRowSplitsRow | src/key_events.rs:304-309 | Enter inside a row of a normal buffer, except at the end of the last row, cuts that row in two at the column, keeps every other row and the buffer normal, and the cursor lands on the second half |
| EditBuffer.BreakRowAtBufferEnd | src/key_events.rs:304-309 | Enter at the end of the last row only appends a '\n': the rows stay the same and the cursor's row does not exist |
| EditBuffer.Backspace | src/key_events.rs:310-313 | the Backspace arm: succeeds exactly when `remove_at` does, and moves the column one left, saturating at 0 |
| EditBuffer.TypeThenBackspace | src/key_events.rs:300-313 | typing a plain character and then Backspace, inside a row of a normal buffer, gives back the buffer and the cursor |
| EditBuffer.Clamp | src/key_events.rs:323-325 | the column is cut down to the row length |
| EditBuffer.MoveDown | src/key_events.rs:318-327 | moves down only while the next row exists, caching its length and clamping the column; otherwise nothing changes |
| EditBuffer.MoveUp | src/key_events.rs:328-334 | moves up, saturating at row 0, caching the row length and clamping the column |
| EditBuffer.MoveLeft | src/key_events.rs:335-343 | at column 0 below the first row, wraps to the end of the row above; otherwise one left, saturating at 0 |
| EditBuffer.MoveRight | src/key_events.rs:344-352 | at the cached row end, wraps to column 0 of the next row, with no bound on the row; otherwise one right |
| EditBuffer.MovesKeepConsistent | src/key_events.rs:318-352 | every arrow key keeps the cached row length and the column consistent with the buffer |
| EditBuffer.VerticalMovesClampColumn | src/key_events.rs:318-334 | after Up the column is inside the cached row; after Down it is inside the new row, which exists |
| EditBuffer.TypingLeavesCacheStale | src/key_events.rs:300-352 | typing never updates the cached row length, so at a row end the column passes it and Right no longer wraps |
| Lister.GetDirsAndFiles | src/explorer.rs:35-51 | the loop builds the listing: the readable entries, directories first, each group in order; empty for an unreadable directory |
| Lister.KeepIsFilter | src/explorer.rs:40-47 | each group holds exactly the entries of its kind, in enumeration order |
| Lister.KeepSplits | src/explorer.rs:40-48 | the two groups together hold every readable entry exactly once |
| Lister.ListingDirsFirst | src/explorer.rs:48 | no directory comes after a non-directory in a listing |
| Lister.ListingIsPermutation | src/explorer.rs:35-51 | a listing holds every readable entry exactly once |
| Lister.FailedEntrySkipped | src/explorer.rs:40 | an entry that fails to read contributes nothing |
| Permissions.FormatPermissions | src/explorer.rs:61-79 | nine characters; position k is "rwx"[k % 3] when bit 8-k of the mode is set, '-' otherwise |
| Permissions.PermissionString | src/explorer.rs:61-79 | the nine-character reference string of a mode |
| Permissions.PermissionExtremes | src/explorer.rs:64-66 | 0o777 gives "rwxrwxrwx" and 0 gives "---------" |
| Permissions.HigherBitsIgnored | src/explorer.rs:64-66 | only the low nine bits of the mode matter |
| Permissions.TypeChar | src/explorer.rs:138-144 | 'd' for a directory, else 'l' for a symlink, else '-' |
| Permissions.Badge | src/explorer.rs:145-148 | ten characters: the type letter, then the nine permission characters |
| Explorer.ParentListing | src/explorer.rs:53-59 | empty at the root, else the listing of the parent |
| Explorer.WithPermission | src/explorer.rs:132-156 | readable metadata replaces the badge with a ten-character one; otherwise the error is set and the badge kept |
| Explorer.WithNextDir | src/explorer.rs:112-118 | the preview directory and its listing, and the badge or its error |
| Explorer.WithFile | src/explorer.rs:120-129 | the preview text (empty with an error when unreadable) and its number of lines |
| Explorer.Preview | src/explorer.rs:97-105 | a directory gets a listing preview, a file a text preview, anything else only a badge and an empty preview listing |
| Explorer.Presented | src/explorer.rs:84-110 | entering a directory at an existing row: fresh listings of it and of its parent, the row and its path selected, `parent` moved only when there is one, the error cleared unless the preview failed, and the preview of the selected entry |
| Explorer.PresentedOrEmpty | src/explorer.rs:84-110 | the same, with a missing row leaving nothing selected |
| Explorer.Position | src/ui.rs:160-163 | the first row holding the path, or None exactly when no row holds it |
| Explorer.Failed | src/explorer.rs:162 | a failure is recorded as the error; success changes nothing |
| Explorer.RenameTarget | src/explorer.rs:172-175 | the selected entry, renamed within its own directory; nothing without a selection |
| Explorer.CreateOutcome | src/explorer.rs:181-185 | `File::create_new` fails with AlreadyExists on an existing path, else with the filesystem's answer |
| Explorer.FileStruct.constructor | src/explorer.rs:10-25 | `FileStruct::default()`: every field empty |
| Explorer.FileStruct.FilePermission | src/explorer.rs:132-156 | the new state is `WithPermission` of the old |
| Explorer.FileStruct.NextDirFn | src/explorer.rs:112-118 | the new state is `WithNextDir` of the old |
| Explorer.FileStruct.ReadFile | src/explorer.rs:120-129 | the new state is `WithFile` of the old |
| Explorer.FileStruct.ParentDirFn | src/explorer.rs:53-59 | only `parentDir` changes, to the parent listing |
| Explorer.FileStruct.PreviewEntry | src/explorer.rs:96-106 | the new state is `Preview` of the old |
| Explorer.FileStruct.Enter | src/explorer.rs:86-90 | error cleared, `pwd` set, `parent` set only when `pwd` has one |
| Explorer.FileStruct.PresentDirFn | src/explorer.rs:84-110 | as written: panics exactly when canonicalization fails or the row does not exist, and otherwise reaches `Presented` |
| Explorer.FileStruct.PresentDir | src/explorer.rs:84-110 | corrected: panics only when canonicalization fails, and reaches `PresentedOrEmpty` |
| Explorer.FileStruct.Rename | src/explorer.rs:172-179 | asks for `RenameTarget`; only its failure is recorded; nothing happens without a selection |
| Explorer.FileStruct.CreateFile | src/explorer.rs:181-185 | returns `CreateOutcome` and changes no field |
| Explorer.FileStruct.FileWrite | src/explorer.rs:187-191 | writes the text to the selected path and records a failure; nothing happens without a selection |
| Explorer.FileStruct.FileRead | src/explorer.rs:193-199 | Unsupported without a selection; the text or the read error otherwise |
| Explorer.FileStruct.Delete | src/explorer.rs:158-170 | removes recursively exactly for directories; records a failure |
| Explorer.FileStruct.SelectParentRow | src/ui.rs:160-165 | only the parent selection changes, to the row holding `pwd` |
| Explorer.ParentRowTracksPwd | src/ui.rs:160-165 | after entering a directory that its parent lists, the parent row found holds `pwd` |
| Explorer.NoParentRowAtRoot | src/explorer.rs:53-59 | at the root no parent row is selected |
| Explorer.EnterSelectsFirst | src/explorer.rs:93-94 | entering without an index selects row 0, or nothing in an empty directory |
| Explorer.EmptyDirectoryPanics | src/explorer.rs:93-96 | an empty directory reaches the indexing with row 0 out of range |
| Explorer.CorrectedEntersEmptyDirectory | src/explorer.rs:84-110 | the corrected entry into an empty directory selects nothing and tracks the parent row |
| Ui.PreviewPane | src/ui.rs:122-130 | blank for an empty listing or no selection; file text exactly for a selected file; panics exactly for a row past the end |
| Ui.PresentedPreviewShowsSelection | src/ui.rs:122-130 | right after entering a directory, drawing the preview cannot panic, and it shows the selected file's text exactly when the selection is a file |
| Ui.NextColor | src/key_events.rs:154-156 | the next theme index stays below `COLORS.len()` and wraps to 0 after the last |
| Ui.ColorCycle | src/constant.rs:3 | nine presses of 'c' give back the theme |
| Ui.FileScout.constructor | src/ui.rs:47-57 | list view, empty input, scroll offsets 0, theme 0, not exiting |
| Ui.FileScout.Draw | src/ui.rs:95-132 | marks the parent row of `pwd` outside the editor; panics exactly on a bad theme index or a selected row past the end |
| KeyEvents.EncryptedName | src/key_events.rs:52-54 | appends ".enc" |
| KeyEvents.DecryptedName | src/key_events.rs:105-110 | strips ".enc", None exactly when the name lacks it |
| KeyEvents.DecryptedEncryptedName | src/key_events.rs:104-112 | decrypting the encrypted name gives back the name |
| KeyEvents.EncryptedDecryptedName | src/key_events.rs:52-56 | encrypting a decrypted name gives back the name |
| KeyEvents.SelectNext | src/key_events.rs:184 | row 0 without a selection, else the next row, saturating |
| KeyEvents.SelectPrevious | src/key_events.rs:219 | `usize::MAX` without a selection, else the previous row, saturating at 0 |
| KeyEvents.ScrollDown | src/key_events.rs:210-214 | one line further only while before the last line |
| KeyEvents.ScrollStaysInText | src/key_events.rs:210-245 | Down and Up keep the vertical offset at most the last line's index |
| KeyEvents.Pop | src/key_events.rs:391-393 | the last character goes, if there is one |
| KeyEvents.Refreshed | src/key_events.rs:289-291 | re-enters `pwd` at the selected row, nothing without a selection; fails exactly when `pwd` no longer canonicalizes; a row past the fresh listing is entered by the corrected `PresentedOrEmpty` (see Left out) |
| KeyEvents.RefreshKeepsPlace | src/key_events.rs:404-407 | a refresh stays in `pwd` and keeps the row while it exists; past the fresh listing the corrected entry selects nothing, where the code panics (see Left out) |
| KeyEvents.Refresh | src/key_events.rs:404-407 | reaches `Refreshed` |
| KeyEvents.ResetMode | src/key_events.rs:414-417 | clears the input and returns to the list view |
| KeyEvents.NameEntered | src/key_events.rs:394-402 | Create records its error; Rename records its failure only when it renamed |
| KeyEvents.NameRequest | src/key_events.rs:394-402 | Create asks for `pwd/name`; Rename asks for `RenameTarget` |
| KeyEvents.HandleFileName | src/key_events.rs:388-412 | every character is appended, 'q' included; Backspace pops; Esc clears and leaves with no request and no state change; Enter asks for the create or rename, clears, leaves and refreshes |
| KeyEvents.EditContent | src/key_events.rs:357-370 | the buffer becomes `Inserted`, and it panics exactly where that is None |
| KeyEvents.RemoveCharAt | src/key_events.rs:372-386 | the buffer and row become `Removed`, and it panics exactly where that is None |
| KeyEvents.SaveAndLeave | src/key_events.rs:285-294 | Control+S asks to write the buffer to the selected file (nothing without one), records a failure, leaves with the cursor at the origin and refreshes the listing |
| KeyEvents.EditKey | src/key_events.rs:300-317 | a character and Tab follow `TypeChar`, Enter follows `BreakRow`, Backspace follows `Backspace`; each panics exactly where its function is None |
| KeyEvents.CursorKey | src/key_events.rs:318-352 | the arrows move the cursor by `MoveDown`, `MoveUp`, `MoveLeft`, `MoveRight` and leave the buffer alone |
| KeyEvents.HandleFileEdit | src/key_events.rs:277-355 | Control+S and Control+C leave the editor with an empty buffer, Control+C without writing or touching the navigation state; every other key stays in the editor and leaves the navigation state alone |
| KeyEvents.MovedTo | src/key_events.rs:181-244 | Down/Up select the row, clear the error, preview a directory at once or load a file in the background, and follow with the current path; past the end Down stops and Up panics |
| KeyEvents.ListDownStaysInRange | src/key_events.rs:181-208 | Down before the last row selects the next row, inside the listing, with the current path on it |
| KeyEvents.ListDownLeavesListing | src/key_events.rs:181-208 | Down at the last row moves the selection one past the end of the listing and leaves the current path alone |
| KeyEvents.ListUpStaysInRange | src/key_events.rs:217-242 | Up from any row of the listing, the last included, selects the previous row (row 0 stays), inside the listing, with the current path on it |
| KeyEvents.ListMove | src/key_events.rs:181-244 | reaches `MovedTo` of the moved selection |
| KeyEvents.TabKey | src/key_events.rs:166-180 | content view to list view with both offsets reset; list view to content view exactly when the selected entry is a file |
| KeyEvents.StartRename | src/key_events.rs:30-35 | the prompt starts with the selected entry's name; nothing without a selection |
| KeyEvents.OpenEditor | src/key_events.rs:37-47 | the file's text, line count and first-row length in the editor, or the read error recorded |
| KeyEvents.StartEncrypt | src/key_events.rs:48-99 | a selected file is encrypted in the background into `pwd/<name>.enc`; a directory is refused with an error |
| KeyEvents.StartDecrypt | src/key_events.rs:100-153 | a selected file is decrypted in the background into `pwd/<name without .enc>`; panics on a name without ".enc"; a directory is refused |
| KeyEvents.DeleteKey | src/key_events.rs:157-165 | removes the selected entry and re-enters `pwd` at the row above, or at row 0; nothing without a selection |
| KeyEvents.EnterSelected | src/key_events.rs:248-258 | enters the selected directory at row 0; nothing otherwise |
| KeyEvents.LeaveDir | src/key_events.rs:262-268 | enters `parent` at the parent pane's selected row; nothing without one |
| KeyEvents.HandleBrowse | src/key_events.rs:28-273 | keeps the record valid; 'q' exits, 'n' opens an empty prompt, 'c' cycles the theme, content-view arrows scroll |
| KeyEvents.HandleEvents | src/key_events.rs:16-275 | keeps the record valid; the prompt and the editor never exit or spawn jobs; only the browser's 'q' sets the exit flag |
| KeyEvents.JobMessage | src/key_events.rs:66-136 | the message each job sends on success and failure |
| KeyEvents.CompleteCrypto | src/key_events.rs:58-90 | success refreshes `pwd` at the selected row, failure records the error, and an unsent message replaces the error |
| KeyEvents.CompleteLoad | src/key_events.rs:195-202 | the file is read into the preview; an unsent notification replaces the error |
| EventLoop.Run | src/ui.rs:59-84 | runs until exit, the last event or a panic; keeps the record valid; stops early only after a 'q' press |

## Left out

- Threads, the mutex and the channel. Work on another thread is a returned
  `Job`. Its completion is applied as one atomic step that `EventLoop.Run`
  takes as an event; the loop checks no interleavings.
- The encryption itself (AES-256-GCM over file contents). A job's outcome is
  an input `failure`.
- Drawing. Only what it reads and changes is modelled: the parent row, the
  preview choice and the theme index. The list widget library clamps an
  out-of-range selection while drawing; that clamp is not part of this model.
  So a selected row past the end of the listing stays there, and the
  handlers that index with it panic.
- Cursor placement in the editor (`handle_curson`) and its `u16` casts.
- `usize` overflow. `saturating_add(1)` on scroll offsets, columns and rows
  is modelled as `+ 1`; only `SelectNext` saturates explicitly.
- UTF-8. Columns are character positions; the source uses byte offsets, and
  the two agree on ASCII.
- Path syntax. A name joins onto a path as one component. Names holding '/',
  "..", or absolute names are not modelled. Neither are non-UTF-8 names
  (`to_str().unwrap()`) or `strip_prefix(...).unwrap()` in drawing.
- The filesystem's own behaviour. The filesystem after a change is an input,
  not computed from the request. `File::create_new` on an existing path is
  decided by the path having metadata.
- Symlinks. `fs::metadata` follows links, so the source's 'l' badge branch
  is unreachable there; the model keeps the branch as written.
- src/main.rs (the first `present_dir_fn(".")` call) and the key table in
  src/constant.rs are not part of this model.
- KeyEvents.Refreshed: a row past the end of the fresh listing is entered
  by the corrected `present_dir_fn` and leaves nothing selected. The code
  as written panics at src/explorer.rs:95 there (a listing that shrank
  under the selection, or an emptied directory).
- KeyEvents.RefreshKeepsPlace: its "selects nothing" half is the corrected
  entry; for the same rows the code as written panics.
- KeyEvents.Refresh: calls the corrected `PresentDir`, so it succeeds
  where `present_dir_fn(pwd, Some(i))` panics on a row past the fresh
  listing.
- KeyEvents.HandleFileName: the refresh after Enter is the corrected
  `Refresh`, so a listing that shrank under the selection succeeds with
  nothing selected, where the code panics.
- KeyEvents.SaveAndLeave: the refresh after Control+S is the corrected
  `Refresh`, with the same difference.
- KeyEvents.CompleteCrypto: the refresh after a finished job is the
  corrected `Refresh`, with the same difference.
- KeyEvents.DeleteKey: re-enters `pwd` by the corrected `PresentDir`.
  After deleting a directory's only entry, or when the row above is gone,
  the code panics; the model selects nothing.
- KeyEvents.EnterSelected: Right into an empty directory enters it with
  nothing selected; the code panics.
- KeyEvents.LeaveDir: when the parent listing no longer has the parent
  pane's selected row, the model selects nothing; the code panics.
- KeyEvents.HandleBrowse: its contract states only the keys that change the
  `FileScout` fields directly. Each other key's effect is stated by the
  method that handles it.
- KeyEvents.HandleFileEdit: its contract states the mode changes only. The
  effect of each key on the buffer and the cursor is stated by
  SaveAndLeave, EditKey and CursorKey.
- KeyEvents.HandleEvents: its contract states the validity invariant and the
  exit rule. The per-mode effects are stated by HandleFileEdit,
  HandleFileName and HandleBrowse.

## Findings

| source | as written | input that shows it | evidently intended | confidence | as-written member | corrected member |
|---|---|---|---|---|---|---|
| src/explorer.rs:93-96 | `present_dir_fn` reads `files[index]` at line 95 and only then checks `!files.is_empty()` at line 96 | entering an empty directory `/d` with no index (`Explorer.EmptyDirectoryPanics`); also Delete of the last entry of a directory, which re-enters it at row 0 | the emptiness check guards the indexing, so an empty listing leaves nothing selected (`Explorer.CorrectedEntersEmptyDirectory`, `Explorer.EnterSelectsFirst`) | high; not executed | Explorer.FileStruct.PresentDirFn | Explorer.FileStruct.PresentDir |
