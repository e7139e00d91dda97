/**
 * The text buffer of the FileEdit mode: one string, edited by cutting it into
 * lines, changing one line and joining the lines again with '\n', and the
 * cursor `(x, y)` = (column, row) with the cached length `totalLetter` of the
 * row the cursor last moved to vertically.
 *
 * Columns are character positions (the source uses byte offsets; the two
 * agree on ASCII text).
 */
module EditBuffer {
  import opened Common
  import opened TextLines

  /** The editor cursor: `text_scroll_x`, `text_scroll_y`, `input.total_letter`. */
  datatype Cursor = Cursor(x: nat, y: nat, totalLetter: nat)

  /** `line.insert(x, ch)`; defined only where `String::insert` does not panic. */
  function InsertAt(line: string, x: nat, ch: char): (r: string)
    requires x <= |line|
    ensures |r| == |line| + 1 && r[x] == ch
    ensures r[..x] == line[..x] && r[x + 1..] == line[x..]
  {
    line[..x] + [ch] + line[x..]
  }

  /** `line.remove(k)`; defined only where `String::remove` does not panic. */
  function RemoveAt(line: string, k: nat): (r: string)
    requires k < |line|
    ensures |r| + 1 == |line|
    ensures r[..k] == line[..k] && r[k..] == line[k + 1..]
  {
    line[..k] + line[k + 1..]
  }

  /** `lines.nth(y).unwrap_or_default().len()`: length of row `y`, 0 past the last row. */
  function LineLen(content: string, y: nat): (n: nat)
    ensures y < |Lines(content)| ==> n == |Lines(content)[y]|
    ensures y >= |Lines(content)| ==> n == 0
  {
    var ls := Lines(content);
    if y < |ls| then |ls[y]| else 0
  }

  /**
   * The buffer after `edit_content(ch)` with the cursor at `(x, y)`:
   * the empty buffer becomes `ch`; a row that exists gets `ch` at column `x`
   * and the rows are joined again; past the last row `ch` is appended.
   * None where `String::insert` panics: the column is past the end of the row.
   */
  function Inserted(content: string, x: nat, y: nat, ch: char): (r: Option<string>)
    ensures r.None? <==> y < |Lines(content)| && x > |Lines(content)[y]|
    ensures content == [] ==> r == Some([ch])
    ensures |Lines(content)| > 0 && y >= |Lines(content)| ==> r == Some(content + [ch])
  {
    var ls := Lines(content);
    if |ls| == 0 then assert [ch] + content == [ch]; Some([ch] + content)
    else if y < |ls| then
      if x <= |ls[y]| then Some(Join(ls[y := InsertAt(ls[y], x, ch)])) else None
    else Some(content + [ch])
  }

  /**
   * The buffer and row after `remove_at` with the cursor at `(x, y)`: on a
   * row that exists and is at least `x` long, the character at `x - 1` (at 0
   * when `x` is 0) goes and the rows are joined again; a row shorter than `x`
   * is left alone; past the last row the last character of the buffer goes
   * and the row moves up; the empty buffer is left alone.
   * None where `String::remove` panics: column 0 of an empty row.
   */
  function Removed(content: string, x: nat, y: nat): (r: Option<(string, nat)>)
    ensures r.None? <==> y < |Lines(content)| && x == 0 && |Lines(content)[y]| == 0
    ensures content == [] ==> r == Some((content, y))
    ensures |Lines(content)| > 0 && y >= |Lines(content)| ==>
              r == Some((content[..|content| - 1], Dec(y)))
  {
    var ls := Lines(content);
    if |ls| == 0 then Some((content, y))
    else if y < |ls| then
      if |ls[y]| >= x then
        var k := Dec(x);
        if k < |ls[y]| then Some((Join(ls[y := RemoveAt(ls[y], k)]), y)) else None
      else Some((content, y))
    else Some((content[..|content| - 1], Dec(y)))
  }

  /** A character the editor keeps inside a row. */
  predicate PlainChar(ch: char) {
    ch != '\n' && ch != '\r'
  }

  /**
   * On a buffer in joined-lines form, typing a plain character at a position
   * inside a row changes that row alone, by inserting the character at the
   * column, and leaves the buffer in joined-lines form.
   */
  lemma InsertedChangesOneRow(content: string, x: nat, y: nat, ch: char)
    requires Normal(content) && PlainChar(ch)
    requires y < |Lines(content)| && x <= |Lines(content)[y]|
    ensures Inserted(content, x, y, ch).Some?
    ensures var ls := Lines(content);
            Lines(Inserted(content, x, y, ch).value) == ls[y := InsertAt(ls[y], x, ch)]
    ensures Normal(Inserted(content, x, y, ch).value)
  {
    var ls := Lines(content);
    JoinOfLines(content);
    var row := InsertAt(ls[y], x, ch);
    var ls' := ls[y := row];
    assert PlainLine(row) by {
      forall k | 0 <= k < |row| ensures row[k] != '\n' && row[k] != '\r' {
        if k < x {
          assert row[k] == ls[y][k];
        } else if k > x {
          assert row[k] == row[x + 1..][k - x - 1] == ls[y][k - 1];
        }
      }
    }
    assert PlainLines(ls');
    LinesOfJoin(ls');
    JoinIsNormal(ls');
  }

  /**
   * On a buffer in joined-lines form, removing inside a row changes that row
   * alone and keeps the buffer in joined-lines form, unless it empties the
   * last row, which then disappears from the line vector.
   */
  lemma RemovedChangesOneRow(content: string, x: nat, y: nat)
    requires Normal(content)
    requires y < |Lines(content)| && 0 < x <= |Lines(content)[y]|
    requires y + 1 < |Lines(content)| || |Lines(content)[y]| > 1
    ensures Removed(content, x, y).Some?
    ensures var ls := Lines(content);
            Removed(content, x, y).value == (Join(ls[y := RemoveAt(ls[y], x - 1)]), y) &&
            Lines(Removed(content, x, y).value.0) == ls[y := RemoveAt(ls[y], x - 1)]
  {
    var ls := Lines(content);
    JoinOfLines(content);
    var row := RemoveAt(ls[y], x - 1);
    var ls' := ls[y := row];
    assert PlainLine(row) by {
      forall k | 0 <= k < |row| ensures row[k] != '\n' && row[k] != '\r' {
        if k < x - 1 {
          assert row[k] == ls[y][k];
        } else {
          assert row[k] == row[x - 1..][k - x + 1] == ls[y][k + 1];
        }
      }
    }
    assert PlainLines(ls');
    LinesOfJoin(ls');
  }

  /**
   * The `Enter` arm of the editor: `edit_content('\n')`, then the cursor goes
   * to column 0 of the next row; the cached row length is not refreshed.
   */
  function BreakRow(content: string, c: Cursor): (r: Option<(string, Cursor)>)
    ensures r.Some? <==> Inserted(content, c.x, c.y, '\n').Some?
    ensures r.Some? ==> r.value.1 == Cursor(0, c.y + 1, c.totalLetter)
  {
    match Inserted(content, c.x, c.y, '\n')
    case None => None
    case Some(t) => Some((t, Cursor(0, c.y + 1, c.totalLetter)))
  }

  /**
   * On a buffer in joined-lines form, Enter inside a row, anywhere but at
   * the end of the last row, cuts that row in two at the column, and the
   * cursor lands on the start of the second half.
   */
  lemma BreakRowSplitsRow(content: string, c: Cursor)
    requires Normal(content)
    requires c.y < |Lines(content)| && c.x <= |Lines(content)[c.y]|
    requires !(c.y + 1 == |Lines(content)| && c.x == |Lines(content)[c.y]|)
    ensures BreakRow(content, c).Some?
    ensures var ls := Lines(content);
            var (t, c1) := BreakRow(content, c).value;
            Lines(t) == ls[..c.y] + [ls[c.y][..c.x], ls[c.y][c.x..]] + ls[c.y + 1..] &&
            Normal(t) && Lines(t)[c1.y] == ls[c.y][c.x..] && c1.x == 0
  {
    var ls := Lines(content);
    var y, x := c.y, c.x;
    JoinOfLines(content);
    var a, b := ls[y][..x], ls[y][x..];
    assert InsertAt(ls[y], x, '\n') == a + "\n" + b;
    JoinSplitRow(ls, y, a, b);
    SplitRowPlain(ls, y, x);
    var ls' := ls[..y] + [a, b] + ls[y + 1..];
    LinesOfJoin(ls');
    JoinIsNormal(ls');
  }

  /** Cutting a row of plain lines in two, anywhere but at the very end, keeps them plain. */
  lemma SplitRowPlain(ls: seq<string>, y: nat, x: nat)
    requires PlainLines(ls) && y < |ls| && x <= |ls[y]|
    requires !(y + 1 == |ls| && x == |ls[y]|)
    ensures PlainLines(ls[..y] + [ls[y][..x], ls[y][x..]] + ls[y + 1..])
  {
    var a, b := ls[y][..x], ls[y][x..];
    var ls' := ls[..y] + [a, b] + ls[y + 1..];
    assert PlainLine(a) && PlainLine(b) by {
      assert forall k :: 0 <= k < |a| ==> a[k] == ls[y][k];
      assert forall k :: 0 <= k < |b| ==> b[k] == ls[y][x + k];
    }
    forall j | 0 <= j < |ls'| ensures PlainLine(ls'[j]) {
      if j < y {
        assert ls'[j] == ls[j];
      } else if j > y + 1 {
        assert ls'[j] == ls[j - 1];
      }
    }
    if y + 1 < |ls| {
      assert ls'[|ls'| - 1] == ls[|ls| - 1];
    }
  }

  /**
   * Enter at the end of the last row adds no row: the buffer only gains a
   * trailing '\n', which `lines` drops, and the cursor moves to a row that
   * does not exist.
   */
  lemma BreakRowAtBufferEnd(content: string, c: Cursor)
    requires Normal(content)
    requires c.y + 1 == |Lines(content)| && c.x == |Lines(content)[c.y]|
    ensures BreakRow(content, c).Some?
    ensures var (t, c1) := BreakRow(content, c).value;
            t == content + "\n" && Lines(t) == Lines(content) && c1.y == |Lines(t)|
  {
    var ls := Lines(content);
    JoinOfLines(content);
    assert InsertAt(ls[c.y], c.x, '\n') == ls[c.y] + "\n";
    JoinAppendLast(ls, "\n");
    LinesIgnoreFinalNewline(content);
  }

  /** The `Char(ch)` arm of the editor: the buffer changes and the column moves right. */
  function TypeChar(content: string, c: Cursor, ch: char): (r: Option<(string, Cursor)>)
    ensures r.Some? <==> Inserted(content, c.x, c.y, ch).Some?
    ensures r.Some? ==> r.value.1 == c.(x := c.x + 1)
  {
    match Inserted(content, c.x, c.y, ch)
    case None => None
    case Some(t) => Some((t, c.(x := c.x + 1)))
  }

  /** The `Backspace` arm of the editor: `remove_at`, then the column moves left. */
  function Backspace(content: string, c: Cursor): (r: Option<(string, Cursor)>)
    ensures r.Some? <==> Removed(content, c.x, c.y).Some?
    ensures r.Some? ==> r.value.1.x == Dec(c.x) && r.value.1.totalLetter == c.totalLetter
  {
    match Removed(content, c.x, c.y)
    case None => None
    case Some((t, y)) => Some((t, c.(x := Dec(c.x), y := y)))
  }

  /**
   * Typing a plain character and then Backspace, at a cursor inside a row of
   * a buffer in joined-lines form, gives back the buffer and the cursor.
   */
  lemma TypeThenBackspace(content: string, c: Cursor, ch: char)
    requires Normal(content) && PlainChar(ch)
    requires c.y < |Lines(content)| && c.x <= |Lines(content)[c.y]|
    ensures TypeChar(content, c, ch).Some?
    ensures Backspace(TypeChar(content, c, ch).value.0, TypeChar(content, c, ch).value.1) ==
            Some((content, c))
  {
    var ls := Lines(content);
    InsertedChangesOneRow(content, c.x, c.y, ch);
    var t := Inserted(content, c.x, c.y, ch).value;
    var row := InsertAt(ls[c.y], c.x, ch);
    assert Lines(t) == ls[c.y := row];
    assert RemoveAt(row, c.x) == ls[c.y];
    assert Lines(t)[c.y := RemoveAt(row, c.x)] == ls;
    JoinOfLines(content);
  }

  /**
   * The cursor agrees with the buffer: the cached row length is that of row
   * `y` (0 past the last row) and the column is inside it.
   */
  predicate Consistent(content: string, c: Cursor) {
    c.totalLetter == LineLen(content, c.y) && c.x <= c.totalLetter
  }

  /** `min(x, n)`: the column clamped to a row of length `n`. */
  function Clamp(x: nat, n: nat): (r: nat)
    ensures r <= n && r <= x && (r == x || r == n)
  {
    if x > n then n else x
  }

  /**
   * Down: moves one row down only while that row exists, caching its length
   * and clamping the column to it; otherwise nothing changes.
   */
  function MoveDown(content: string, c: Cursor): (r: Cursor)
    ensures c.y + 1 < |Lines(content)| ==>
              r.y == c.y + 1 && r.totalLetter == |Lines(content)[r.y]| && r.x == Clamp(c.x, r.totalLetter)
    ensures c.y + 1 >= |Lines(content)| ==> r == c
  {
    if c.y < Dec(|Lines(content)|) then
      var y := c.y + 1;
      var n := LineLen(content, y);
      Cursor(Clamp(c.x, n), y, n)
    else c
  }

  /**
   * Up: moves one row up, staying at row 0, caches the new row's length and
   * clamps the column to it.
   */
  function MoveUp(content: string, c: Cursor): (r: Cursor)
    ensures r.y == Dec(c.y) && r.totalLetter == LineLen(content, r.y)
    ensures r.x == Clamp(c.x, r.totalLetter)
  {
    var y := Dec(c.y);
    var n := LineLen(content, y);
    Cursor(Clamp(c.x, n), y, n)
  }

  /**
   * Left: at column 0 of a row below the first, wraps to the end of the row
   * above; otherwise one column left, staying at column 0.
   */
  function MoveLeft(content: string, c: Cursor): (r: Cursor)
    ensures c.x == 0 && c.y != 0 ==>
              r.y + 1 == c.y && r.x == LineLen(content, r.y) && r.totalLetter == r.x
    ensures !(c.x == 0 && c.y != 0) ==> r == c.(x := Dec(c.x))
  {
    if c.x == 0 && c.y != 0 then
      var y := c.y - 1;
      var n := LineLen(content, y);
      Cursor(n, y, n)
    else c.(x := Dec(c.x))
  }

  /**
   * Right: at the cached end of the row, wraps to column 0 of the next row,
   * whether or not that row exists; otherwise one column right.
   */
  function MoveRight(content: string, c: Cursor): (r: Cursor)
    ensures c.x == c.totalLetter ==>
              r.x == 0 && r.y == c.y + 1 && r.totalLetter == LineLen(content, r.y)
    ensures c.x != c.totalLetter ==> r == c.(x := c.x + 1)
  {
    if c.x == c.totalLetter then
      var y := c.y + 1;
      Cursor(0, y, LineLen(content, y))
    else c.(x := c.x + 1)
  }

  /** Every arrow key keeps a consistent cursor consistent. */
  lemma MovesKeepConsistent(content: string, c: Cursor)
    requires Consistent(content, c)
    ensures Consistent(content, MoveDown(content, c))
    ensures Consistent(content, MoveUp(content, c))
    ensures Consistent(content, MoveLeft(content, c))
    ensures Consistent(content, MoveRight(content, c))
  {
  }

  /** Up, Down and Left leave the column inside the cached row length, whatever the cursor was. */
  lemma VerticalMovesClampColumn(content: string, c: Cursor)
    ensures MoveUp(content, c).x <= MoveUp(content, c).totalLetter
    ensures c.y + 1 < |Lines(content)| ==>
              MoveDown(content, c).x <= |Lines(content)[MoveDown(content, c).y]|
    ensures c.y < |Lines(content)| ==> MoveDown(content, c).y < |Lines(content)|
  {
  }

  /**
   * Typing does not refresh the cached row length, so after one character
   * at the end of a row the column is past the cache and Right no longer
   * wraps: it moves on past the end of the row.
   */
  lemma TypingLeavesCacheStale(content: string, c: Cursor, ch: char)
    requires Normal(content) && PlainChar(ch) && Consistent(content, c)
    requires c.y < |Lines(content)| && c.x == c.totalLetter
    ensures TypeChar(content, c, ch).Some?
    ensures var (t, c1) := TypeChar(content, c, ch).value;
            !Consistent(t, c1) && c1.x > c1.totalLetter &&
            MoveRight(t, c1) == c1.(x := c1.x + 1)
  {
  }
}
