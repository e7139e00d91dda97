/**
 * Rust's `str::lines` and `[String]::join("\n")`, the two library calls the
 * editor uses to cut its buffer into lines and glue it back together.
 *
 * `lines` splits at every '\n'; a piece that ended in "\r\n" loses the '\r'
 * as well; a final empty piece (text ending in '\n', or the empty text) is
 * not a line. So joining the lines again normalises the text.
 */
module TextLines {

  /** Index of the first '\n' in `s`, or `|s|` when there is none. */
  function NewlineAt(s: string): (i: nat)
    ensures i <= |s|
    ensures i < |s| ==> s[i] == '\n'
    ensures forall k :: 0 <= k < i ==> s[k] != '\n'
  {
    if s == [] then 0
    else if s[0] == '\n' then 0
    else 1 + NewlineAt(s[1..])
  }

  /** A piece that was terminated by '\n' drops one trailing '\r'. */
  function StripCr(s: string): string {
    if |s| > 0 && s[|s| - 1] == '\r' then s[..|s| - 1] else s
  }

  /** `s.lines()` collected into a vector. */
  function Lines(s: string): (ls: seq<string>)
    ensures |ls| == 0 <==> s == []
    decreases |s|
  {
    if s == [] then []
    else
      var i := NewlineAt(s);
      if i == |s| then [s]
      else [StripCr(s[..i])] + Lines(s[i + 1..])
  }

  /** `lines.join("\n")`. */
  function Join(ls: seq<string>): string
  {
    if |ls| == 0 then ""
    else if |ls| == 1 then ls[0]
    else ls[0] + "\n" + Join(ls[1..])
  }

  /** A line as the editor keeps it: no line break characters inside. */
  predicate PlainLine(l: string) {
    forall k :: 0 <= k < |l| ==> l[k] != '\n' && l[k] != '\r'
  }

  /**
   * A line vector that `lines` gives back unchanged after a join: plain
   * lines, and the last one not empty (an empty last line would vanish).
   */
  predicate PlainLines(ls: seq<string>) {
    (forall j :: 0 <= j < |ls| ==> PlainLine(ls[j])) &&
    (|ls| > 0 ==> |ls[|ls| - 1]| > 0)
  }

  /** Text in joined-lines form: no '\r' and no trailing '\n'. */
  predicate Normal(s: string) {
    (forall k :: 0 <= k < |s| ==> s[k] != '\r') &&
    (|s| > 0 ==> s[|s| - 1] != '\n')
  }

  /** No line contains a '\n'. */
  lemma {:induction false} LinesHaveNoNewline(s: string)
    ensures forall j, k :: 0 <= j < |Lines(s)| && 0 <= k < |Lines(s)[j]| ==> Lines(s)[j][k] != '\n'
    decreases |s|
  {
    if s != [] {
      var i := NewlineAt(s);
      if i < |s| {
        LinesHaveNoNewline(s[i + 1..]);
      }
    }
  }

  /** Splitting the join of plain lines gives the same lines back. */
  lemma {:induction false} LinesOfJoin(ls: seq<string>)
    requires PlainLines(ls)
    ensures Lines(Join(ls)) == ls
  {
    if |ls| == 1 {
      assert NewlineAt(ls[0]) == |ls[0]|;
    } else if |ls| > 1 {
      var head := ls[0];
      JoinHeadBreak(ls);
      LinesStep(Join(ls), |head|);
      assert StripCr(head) == head;
      assert PlainLines(ls[1..]) by {
        assert forall j :: 0 <= j < |ls[1..]| ==> ls[1..][j] == ls[j + 1];
      }
      LinesOfJoin(ls[1..]);
      assert ls == [head] + ls[1..];
    }
  }

  /** The join of several lines breaks first after the first line. */
  lemma JoinHeadBreak(ls: seq<string>)
    requires |ls| > 1 && PlainLine(ls[0])
    ensures var s := Join(ls);
            NewlineAt(s) == |ls[0]| && s[..|ls[0]|] == ls[0] && s[|ls[0]| + 1..] == Join(ls[1..])
  {
    var s := Join(ls);
    var head := ls[0];
    assert s == head + "\n" + Join(ls[1..]);
    assert forall k :: 0 <= k < |head| ==> s[k] == head[k];
    NewlineFirst(s, |head|);
  }

  /** `NewlineAt` finds an index when nothing before it is a '\n'. */
  lemma NewlineFirst(s: string, i: nat)
    requires i < |s| && s[i] == '\n'
    requires forall k :: 0 <= k < i ==> s[k] != '\n'
    ensures NewlineAt(s) == i
  {
  }

  /** Joining the lines of a text in joined-lines form gives it back. */
  lemma {:induction false} JoinOfLines(s: string)
    requires Normal(s)
    ensures Join(Lines(s)) == s
    ensures PlainLines(Lines(s))
    decreases |s|
  {
    if s != [] {
      var i := NewlineAt(s);
      if i < |s| {
        var rest := s[i + 1..];
        assert |rest| > 0 && Normal(rest) by {
          assert s[|s| - 1] != '\n';
          assert forall k :: 0 <= k < |rest| ==> rest[k] == s[i + 1 + k];
        }
        JoinOfLines(rest);
        SplitFirstLine(s, i);
      }
    }
  }

  /** One step of `JoinOfLines`: the first line of `s` ends at its first '\n'. */
  lemma SplitFirstLine(s: string, i: nat)
    requires Normal(s) && i < |s| && i == NewlineAt(s)
    requires Join(Lines(s[i + 1..])) == s[i + 1..] && PlainLines(Lines(s[i + 1..]))
    ensures Join(Lines(s)) == s
    ensures PlainLines(Lines(s))
  {
    var rest := s[i + 1..];
    var head := s[..i];
    var tail := Lines(rest);
    assert |rest| > 0 by {
      assert s[i] == '\n' && s[|s| - 1] != '\n';
    }
    FirstLinePlain(s, i);
    LinesStep(s, i);
    assert Lines(s) == [head] + tail;
    JoinCons(head, tail);
    SplitAt(s, i);
    PlainLinesCons(head, tail);
  }

  /** A text is the piece before index `i`, the '\n' at `i`, and the rest. */
  lemma SplitAt(s: string, i: nat)
    requires i < |s| && s[i] == '\n'
    ensures s == s[..i] + "\n" + s[i + 1..]
  {
  }

  /** `lines` cuts at the first '\n'. */
  lemma LinesStep(s: string, i: nat)
    requires i < |s| && i == NewlineAt(s)
    ensures Lines(s) == [StripCr(s[..i])] + Lines(s[i + 1..])
  {
  }

  /** In text without '\r', the piece before the first '\n' is a plain line. */
  lemma FirstLinePlain(s: string, i: nat)
    requires forall k :: 0 <= k < |s| ==> s[k] != '\r'
    requires i <= |s| && forall k :: 0 <= k < i ==> s[k] != '\n'
    ensures PlainLine(s[..i]) && StripCr(s[..i]) == s[..i]
  {
    var head := s[..i];
    assert forall k :: 0 <= k < |head| ==> head[k] == s[k];
  }

  /** Joining a line in front of a non-empty vector puts a '\n' between. */
  lemma JoinCons(head: string, tail: seq<string>)
    requires |tail| > 0
    ensures Join([head] + tail) == head + "\n" + Join(tail)
  {
    assert ([head] + tail)[1..] == tail;
  }

  /** A plain line in front of a non-empty plain line vector. */
  lemma PlainLinesCons(head: string, tail: seq<string>)
    requires PlainLine(head) && PlainLines(tail) && |tail| > 0
    ensures PlainLines([head] + tail)
  {
    var ls := [head] + tail;
    assert forall j :: 1 <= j < |ls| ==> ls[j] == tail[j - 1];
  }

  /**
   * A row holding a '\n' joins like the two rows on either side of it: the
   * join of `ls` with row `y` replaced by `a + "\n" + b` is the join of `ls`
   * with row `y` cut into `a` and `b`.
   */
  lemma {:induction false} JoinSplitRow(ls: seq<string>, y: nat, a: string, b: string)
    requires y < |ls|
    ensures Join(ls[y := a + "\n" + b]) == Join(ls[..y] + [a, b] + ls[y + 1..])
  {
    if y == 0 {
      JoinSplitHead(ls, a, b);
      assert ls[..y] + [a, b] + ls[y + 1..] == [a, b] + ls[1..];
    } else {
      var rest := ls[1..];
      JoinSplitRow(rest, y - 1, a, b);
      JoinSplitLater(ls, y, a, b);
    }
  }

  /** `JoinSplitRow` for the first row. */
  lemma JoinSplitHead(ls: seq<string>, a: string, b: string)
    requires |ls| > 0
    ensures Join(ls[0 := a + "\n" + b]) == Join([a, b] + ls[1..])
  {
    var m := a + "\n" + b;
    var rest := ls[1..];
    if |ls| == 1 {
      assert ls[0 := m] == [m];
      assert [a, b] + rest == [a, b];
      assert Join([a, b]) == a + "\n" + Join([b]);
    } else {
      assert ls[0 := m] == [m] + rest;
      JoinCons(m, rest);
      JoinCons(b, rest);
      assert [a, b] + rest == [a] + ([b] + rest);
      JoinCons(a, [b] + rest);
    }
  }

  /** `JoinSplitRow` for a later row, from the same fact about the tail. */
  lemma JoinSplitLater(ls: seq<string>, y: nat, a: string, b: string)
    requires 0 < y < |ls|
    requires var rest := ls[1..];
             Join(rest[y - 1 := a + "\n" + b]) == Join(rest[..y - 1] + [a, b] + rest[y..])
    ensures Join(ls[y := a + "\n" + b]) == Join(ls[..y] + [a, b] + ls[y + 1..])
  {
    var m := a + "\n" + b;
    var rest := ls[1..];
    assert ls[y := m] == [ls[0]] + rest[y - 1 := m];
    JoinCons(ls[0], rest[y - 1 := m]);
    var cut := rest[..y - 1] + [a, b] + rest[y..];
    assert ls[..y] + [a, b] + ls[y + 1..] == [ls[0]] + cut;
    JoinCons(ls[0], cut);
  }

  /** Appending to the last row appends to the join. */
  lemma {:induction false} JoinAppendLast(ls: seq<string>, t: string)
    requires |ls| > 0
    ensures Join(ls[|ls| - 1 := ls[|ls| - 1] + t]) == Join(ls) + t
  {
    var ls' := ls[|ls| - 1 := ls[|ls| - 1] + t];
    if |ls| > 1 {
      var rest := ls[1..];
      JoinAppendLast(rest, t);
      assert ls' == [ls[0]] + rest[|rest| - 1 := rest[|rest| - 1] + t];
      JoinCons(ls[0], rest[|rest| - 1 := rest[|rest| - 1] + t]);
      JoinCons(ls[0], rest);
      assert ls == [ls[0]] + rest;
    }
  }

  /**
   * A '\n' at the end of text in joined-lines form adds no line: `lines`
   * drops the final empty piece.
   */
  lemma {:induction false} LinesIgnoreFinalNewline(s: string)
    requires Normal(s) && s != []
    ensures Lines(s + "\n") == Lines(s)
    decreases |s|
  {
    var i := NewlineAt(s);
    if i == |s| {
      LastLineAppended(s);
    } else {
      var rest := s[i + 1..];
      assert |rest| > 0 && Normal(rest) by {
        assert s[|s| - 1] != '\n';
        assert forall k :: 0 <= k < |rest| ==> rest[k] == s[i + 1 + k];
      }
      LinesIgnoreFinalNewline(rest);
      FirstLineAppended(s, i);
    }
  }

  /** One line without a break: the appended '\n' only ends it. */
  lemma LastLineAppended(s: string)
    requires Normal(s) && s != [] && NewlineAt(s) == |s|
    ensures Lines(s + "\n") == Lines(s)
  {
    var s' := s + "\n";
    NewlineAppended(s, |s|);
    LinesStep(s', |s|);
    FirstLinePlain(s, |s|);
    assert s'[|s| + 1..] == [];
    assert s'[..|s|] == s;
  }

  /** Past the first '\n', appending a '\n' to the text appends it to the rest. */
  lemma FirstLineAppended(s: string, i: nat)
    requires i < |s| && i == NewlineAt(s)
    requires Lines(s[i + 1..] + "\n") == Lines(s[i + 1..])
    ensures Lines(s + "\n") == Lines(s)
  {
    var s' := s + "\n";
    NewlineAppended(s, i);
    AppendedSlices(s, i);
    calc {
      Lines(s');
    == { LinesStep(s', i); }
      [StripCr(s'[..i])] + Lines(s'[i + 1..]);
    ==
      [StripCr(s[..i])] + Lines(s[i + 1..] + "\n");
    ==
      [StripCr(s[..i])] + Lines(s[i + 1..]);
    == { LinesStep(s, i); }
      Lines(s);
    }
  }

  /** Cutting `s + "\n"` before the end of `s`. */
  lemma AppendedSlices(s: string, i: nat)
    requires i < |s|
    ensures (s + "\n")[..i] == s[..i] && (s + "\n")[i + 1..] == s[i + 1..] + "\n"
  {
  }

  /** Appending a '\n' leaves the first line break of `s` where it is. */
  lemma NewlineAppended(s: string, i: nat)
    requires i == NewlineAt(s)
    ensures NewlineAt(s + "\n") == i
  {
    var s' := s + "\n";
    assert forall k :: 0 <= k < |s| ==> s'[k] == s[k];
    NewlineFirst(s', i);
  }

  /** Plain lines join into text in joined-lines form. */
  lemma {:induction false} JoinIsNormal(ls: seq<string>)
    requires PlainLines(ls)
    ensures Normal(Join(ls))
  {
    if |ls| > 1 {
      assert PlainLines(ls[1..]) by {
        assert forall j :: 0 <= j < |ls[1..]| ==> ls[1..][j] == ls[j + 1];
      }
      JoinIsNormal(ls[1..]);
      var s := Join(ls);
      assert s == ls[0] + "\n" + Join(ls[1..]);
      forall k | 0 <= k < |s| ensures s[k] != '\r' {
        if k < |ls[0]| {
          assert s[k] == ls[0][k];
        } else if k > |ls[0]| {
          assert s[k] == Join(ls[1..])[k - |ls[0]| - 1];
        }
      }
      assert |Join(ls[1..])| > 0 by {
        JoinNonEmpty(ls[1..]);
      }
    }
  }

  /** The join of plain lines is empty only when there are no lines. */
  lemma {:induction false} JoinNonEmpty(ls: seq<string>)
    requires PlainLines(ls) && |ls| > 0
    ensures |Join(ls)| > 0
  {
    if |ls| > 1 {
      assert |Join(ls)| >= 1 + |Join(ls[1..])|;
    }
  }
}
