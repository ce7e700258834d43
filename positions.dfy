/** Line and column tracking of src/tokenizer.rs: `get_new_position` and
    the character-by-character reading it agrees with. */
module Positions {
  import opened Wrappers

  // ---------------------------------------------------------------------
  // Position tracking
  // ---------------------------------------------------------------------

  /** `matches("\n").count()` */
  function CountNewlines(s: string): (k: nat)
    ensures k <= |s|
    ensures k == 0 <==> forall i :: 0 <= i < |s| ==> s[i] != '\n'
  {
    if s == [] then 0
    else CountNewlines(s[..|s| - 1]) + (if s[|s| - 1] == '\n' then 1 else 0)
  }

  /** Index of the last line feed of `s`, if any. */
  function LastNewline(s: string): (r: Option<nat>)
    ensures r.Some? ==>
      r.value < |s| && s[r.value] == '\n' && forall j :: r.value < j < |s| ==> s[j] != '\n'
    ensures r.None? ==> forall j :: 0 <= j < |s| ==> s[j] != '\n'
  {
    if s == [] then None
    else if s[|s| - 1] == '\n' then Some(|s| - 1)
    else LastNewline(s[..|s| - 1])
  }

  /** PATTERN_CHARS_AFTER_NEWLINE, `\n([^\n]+)$`, searched anywhere in `s`:
      its capture is the non-empty text after the last line feed. */
  function CharsAfterNewline(s: string): (r: Option<string>)
    ensures r.Some? ==> 0 < |r.value| < |s| && s[|s| - 1 - |r.value|] == '\n' && s[|s| - |r.value|..] == r.value
    ensures r.Some? ==> forall j :: 0 <= j < |r.value| ==> r.value[j] != '\n'
  {
    match LastNewline(s)
    case Some(i) => if i + 1 < |s| then Some(s[i + 1..]) else None
    case None => None
  }

  /** The capture exists exactly when some line feed is followed, up to the
      end of `s`, by at least one character none of which is a line feed. */
  lemma CharsAfterNewlineExists(s: string)
    ensures CharsAfterNewline(s).Some? <==>
      exists i :: 0 <= i < |s| - 1 && s[i] == '\n' && forall j :: i < j < |s| ==> s[j] != '\n'
  {
    match LastNewline(s)
    case Some(i) =>
      if exists i' :: 0 <= i' < |s| - 1 && s[i'] == '\n' && forall j :: i' < j < |s| ==> s[j] != '\n' {
        var i' :| 0 <= i' < |s| - 1 && s[i'] == '\n' && forall j :: i' < j < |s| ==> s[j] != '\n';
        assert i' == i;
      }
    case None =>
  }

  /** `get_new_position`: the line and column reached after reading
      `eatenStr` from `currentLine`, `currentColumn`. */
  function GetNewPosition(eatenStr: string, currentLine: nat, currentColumn: nat): (r: (nat, nat))
    ensures r.0 == currentLine + CountNewlines(eatenStr)
    ensures CountNewlines(eatenStr) == 0 ==> r.1 == currentColumn + |eatenStr|
    ensures CountNewlines(eatenStr) > 0 ==>
      LastNewline(eatenStr).Some? && r.1 == |eatenStr| - LastNewline(eatenStr).value
  {
    var linesEaten := CountNewlines(eatenStr);
    var column :=
      if linesEaten > 0 then
        match CharsAfterNewline(eatenStr)
        case Some(chars) => |chars| + 1
        case None => 1
      else
        currentColumn + |eatenStr|;
    (currentLine + linesEaten, column)
  }

  // ---------------------------------------------------------------------
  // Position tracking, read one character at a time
  // ---------------------------------------------------------------------

  /** Reference reading of the position rule: a line feed moves to column 1
      of the next line, any other character one column to the right. */
  function Walk(s: string, line: nat, column: nat): (nat, nat)
  {
    if s == [] then (line, column)
    else
      var before := Walk(s[..|s| - 1], line, column);
      if s[|s| - 1] == '\n' then (before.0 + 1, 1) else (before.0, before.1 + 1)
  }

  /** Reading one more character: a line feed moves to column 1 of the next
      line, any other character one column to the right. */
  lemma GetNewPositionStep(s: string, line: nat, column: nat)
    requires s != []
    ensures var before := GetNewPosition(s[..|s| - 1], line, column);
      GetNewPosition(s, line, column) ==
        if s[|s| - 1] == '\n' then (before.0 + 1, 1) else (before.0, before.1 + 1)
  {
    var prefix := s[..|s| - 1];
    if s[|s| - 1] == '\n' {
      assert LastNewline(s) == Some(|s| - 1);
    } else if CountNewlines(prefix) > 0 {
      assert LastNewline(s) == LastNewline(prefix);
    }
  }

  /** `get_new_position` agrees with the character-by-character reading. */
  lemma {:induction false} GetNewPositionIsWalk(s: string, line: nat, column: nat)
    ensures GetNewPosition(s, line, column) == Walk(s, line, column)
  {
    if s != [] {
      GetNewPositionIsWalk(s[..|s| - 1], line, column);
      GetNewPositionStep(s, line, column);
    }
  }

  lemma {:induction false} WalkAppend(a: string, b: string, line: nat, column: nat)
    ensures Walk(a + b, line, column) == Walk(b, Walk(a, line, column).0, Walk(a, line, column).1)
  {
    if b == [] {
      assert a + b == a;
    } else {
      WalkAppend(a, b[..|b| - 1], line, column);
      assert (a + b)[..|a + b| - 1] == a + b[..|b| - 1];
    }
  }

  /** Reading `a` and then `b` ends where reading `a + b` ends. */
  lemma GetNewPositionAppend(a: string, b: string, line: nat, column: nat)
    ensures var middle := GetNewPosition(a, line, column);
      GetNewPosition(a + b, line, column) == GetNewPosition(b, middle.0, middle.1)
  {
    var middle := GetNewPosition(a, line, column);
    GetNewPositionIsWalk(a, line, column);
    GetNewPositionIsWalk(b, middle.0, middle.1);
    GetNewPositionIsWalk(a + b, line, column);
    WalkAppend(a, b, line, column);
  }

  lemma {:induction false} CountNewlinesAppend(a: string, b: string)
    ensures CountNewlines(a + b) == CountNewlines(a) + CountNewlines(b)
  {
    if b == [] {
      assert a + b == a;
    } else {
      CountNewlinesAppend(a, b[..|b| - 1]);
      assert (a + b)[..|a + b| - 1] == a + b[..|b| - 1];
    }
  }

  /** The two cases checked by the source's own test of `get_new_position`. */
  lemma GetNewPositionExamples()
    ensures GetNewPosition("test", 1, 1) == (1, 5)
    ensures GetNewPosition("testy\ntest", 1, 1) == (2, 5)
  {
    assert CountNewlines("test") == 0;
    var s := "testy\ntest";
    assert s == "testy\n" + "test";
    assert "testy\n" == "testy" + "\n";
    CountNewlinesAppend("testy\n", "test");
    CountNewlinesAppend("testy", "\n");
    assert CountNewlines("testy") == 0;
    assert CountNewlines("\n"[..0]) == 0;
    assert s[5] == '\n';
    assert LastNewline(s).value == 5;
  }
}
