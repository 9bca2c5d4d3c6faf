/** The rows the exporter writes, read back cell by cell. */
module DirectiveCells {
  import opened Options
  import opened Text
  import opened TextWords
  import opened ReconcileText
  import opened DirectiveLines

  // ------------------------------------------------------------------
  // A reader of table rows
  // ------------------------------------------------------------------

  /** The text cut at every bar that no backslash stands in front of. */
  function CutAtBars(s: string, escaped: bool): (r: seq<string>)
    ensures r != []
  {
    if s == "" then [""]
    else if s[0] == '|' && !escaped then [""] + CutAtBars(s[1..], false)
    else
      var r := CutAtBars(s[1..], s[0] == '\\');
      [[s[0]] + r[0]] + r[1..]
  }

  /** The cells between the outer bars, without the white space around them. */
  function Cells(row: string): seq<string> {
    var cut := CutAtBars(row, false);
    if |cut| < 2 then [] else seq(|cut| - 2, i requires 0 <= i < |cut| - 2 => Strip(cut[i + 1]))
  }

  /** No bar without a backslash in front of it; `escaped` tells whether one stands in front of s. */
  predicate NoBareBar(s: string, escaped: bool) {
    && (s != "" && s[0] == '|' ==> escaped)
    && (forall i :: 0 < i < |s| && s[i] == '|' ==> s[i - 1] == '\\')
  }

  lemma {:induction false} CutAtBar(x: string, y: string, escaped: bool)
    requires NoBareBar(x, escaped) && (if x == "" then !escaped else x[|x| - 1] != '\\')
    ensures CutAtBars(x + "|" + y, escaped) == [x] + CutAtBars(y, false)
  {
    var s := x + "|" + y;
    if x == "" {
      assert s == "|" + y;
    } else {
      assert s[1..] == x[1..] + "|" + y;
      assert forall i :: 0 <= i < |x[1..]| ==> x[1..][i] == x[i + 1];
      assert s[0] == x[0] && (x[0] == '|' ==> escaped);
      CutAtBar(x[1..], y, x[0] == '\\');
      assert CutAtBars(s, escaped) == [[x[0]] + x[1..]] + CutAtBars(y, false);
      assert [x[0]] + x[1..] == x;
    }
  }

  // ------------------------------------------------------------------
  // What escaping does to a cell
  // ------------------------------------------------------------------

  lemma NoBareBehind(front: string, rest: string, escaped: bool)
    requires front != "" && NoBareBar(front, escaped) && NoBareBar(rest, front[|front| - 1] == '\\')
    ensures NoBareBar(front + rest, escaped)
  {
    var s := front + rest;
    assert forall i :: 0 <= i < |front| ==> s[i] == front[i];
    assert forall i :: |front| <= i < |s| ==> s[i] == rest[i - |front|];
  }

  /** What the first character is escaped to. */
  function Escaped(c: char, escaped: bool): (r: string)
    ensures r != ""
  {
    if c == '|' && !escaped then "\\|" else [c]
  }

  lemma EscapeFirst(s: string, escaped: bool)
    requires s != ""
    ensures EscapePipes(s, escaped) == Escaped(s[0], escaped) + EscapePipes(s[1..], s[0] == '\\')
    ensures NoBareBar(Escaped(s[0], escaped), escaped)
    ensures Escaped(s[0], escaped)[|Escaped(s[0], escaped)| - 1] == s[0]
    ensures Escaped(s[0], escaped)[0] == if s[0] == '|' && !escaped then '\\' else s[0]
  {}

  lemma {:induction false} EscapeLeavesNoBar(s: string, escaped: bool)
    ensures NoBareBar(EscapePipes(s, escaped), escaped)
    ensures s == "" <==> EscapePipes(s, escaped) == ""
    ensures s != "" ==> EscapePipes(s, escaped)[|EscapePipes(s, escaped)| - 1] == s[|s| - 1]
    ensures s != "" ==> EscapePipes(s, escaped)[0] == if s[0] == '|' && !escaped then '\\' else s[0]
  {
    hide NoBareBar, Escaped, EscapePipes;
    if s != "" {
      EscapeLeavesNoBar(s[1..], s[0] == '\\');
      EscapeFirst(s, escaped);
      NoBareBehind(Escaped(s[0], escaped), EscapePipes(s[1..], s[0] == '\\'), escaped);
    } else {
      NothingEscaped(escaped);
    }
  }

  lemma NothingEscaped(escaped: bool)
    ensures EscapePipes("", escaped) == "" && NoBareBar("", escaped)
  {}

  /** A text without bars is its own cell. */
  lemma {:induction false} NothingToEscape(s: string, escaped: bool)
    requires '|' !in s
    ensures EscapePipes(s, escaped) == s
  {
    if s != "" {
      assert s[0] in s;
      NothingToEscape(s[1..], s[0] == '\\');
    }
  }

  /** An escaped text reads as the text does; only bars that were bare gain a backslash. */
  lemma {:induction false} EscapeReadsBack(s: string)
    ensures UnescapePipes(EscapePipes(s, false)) == UnescapePipes(s)
    decreases |s|
  {
    if s != "" {
      var e := EscapePipes(s, false);
      if s[0] == '|' {
        EscapeReadsBack(s[1..]);
        assert e[2..] == EscapePipes(s[1..], false);
      } else if |s| >= 2 && s[0] == '\\' && s[1] == '|' {
        assert e == "\\|" + EscapePipes(s[2..], false);
        assert e[2..] == EscapePipes(s[2..], false);
        EscapeReadsBack(s[2..]);
      } else {
        var rest := EscapePipes(s[1..], s[0] == '\\');
        EscapeAfter(s);
        EscapeLeavesNoBar(s[1..], false);
        EscapeReadsBack(s[1..]);
        assert e == [s[0]] + rest && e[1..] == rest;
      }
    }
  }

  /** A backslash in front of anything but a bar makes no difference. */
  lemma EscapeAfter(s: string)
    requires s != "" && (|s| >= 2 ==> !(s[0] == '\\' && s[1] == '|'))
    ensures EscapePipes(s[1..], s[0] == '\\') == EscapePipes(s[1..], false)
  {}

  /**
   * A cell holds the cleaned value: equal to it if it has no bar, and otherwise with every bar
   * behind a backslash and, as the reconciler reads cells, the same text.
   */
  lemma CellHoldsValue(value: string)
    ensures NoBareBar(Cell(value), false) && Trimmed(Cell(value))
    ensures '|' !in Clean(value) ==> Cell(value) == Clean(value)
    ensures UnescapePipes(Cell(value)) == UnescapePipes(Clean(value))
  {
    hide Clean, EscapePipes, UnescapePipes, NoBareBar;
    var v := Clean(value);
    CleanTrimmed(value);
    EscapeLeavesNoBar(v, false);
    EscapeReadsBack(v);
    if '|' !in v {
      NothingToEscape(v, false);
    }
  }

  // ------------------------------------------------------------------
  // The two rows
  // ------------------------------------------------------------------

  lemma CellIsCut(c: string, rest: string)
    requires NoBareBar(c, false) && Trimmed(c)
    ensures CutAtBars(" " + c + " |" + rest, false) == [" " + c + " "] + CutAtBars(rest, false)
    ensures Strip(" " + c + " ") == c
  {
    hide CutAtBars;
    var x := " " + c + " ";
    assert " " + c + " |" + rest == x + "|" + rest;
    assert forall i :: 0 <= i < |c| ==> x[i + 1] == c[i];
    CutAtBar(x, rest, false);
    StripAround(c);
  }

  lemma StripAround(c: string)
    requires Trimmed(c)
    ensures Strip(" " + c + " ") == c
  {
    hide LStrip, RStrip;
    if c == "" {
      assert " " + c + " " == "  " + "";
      LStripGap("  ", "");
    } else {
      assert " " + c + " " == " " + (c + " ");
      LStripGap(" ", c + " ");
    }
    RStripUnique(c, if c == "" then "" else " ");
    assert c == "" ==> c + "" == "";
  }

  lemma FourCells(a: string, b: string, c: string, d: string)
    requires NoBareBar(a, false) && NoBareBar(b, false) && NoBareBar(c, false) && NoBareBar(d, false)
    requires Trimmed(a) && Trimmed(b) && Trimmed(c) && Trimmed(d)
    ensures Cells("| " + a + " | " + b + " | " + c + " | " + d + " |") == [a, b, c, d]
  {
    hide CutAtBars, Strip, NoBareBar, Trimmed;
    var r4 := " " + d + " |" + "";
    var r3 := " " + c + " |" + r4;
    var r2 := " " + b + " |" + r3;
    var r1 := " " + a + " |" + r2;
    var row := "| " + a + " | " + b + " | " + c + " | " + d + " |";
    assert row == "" + "|" + r1;
    assert NoBareBar("", false) by { NothingIsBare(); }
    CutAtBar("", r1, false);
    CellIsCut(a, r2);
    CellIsCut(b, r3);
    CellIsCut(c, r4);
    CellIsCut(d, "");
    CutNothing();
    assert CutAtBars(row, false) == ["", " " + a + " ", " " + b + " ", " " + c + " ", " " + d + " ", ""];
  }

  lemma NothingIsBare()
    ensures NoBareBar("", false)
  {}

  lemma CutNothing()
    ensures CutAtBars("", false) == [""]
  {}

  /** An id is one word without bars. */
  lemma IdIsCell(did: string)
    requires ValidId(did)
    ensures NoBareBar(did, false) && Trimmed(did)
  {
    assert forall i :: 4 <= i < |did| ==> did[i] == did[4..][i - 4] && IsDigit(did[i]);
    assert did[0] == 'D' && did[1] == 'I' && did[2] == 'R' && did[3] == '-';
  }

  /** The Applies when column: the cleaned text, cut to sixty characters. */
  function Short(applies: string): (r: string)
    ensures |r| <= 60
    ensures |applies| <= 60 ==> r == applies
  {
    if |applies| <= 60 then applies else applies[..57] + "..."
  }

  /** The cells of an Index row are the id, the title, the shortened Applies when, and "active". */
  lemma IndexRowCells(did: string, p: Proposal)
    requires ValidId(did)
    ensures Cells(RenderIndexRow(did, p)) == [did, Cell(p.title), Cell(Short(Clean(p.appliesWhen))), "active"]
  {
    hide Cell, Clean, Cells, NoBareBar, Trimmed, ValidId;
    var title, short := Cell(p.title), Cell(Short(Clean(p.appliesWhen)));
    IdIsCell(did);
    CellHoldsValue(p.title);
    CellHoldsValue(Short(Clean(p.appliesWhen)));
    PlainCells();
    FourCells(did, title, short, "active");
    assert "| " + did + " | " + (title + " | " + short + " | active |")
        == "| " + did + " | " + title + " | " + short + " | " + "active" + " |";
  }

  /** The cells of a Retired row are the id, the title, "deprecated" and no successor. */
  lemma RetiredRowCells(did: string, title: string)
    requires ValidId(did)
    ensures Cells(RenderRetiredRow(did, title)) == [did, Cell(title), "deprecated", "—"]
  {
    hide Cell, Cells, NoBareBar, Trimmed, ValidId;
    var t := Cell(title);
    IdIsCell(did);
    CellHoldsValue(title);
    PlainCells();
    FourCells(did, t, "deprecated", "—");
    assert "| " + did + " | " + (t + " | deprecated | — |")
        == "| " + did + " | " + t + " | " + "deprecated" + " | " + "—" + " |";
  }

  lemma PlainCells()
    ensures NoBareBar("active", false) && Trimmed("active")
    ensures NoBareBar("deprecated", false) && Trimmed("deprecated")
    ensures NoBareBar("—", false) && Trimmed("—")
  {}

  // ------------------------------------------------------------------
  // The title of a heading
  // ------------------------------------------------------------------

  /** The title of a directive heading is what stands behind the dash. */
  lemma TitleBehindDash(did: string, title: string)
    requires ValidId(did)
    ensures HeadingTitle("### " + did + " — " + title) == Strip(title)
  {
    hide Strip, DirId, ValidId;
    var line := "### " + did + " — " + title;
    HeadingId(did, title);
    IdInHeading(did, title);
    assert line[4 + |did| + 3..] == title;
  }

  lemma IdInHeading(did: string, title: string)
    requires ValidId(did)
    ensures IdLen(("### " + did + " — " + title)[4..]) == |did|
  {
    var line := "### " + did + " — " + title;
    assert line[4..] == did + (" — " + title);
    IdLenAppend(did, " — " + title);
  }

  /** A directive heading is its id and a title around a dash. */
  lemma HeadingParts(line: string, did: string) returns (title: string)
    requires DirId(line) == Some(did)
    ensures line == "### " + did + " — " + title
    ensures HeadingTitle(line) == Strip(title)
  {
    hide ValidId, Strip;
    var n := IdLen(line[4..]);
    title := line[4 + n + 3..];
    assert line == line[..4] + line[4..][..n] + line[4 + n..][..3] + title;
  }
}
