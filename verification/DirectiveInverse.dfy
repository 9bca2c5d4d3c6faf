/** Retiring a directive and accepting it again puts the document back as it was. */
module DirectiveInverse {
  import opened Options
  import opened Text
  import opened DirectiveLines
  import opened DirectiveEntries
  import opened DirectiveDoc
  import opened DirectiveSections
  import opened DirectiveRefine
  import opened DirectiveStep
  import opened DirectivePreservation
  import opened DirectiveDecisions

  /** The entry is exactly what the exporter renders, followed by blank lines. */
  predicate IsRendering(did: string, p: Proposal, added: string, body: seq<string>) {
    var n := |RenderEntry(did, p, added)|;
    && n <= |body| && body[..n] == RenderEntry(did, p, added)
    && (forall l <- body[n..] :: IsBlankLine(l))
    && CleanStart(added) && OwnedAdded(added) && !IsSpace(added[|added| - 1])
    && TextLength(RenderEntry(did, p, added)) <= MAX_ENTRY_CHARS
  }

  /** The row at r is where the exporter would insert a row of that number. */
  predicate InPlace(rows: seq<string>, r: nat, number: nat)
    requires r < |rows|
  {
    && (forall i :: 0 <= i < r ==> !RowAbove(rows[i], number))
    && (r + 1 < |rows| ==> RowAbove(rows[r + 1], number))
  }

  /** The only row of did. */
  predicate OnlyRow(rows: seq<string>, r: nat, did: string) {
    r < |rows| && forall i :: 0 <= i < |rows| ==> (RowId(rows[i]) == Some(did) <==> i == r)
  }

  predicate NoRow(rows: seq<string>, did: string) {
    forall i :: 0 <= i < |rows| ==> RowId(rows[i]) != Some(did)
  }

  // ------------------------------------------------------------------
  // The entry
  // ------------------------------------------------------------------

  const DEPRECATED_LINE := "- **Status:** deprecated"

  lemma RetireRendered(did: string, p: Proposal, added: string, body: seq<string>)
    requires ValidId(did) && IsRendering(did, p, added, body)
    ensures |body| > 6 && RetireBody(body) == body[2 := DEPRECATED_LINE]
    ensures FirstStatus(body) == Some("active") && FirstAdded(body) == Some(added)
    ensures IsServiceOwned(body) && IsTemplate(body)
    ensures !IsBlankLine(body[|RenderEntry(did, p, added)| - 1])
  {
    hide RenderEntry, IsBullet, IsBlankLine, IsEntry, FirstAdded, FirstStatus, IsTemplate, Written, RetireBody, IsRendering, IsServiceOwned;
    RenderingIsWritten(did, p, added, body);
    RenderedIsOwned(did, p, added, body);
    var n := |RenderEntry(did, p, added)|;
    WrittenShape(did, p, added, "", body[n..], body);
    RenderSplits(did, p, added);
    RetireWritten(did, p, added, body[n..], body);
  }

  lemma RenderedIsOwned(did: string, p: Proposal, added: string, body: seq<string>)
    requires ValidId(did) && IsRendering(did, p, added, body)
    ensures IsServiceOwned(body)
    ensures 7 <= |RenderEntry(did, p, added)| <= |body| && !IsBlankLine(body[|RenderEntry(did, p, added)| - 1])
  {
    hide RenderEntry, OwnedAdded, IsBlankLine, FirstAdded, Written, TextLength, IsSpace;
    RenderingIsWritten(did, p, added, body);
    OwnedBy(body, added);
    LastRendered(did, p, added);
    var n := |RenderEntry(did, p, added)|;
    assert body[n - 1] == body[..n][n - 1];
  }

  lemma LastRendered(did: string, p: Proposal, added: string)
    ensures var entry := RenderEntry(did, p, added);
            |entry| >= 7 && entry[|entry| - 1] == ADDED + " " + added && !IsBlankLine(entry[|entry| - 1])
  {
    hide RenderEntry, RenderFront, IsBlankLine;
    RenderSplits(did, p, added);
    AddedLineIsNotBlank(added);
    NotBlank(ADDED + " " + added, 0);
  }

  lemma RetireWritten(did: string, p: Proposal, added: string, blanks: seq<string>, body: seq<string>)
    requires ValidId(did) && Written(did, p, added, "", blanks, body)
    ensures |body| > 6 && RetireBody(body) == body[2 := DEPRECATED_LINE]
  {
    hide RenderFront, StatusOf, RetireBody, DirId, IsBullet, AddedOf, IsBlankLine;
    var f := RenderFront(did, p);
    RenderSplits(did, p, added);
    RenderFrontShape(did, p);
    ActiveLine();
    assert body[0] == f[0] && body[1] == f[1] && body[2] == f[2];
    RetireAtTwo(body);
  }

  lemma RenderingIsWritten(did: string, p: Proposal, added: string, body: seq<string>)
    requires ValidId(did) && IsRendering(did, p, added, body)
    ensures Written(did, p, added, "", body[|RenderEntry(did, p, added)|..], body)
    ensures FirstAdded(body) == Some(added)
  {
    hide RenderEntry, RenderFront, OwnedAdded, RTrimBlanks, TrimBlanks, IsBlankLine, TextLength, FirstAdded, IsSpace;
    RenderSplits(did, p, added);
    var n := |RenderEntry(did, p, added)|;
    assert ADDED + " " + added + "" == ADDED + " " + added;
    assert body == RenderFront(did, p) + [ADDED + " " + added + ""] + body[n..];
    WrittenAdded(did, p, added, "", body[n..], body);
    SpaceIsWider(added);
    RTrimUnique(added, "");
  }

  lemma SpaceIsWider(added: string)
    requires CleanStart(added) && !IsSpace(added[|added| - 1])
    ensures !IsBlank(added[|added| - 1])
  {}

  lemma RetireAtTwo(body: seq<string>)
    requires |body| > 2 && StatusOf(body[0]).None? && StatusOf(body[1]).None?
    requires StatusOf(body[2]) == Some(StatusLine("- **Status:** ", "active", ""))
    ensures RetireBody(body) == body[2 := DEPRECATED_LINE]
  {
    hide StatusOf;
    assert "- **Status:** " + "deprecated" + "" == DEPRECATED_LINE;
    var b1, b2 := body[1..], body[2..];
    assert b1[1..] == b2 && b2[1..] == body[3..];
    assert RetireBody(b2) == [DEPRECATED_LINE] + body[3..];
    assert RetireBody(b1) == [body[1]] + RetireBody(b2);
    assert RetireBody(body) == [body[0]] + RetireBody(b1);
  }

  lemma {:induction false} ContentLenIs(front: seq<string>, blanks: seq<string>)
    requires front != [] && !IsBlankLine(front[|front| - 1])
    requires forall l <- blanks :: IsBlankLine(l)
    ensures ContentLen(front + blanks) == |front|
    decreases |blanks|
  {
    hide IsBlankLine;
    if blanks == [] {
      assert front + blanks == front;
    } else {
      var x := front + blanks;
      assert x[|x| - 1] == blanks[|blanks| - 1] && blanks[|blanks| - 1] in blanks;
      assert x[..|x| - 1] == front + blanks[..|blanks| - 1];
      ContentLenIs(front, blanks[..|blanks| - 1]);
    }
  }

  lemma NoTrail(added: string)
    requires CleanStart(added) && !IsSpace(added[|added| - 1])
    ensures Trail(ADDED + " " + added) == ""
  {
    var line := ADDED + " " + added;
    assert line[|line| - 1] == added[|added| - 1];
    RStripUnique(line, "");
    assert line + "" == line;
  }

  lemma StatusLinesDiffer()
    ensures RStrip("- **Status:** active") != RStrip(DEPRECATED_LINE)
  {
    RStripUnique("- **Status:** active", "");
    RStripUnique(DEPRECATED_LINE, "");
    assert "- **Status:** active" + "" == "- **Status:** active";
    assert DEPRECATED_LINE + "" == DEPRECATED_LINE;
    assert |DEPRECATED_LINE| != |"- **Status:** active"|;
  }

  lemma RetiredIsTemplate(did: string, p: Proposal, added: string, body: seq<string>)
    requires ValidId(did) && IsRendering(did, p, added, body)
    ensures var retired := RetireBody(body); IsServiceOwned(retired) && IsTemplate(retired)
  {
    hide RenderFront, DirId, IsBullet, OwnedAdded, AddedOf, StatusOf, IsBlankLine, TextLength, FirstAdded, FirstStatus, RStrip,
      RenderEntry, IsSpace, IsBlank;
    RetireRendered(did, p, added, body);
    RetireShape(body);
    var retired := RetireBody(body);
    RenderSplits(did, p, added);
    RenderFrontShape(did, p);
    OwnedBy(retired, added);
    forall i | 1 <= i < |retired|
      ensures IsBullet(retired[i]) || IsBlankLine(retired[i])
    {
      assert retired[i] != body[i] ==> IsBullet(retired[i]);
    }
  }

  /** The retired entry is seen to differ, and writing the proposal over it restores it. */
  lemma ReacceptRendered(did: string, p: Proposal, added: string, body: seq<string>)
    requires ValidId(did) && IsRendering(did, p, added, body)
    ensures var entry, retired := RenderEntry(did, p, added), RetireBody(body);
            && entry != []
            && FirstStatus(retired) == Some("deprecated") && FirstAdded(retired) == Some(added)
            && IsServiceOwned(retired) && IsTemplate(retired)
            && !SameLines(entry, retired)
            && ReplaceBody(retired, entry) == body
  {
    hide RenderFront, DirId, IsBullet, OwnedAdded, AddedOf, StatusOf, IsBlankLine, TextLength, FirstAdded, FirstStatus, RStrip,
      RenderEntry, IsSpace, IsBlank, IsServiceOwned, IsTemplate;
    RetireRendered(did, p, added, body);
    RetireShape(body);
    var retired, entry := RetireBody(body), RenderEntry(did, p, added);
    var n := |entry|;
    RenderSplits(did, p, added);
    RenderFrontShape(did, p);
    RetiredIsTemplate(did, p, added, body);
    var front, blanks := retired[..n], body[n..];
    assert retired == front + blanks && front[n - 1] == body[n - 1] == entry[n - 1];
    ContentLenIs(front, blanks);
    RStripLinesDropsBlanks(front, blanks);
    SameLinesAt(entry, front, 2);
    StatusLinesDiffer();
    NoTrail(added);
    assert retired[n..] == blanks;
    assert entry[n - 1] + "" == entry[n - 1];
    assert entry == entry[..n - 1] + [entry[n - 1]];
    assert body == entry + blanks;
  }

  lemma SameLinesAt(a: seq<string>, b: seq<string>, i: nat)
    requires i < |a| == |b| && !IsBlankLine(a[|a| - 1]) && !IsBlankLine(b[|b| - 1])
    ensures SameLines(a, b) ==> RStrip(a[i]) == RStrip(b[i])
  {
    hide IsBlankLine, RStrip;
    var x, y := RStripLines(a), RStripLines(b);
    assert |x| == |a| && |y| == |b|;
    assert x[i] == RStrip(a[i]) && y[i] == RStrip(b[i]);
  }

  // ------------------------------------------------------------------
  // The tables
  // ------------------------------------------------------------------

  lemma {:induction false} DropNone(rows: seq<string>, did: string)
    requires NoRow(rows, did)
    ensures DropRows(rows, did) == rows
  {
    hide RowId;
    if rows != [] {
      var n := |rows| - 1;
      DropNone(rows[..n], did);
      assert rows == rows[..n] + [rows[n]];
    }
  }

  lemma {:induction false} DropOnly(rows: seq<string>, r: nat, did: string)
    requires OnlyRow(rows, r, did)
    ensures DropRows(rows, did) == rows[..r] + rows[r + 1..]
  {
    hide RowId;
    var n := |rows| - 1;
    if r == n {
      DropNone(rows[..n], did);
      assert rows[r + 1..] == [];
    } else {
      DropOnly(rows[..n], r, did);
      assert rows[..n][..r] == rows[..r];
      assert rows[..n][r + 1..] + [rows[n]] == rows[r + 1..];
    }
  }

  /** The Index row returns to its place exactly when that is where its number belongs. */
  lemma RowReturns(rows: seq<string>, r: nat, did: string, row: string)
    requires OnlyRow(rows, r, did) && rows[r] == row
    ensures SetRow(DropRows(rows, did), did, row) == rows <==> InPlace(rows, r, Number(did))
  {
    hide RowId, RowAbove, Number, DropRows, FirstAbove, RowIndex;
    DropOnly(rows, r, did);
    var rest := rows[..r] + rows[r + 1..];
    assert forall i :: 0 <= i < |rest| ==> rest[i] == if i < r then rows[i] else rows[i + 1];
    assert RowIndex(rest, did) == |rest|;
    var at := FirstAbove(rest, Number(did));
    assert SetRow(rest, did, row) == rest[..at] + [row] + rest[at..];
    PlaceOfRow(rows, r, Number(did));
    InsertedAt(rows, r, at, did, row);
  }

  lemma PlaceOfRow(rows: seq<string>, r: nat, number: nat)
    requires r < |rows|
    ensures FirstAbove(rows[..r] + rows[r + 1..], number) == r <==> InPlace(rows, r, number)
  {
    hide RowAbove, FirstAbove;
    var rest := rows[..r] + rows[r + 1..];
    assert forall i :: 0 <= i < |rest| ==> rest[i] == if i < r then rows[i] else rows[i + 1];
    var at := FirstAbove(rest, number);
    if at == r {
      assert forall i :: 0 <= i < r ==> rest[i] == rows[i];
      assert r + 1 < |rows| ==> rest[r] == rows[r + 1];
    } else if at < r {
      assert rest[at] == rows[at];
    } else {
      assert rest[r] == rows[r + 1];
    }
  }

  lemma InsertedAt(rows: seq<string>, r: nat, at: nat, did: string, row: string)
    requires OnlyRow(rows, r, did) && rows[r] == row && at < |rows|
    ensures var rest := rows[..r] + rows[r + 1..];
            rest[..at] + [row] + rest[at..] == rows <==> at == r
  {
    hide RowId;
    var rest := rows[..r] + rows[r + 1..];
    var inserted := rest[..at] + [row] + rest[at..];
    assert inserted[at] == row;
    if at == r {
      assert rest[..r] == rows[..r] && rest[r..] == rows[r + 1..];
      assert rows == rows[..r] + [row] + rows[r + 1..];
    }
  }

  // ------------------------------------------------------------------
  // The document
  // ------------------------------------------------------------------

  /** What a caller can check of an entry before it is retired. */
  predicate Restorable(s: Sections, did: string, p: Proposal, added: string, r: nat) {
    var k := EntryIndex(s.entries, did);
    && k < |s.entries| && IsRendering(did, p, added, s.entries[k].body) && s.entries[k].tail == []
    && OnlyRow(s.rows, r, did) && s.rows[r] == RenderIndexRow(did, p)
    && NoRow(s.retRows, did)
    && s.post != []
  }

  function DeclineOf(did: string, p: Proposal): Target { Target(did, Declined, p, "") }

  function AcceptOf(did: string, p: Proposal): Target { Target(did, Accepted, p, "") }

  lemma RetireParts(s: Sections, did: string, p: Proposal, added: string, r: nat, today: string)
    requires Valid(s) && ValidId(did) && Restorable(s, did, p, added, r)
    ensures var k := EntryIndex(s.entries, did);
            var body := s.entries[k].body;
            body != [] &&
            StepS(s, DeclineOf(did, p), today) == Ok(Edit(
              SetBody(s, k, RetireBody(body)).(
                rows := DropRows(s.rows, did),
                retRows := s.retRows + [RenderRetiredRow(did, HeadingTitle(body[0]))]),
              [Action(did, RetiredEntry)]))
  {
    hide Valid, RenderEntry, OwnedAdded, FirstStatus, FirstAdded, RowId, DropRows, RetireBody, HeadingTitle, RenderRetiredRow, IsRendering,
      RenderIndexRow, EntryIndex, IsTemplate, RowIndex;
    var k := EntryIndex(s.entries, did);
    RetireRendered(did, p, added, s.entries[k].body);
    assert RowIndex(s.retRows, did) == |s.retRows|;
  }

  lemma ReacceptParts(s: Sections, did: string, p: Proposal, added: string, r: nat, today: string)
    requires Valid(s) && ValidId(did) && Restorable(s, did, p, added, r)
    ensures var first := StepS(s, DeclineOf(did, p), today);
            && first.Ok?
            && StepS(first.value.s, AcceptOf(did, p), today)
               == Ok(Edit(s.(rows := SetRow(DropRows(s.rows, did), did, RenderIndexRow(did, p))), [Action(did, ReAccepted)]))
  {
    hide Valid, RenderEntry, OwnedAdded, FirstStatus, FirstAdded, RowId, DropRows, RetireBody, HeadingTitle, RenderRetiredRow, TextLength,
      RenderIndexRow, EntryIndex, IsTemplate, RowIndex, SetRow, SameLines, ReplaceBody, IsServiceOwned, NewAddedLine;
    var k := EntryIndex(s.entries, did);
    var body := s.entries[k].body;
    RetireParts(s, did, p, added, r, today);
    ReacceptRendered(did, p, added, body);
    var s1 := StepS(s, DeclineOf(did, p), today).value.s;
    BodyOfSet(s, k, RetireBody(body), did);
    assert EntryIndex(s1.entries, did) == k;
    assert s1.entries[k].body == RetireBody(body);
    var title := HeadingTitle(body[0]);
    RenderedRows(did, p, title);
    RetiredRowGoes(s.retRows, did, RenderRetiredRow(did, title));
    var entry := RenderEntry(did, p, added);
    var s2 := SetBody(s1, k, ReplaceBody(s1.entries[k].body, entry));
    assert s2.entries == s.entries;
  }

  lemma RetiredRowGoes(rows: seq<string>, did: string, row: string)
    requires NoRow(rows, did) && RowId(row) == Some(did)
    ensures DropRows(rows + [row], did) == rows
  {
    hide RowId;
    DropNone(rows, did);
    assert (rows + [row])[..|rows|] == rows;
  }

  /**
   * Decline, export, accept again, export: the document is restored exactly when the Index
   * row stood where its number belongs. Everything else is restored whatever the Index order.
   */
  lemma RetireThenReaccept(s: Sections, did: string, p: Proposal, added: string, r: nat, today: string)
    requires Valid(s) && ValidId(did) && Restorable(s, did, p, added, r) && |today| <= 10
    ensures var first := Apply(Flat(s), [DeclineOf(did, p)], today);
            && first.Ok?
            && var second := Apply(first.value.doc, [AcceptOf(did, p)], today);
            && second.Ok?
            && second.value.events == [Action(did, ReAccepted)]
            && (second.value.doc == Flat(s) <==> InPlace(s.rows, r, Number(did)))
  {
    hide Valid, Restorable, StepS, Apply, InPlace, OnlyRow, RenderIndexRow, DropRows, SetRow, RowId, FlatEntries, Number;
    RetireParts(s, did, p, added, r, today);
    ReacceptParts(s, did, p, added, r, today);
    OneDecision(s, DeclineOf(did, p), today);
    var s1 := StepS(s, DeclineOf(did, p), today).value.s;
    OneDecision(s1, AcceptOf(did, p), today);
    RestorableRow(s, did, p, added, r);
    RowReturns(s.rows, r, did, RenderIndexRow(did, p));
    FlatDependsOnRows(s, SetRow(DropRows(s.rows, did), did, RenderIndexRow(did, p)));
  }

  lemma RestorableRow(s: Sections, did: string, p: Proposal, added: string, r: nat)
    requires Restorable(s, did, p, added, r)
    ensures OnlyRow(s.rows, r, did) && s.rows[r] == RenderIndexRow(did, p)
  {}

  lemma FlatDependsOnRows(s: Sections, rows: seq<string>)
    ensures Flat(s.(rows := rows)) == Flat(s) <==> rows == s.rows
  {
    hide FlatEntries;
    FlatAtIndex(s);
    FlatAtIndex(s.(rows := rows));
    var h, b := s.head, BelowIndex(s);
    if h + rows + b == h + s.rows + b {
      assert |rows| == |s.rows|;
      assert (h + rows + b)[|h|..|h| + |rows|] == rows;
      assert (h + s.rows + b)[|h|..|h| + |s.rows|] == s.rows;
    }
  }

  /** A run of one decision that the parts accept. */
  lemma OneDecision(s: Sections, t: Target, today: string)
    requires Valid(s) && ValidId(t.did) && |today| <= 10 && StepS(s, t, today).Ok?
    ensures Apply(Flat(s), [t], today) == Ok(Report(Flat(StepS(s, t, today).value.s), StepS(s, t, today).value.events))
    ensures Valid(StepS(s, t, today).value.s)
  {
    hide Valid, StepS, Step, Flat, CheckPreservation, FindTable, Touched, Appended;
    Tables(s);
    var ts := [t];
    assert ts[..0] == [] && ts[0] == t;
    var e := StepS(s, t, today).value;
    assert StepsS(s, [], today) == Ok(Edit(s, []));
    assert [] + e.events == e.events;
    assert StepsS(s, ts, today) == Ok(e);
    StepsRefine(s, ts, today);
    CheckPasses(s, ts, today, e);
  }
}
