/** What a run writes, read back from the document: the words of every field, entry and row. */
module DirectiveContent {
  import opened Options
  import opened Text
  import opened TextWords
  import opened DirectiveLines
  import opened DirectiveCells
  import opened DirectiveEntries
  import opened DirectiveDoc
  import opened DirectiveSections
  import opened DirectiveRefine
  import opened DirectiveStep
  import opened DirectivePreservation
  import opened DirectiveDecisions

  // ------------------------------------------------------------------
  // What a document holds about one id
  // ------------------------------------------------------------------

  datatype Held = Held(body: Option<seq<string>>, index: seq<string>, retired: seq<string>)

  /** The rows of one id, in their order. */
  function RowsOf(rows: seq<string>, did: string): seq<string> {
    if rows == [] then []
    else RowsOf(rows[..|rows| - 1], did) + (if RowId(rows[|rows| - 1]) == Some(did) then [rows[|rows| - 1]] else [])
  }

  function TableRows(doc: Doc, kind: Table): seq<string> {
    var rows := FindTable(doc, kind);
    if rows.Ok? then doc[rows.value.start..rows.value.end] else []
  }

  function HeldIn(doc: Doc, did: string): (h: Held)
    ensures h.body.Some? ==> h.body.value != []
  {
    Held(EntryText(doc, did), RowsOf(TableRows(doc, Index), did), RowsOf(TableRows(doc, Retired), did))
  }

  // ------------------------------------------------------------------
  // What an entry and a row say
  // ------------------------------------------------------------------

  /** The template of an entry, line by line. */
  predicate Reads(lines: seq<string>, did: string, p: Proposal, added: string) {
    var example := Clean(p.example);
    && |lines| == (if example == "" then 7 else 8)
    && lines[0] == "### " + did + " — " + Clean(p.title)
    && lines[1] == "- **Applies when:** " + Clean(p.appliesWhen)
    && lines[2] == "- **Status:** active"
    && lines[3] == "- **Rule:** " + Clean(p.rule)
    && lines[4] == "- **Rationale:** " + Clean(p.rationale)
    && lines[5] == "- **Reviewer check:** " + Clean(p.reviewerCheck)
    && (example != "" ==>
          && "- **Example:** Illustrative — " <= lines[6]
          && lines[6] in {"- **Example:** " + example, "- **Example:** Illustrative — " + example}
          && ("Illustrative — " <= example ==> lines[6] == "- **Example:** " + example))
    && lines[|lines| - 1] == "- **Added:** " + added
  }

  /** The template, then blank lines. */
  predicate HoldsEntry(body: seq<string>, did: string, p: Proposal, added: string) {
    exists n :: 0 <= n <= |body| && Reads(body[..n], did, p, added) && forall l <- body[n..] :: IsBlankLine(l)
  }

  /** The entry says the same, up to white space at line ends and blank lines at its end. */
  ghost predicate SaysSame(body: seq<string>, did: string, p: Proposal, added: string) {
    exists lines :: Reads(lines, did, p, added)
      && ContentLen(body) == |lines| && forall i :: 0 <= i < |lines| ==> RStrip(lines[i]) == RStrip(body[i])
  }

  /** The text behind the first Added bullet, without the blanks around it. */
  predicate AddedReads(body: seq<string>, added: string) {
    exists i :: 0 <= i < |body| && "- **Added:**" <= body[i] && added == TrimBlanks(body[i][12..])
      && forall j :: 0 <= j < i ==> !("- **Added:**" <= body[j])
  }

  predicate IndexReads(row: string, did: string, p: Proposal) {
    Cells(row) == [did, Cell(p.title), Cell(Short(Clean(p.appliesWhen))), "active"]
  }

  /** The title of the Retired row is what stands behind the dash of the heading. */
  predicate RetiredReads(row: string, did: string, heading: string) {
    var front := "### " + did + " — ";
    front <= heading && Cells(row) == [did, Cell(heading[|front|..]), "deprecated", "—"]
  }

  /** The first status value becomes "deprecated", and nothing else changes. */
  ghost predicate StatusTurned(before: seq<string>, after: seq<string>) {
    exists i, pre, post ::
      && 0 <= i < |before| && (forall j :: 0 <= j < i ==> StatusOf(before[j]).None?)
      && before[i] == "- **Status:**" + pre + "active" + post && AllBlank(pre) && AllBlank(post)
      && after == before[i := "- **Status:**" + pre + "deprecated" + post]
  }

  /** The day of the decision, or today, then the two fixed fields. */
  function NewAdded(t: Target, today: string): string {
    var time := t.proposal.decidedAt;
    (if time == "" then today else if |time| <= 10 then time else time[..10])
    + " · **Source:** " + "bishop-memory triage" + " · **Evidence:** " + t.evidence
  }

  // ------------------------------------------------------------------
  // What one decision does
  // ------------------------------------------------------------------

  /** An accepted directive that the document lacks: its entry and a last Index row. */
  predicate IsAdded(v: Held, w: Held, t: Target, today: string, events: seq<Event>) {
    && events == [Action(t.did, NewEntry)]
    && w.body.Some? && HoldsEntry(w.body.value, t.did, t.proposal, NewAdded(t, today))
    && |w.index| == |v.index| + 1 && w.index[..|v.index|] == v.index && IndexReads(w.index[|v.index|], t.did, t.proposal)
    && w.retired == v.retired
  }

  /** An accepted directive whose entry says something else, or is retired. */
  ghost predicate IsAmended(v: Held, w: Held, t: Target, events: seq<Event>)
    requires v.body.Some?
  {
    var again := FirstStatus(v.body.value) == Some("deprecated");
    && events == [Action(t.did, if again then ReAccepted else Amended)]
    && (exists added, space: string ::
          && AddedReads(v.body.value, added) && !SaysSame(v.body.value, t.did, t.proposal, added)
          && AllSpace(space) && w.body.Some? && HoldsEntry(w.body.value, t.did, t.proposal, added + space))
    && w.index != [] && IndexReads(w.index[0], t.did, t.proposal)
    && w.index[1..] == (if v.index == [] then [] else v.index[1..])
    && w.retired == (if again then [] else v.retired)
  }

  /** A declined directive that is active. */
  ghost predicate IsRetiring(v: Held, w: Held, t: Target, events: seq<Event>)
    requires v.body.Some? && v.body.value != []
  {
    && events == [Action(t.did, RetiredEntry)]
    && w.body.Some? && StatusTurned(v.body.value, w.body.value)
    && w.index == []
    && (if v.retired != [] then w.retired == v.retired
        else |w.retired| == 1 && RetiredReads(w.retired[0], t.did, v.body.value[0]))
  }

  /** What a decision must do, for what the document held about its id before and after. */
  ghost predicate Carried(v: Held, w: Held, t: Target, today: string, events: seq<Event>)
    requires v.body.Some? ==> v.body.value != []
  {
    if v.body.None? then
      if t.decision == Accepted then IsAdded(v, w, t, today, events) else w == v && events == [Note(t.did)]
    else if !IsServiceOwned(v.body.value) then w == v && events == [Conflict(t.did)]
    else if t.decision == Accepted then
      || IsAmended(v, w, t, events)
      || (w == v && events == [] && exists added :: AddedReads(v.body.value, added) && SaysSame(v.body.value, t.did, t.proposal, added))
    else if FirstStatus(v.body.value) == Some("deprecated") then
      w == v && events == if v.retired == [] then [Note(t.did)] else []
    else IsRetiring(v, w, t, events)
  }

  // ------------------------------------------------------------------
  // Rows under the edits
  // ------------------------------------------------------------------

  lemma {:induction false} RowsOfSplit(a: seq<string>, b: seq<string>, did: string)
    ensures RowsOf(a + b, did) == RowsOf(a, did) + RowsOf(b, did)
    decreases |b|
  {
    hide RowId;
    if b == [] {
      assert a + b == a;
    } else {
      var n := |b| - 1;
      assert (a + b)[..|a + b| - 1] == a + b[..n] && (a + b)[|a + b| - 1] == b[n];
      RowsOfSplit(a, b[..n], did);
    }
  }

  lemma RowsOfOne(row: string, did: string)
    ensures RowsOf([row], did) == if RowId(row) == Some(did) then [row] else []
  {
    hide RowId;
    assert [row][..0] == [];
  }

  lemma RowsOfAppend(rows: seq<string>, row: string, did: string)
    ensures RowsOf(rows + [row], did) == RowsOf(rows, did) + (if RowId(row) == Some(did) then [row] else [])
  {
    RowsOfSplit(rows, [row], did);
    RowsOfOne(row, did);
  }

  lemma DropOneMore(front: seq<string>, row: string, did: string)
    ensures DropRows(front + [row], did) == DropRows(front, did) + (if RowId(row) == Some(did) then [] else [row])
  {
    hide RowId;
    assert (front + [row])[..|front|] == front;
  }

  lemma {:induction false} RowsOfDrop(rows: seq<string>, did: string, d: string)
    ensures RowsOf(DropRows(rows, did), d) == if d == did then [] else RowsOf(rows, d)
    decreases |rows|
  {
    hide RowId, RowsOf, DropRows;
    if rows == [] {
      NoRows(did, d);
    } else {
      var n := |rows| - 1;
      var front, row := rows[..n], rows[n];
      assert rows == front + [row];
      RowsOfDrop(front, did, d);
      DropOneMore(front, row, did);
      RowsOfAppend(front, row, d);
      if RowId(row) != Some(did) {
        RowsOfAppend(DropRows(front, did), row, d);
      } else {
        assert DropRows(front, did) + [] == DropRows(front, did);
      }
    }
  }

  lemma NoRows(did: string, d: string)
    ensures RowsOf([], d) == [] && DropRows([], did) == []
  {}

  lemma {:induction false} RowsOfNone(rows: seq<string>, did: string)
    requires forall i :: 0 <= i < |rows| ==> RowId(rows[i]) != Some(did)
    ensures RowsOf(rows, did) == []
  {
    hide RowId;
    if rows != [] {
      RowsOfNone(rows[..|rows| - 1], did);
    }
  }

  lemma RowsOfMiddle(a: seq<string>, row: string, b: seq<string>, did: string)
    ensures RowsOf(a + [row] + b, did) == RowsOf(a, did) + (if RowId(row) == Some(did) then [row] else []) + RowsOf(b, did)
  {
    RowsOfSplit(a + [row], b, did);
    RowsOfAppend(a, row, did);
  }

  lemma RowsOfSet(rows: seq<string>, did: string, row: string, d: string)
    requires RowId(row) == Some(did)
    ensures var before, after := RowsOf(rows, d), RowsOf(SetRow(rows, did, row), d);
            if d != did then after == before
            else after != [] && after[0] == row && after[1..] == if before == [] then [] else before[1..]
  {
    hide RowId, RowIndex, FirstAbove, Number, RowAbove, RowsOf;
    var k := RowIndex(rows, did);
    if k < |rows| {
      assert rows == rows[..k] + [rows[k]] + rows[k + 1..];
      assert rows[k := row] == rows[..k] + [row] + rows[k + 1..];
      RowsOfMiddle(rows[..k], rows[k], rows[k + 1..], d);
      RowsOfMiddle(rows[..k], row, rows[k + 1..], d);
      RowsOfNone(rows[..k], did);
    } else {
      var at := FirstAbove(rows, Number(did));
      RowsOfMiddle(rows[..at], row, rows[at..], d);
      assert rows == rows[..at] + rows[at..];
      RowsOfSplit(rows[..at], rows[at..], d);
      RowsOfNone(rows, did);
    }
  }

  lemma HasRowOf(rows: seq<string>, did: string)
    ensures RowsOf(rows, did) == [] <==> RowIndex(rows, did) == |rows|
  {
    hide RowId, RowsOf;
    var k := RowIndex(rows, did);
    if k < |rows| {
      assert rows == rows[..k] + [rows[k]] + rows[k + 1..];
      RowsOfMiddle(rows[..k], rows[k], rows[k + 1..], did);
    } else {
      RowsOfNone(rows, did);
    }
  }

  // ------------------------------------------------------------------
  // Bodies under the edits
  // ------------------------------------------------------------------

  lemma RenderedReads(did: string, p: Proposal, added: string)
    ensures Reads(RenderEntry(did, p, added), did, p, added)
  {
    hide Clean;
    var e := Clean(p.example);
    if e != "" && EXAMPLE_PREFIX <= e {
      assert "- **Example:** " + e == "- **Example:** " + EXAMPLE_PREFIX + e[|EXAMPLE_PREFIX|..];
    }
    assert "- **Example:** Illustrative — " == "- **Example:** " + EXAMPLE_PREFIX;
    assert "- **Example:** " + (EXAMPLE_PREFIX + e) == "- **Example:** Illustrative — " + e;
  }

  lemma WrittenHolds(did: string, p: Proposal, added: string, t: string, blanks: seq<string>, body: seq<string>)
    requires Written(did, p, added, t, blanks, body)
    ensures HoldsEntry(body, did, p, added + t)
  {
    hide RenderEntry, RenderFront, Reads, IsBlankLine;
    RenderSplits(did, p, added + t);
    RenderedReads(did, p, added + t);
    var lines := RenderEntry(did, p, added + t);
    Assoc(ADDED + " ", added, t);
    assert body == lines + blanks;
    assert body[..|lines|] == lines && body[|lines|..] == blanks;
  }

  // ------------------------------------------------------------------
  // Comparing, finding the Added bullet, turning the status
  // ------------------------------------------------------------------

  lemma {:induction false} StrippedLines(lines: seq<string>)
    ensures RStripLines(lines) == seq(ContentLen(lines), i requires 0 <= i < ContentLen(lines) => RStrip(lines[i]))
  {
    hide RStrip, IsBlankLine;
    if lines != [] && IsBlankLine(lines[|lines| - 1]) {
      StrippedLines(lines[..|lines| - 1]);
    }
  }

  lemma SameLinesIff(lines: seq<string>, body: seq<string>)
    requires lines != [] && !IsBlankLine(lines[|lines| - 1])
    ensures SameLines(lines, body) <==>
              ContentLen(body) == |lines| && forall i :: 0 <= i < |lines| ==> RStrip(lines[i]) == RStrip(body[i])
  {
    hide RStrip, IsBlankLine, RStripLines, ContentLen;
    StrippedLines(lines);
    StrippedLines(body);
    NoBlankEnd(lines);
    var a, b := RStripLines(lines), RStripLines(body);
    if a == b {
      assert |a| == |b|;
      assert forall i :: 0 <= i < |lines| ==> a[i] == RStrip(lines[i]) && b[i] == RStrip(body[i]);
    }
  }

  lemma NoBlankEnd(lines: seq<string>)
    requires lines != [] && !IsBlankLine(lines[|lines| - 1])
    ensures ContentLen(lines) == |lines|
  {}

  /** The template fixes every line. */
  lemma ReadsOnce(a: seq<string>, b: seq<string>, did: string, p: Proposal, added: string)
    requires Reads(a, did, p, added) && Reads(b, did, p, added)
    ensures a == b
  {
    hide Clean;
    var e := Clean(p.example);
    if e != "" {
      ExampleOnce(a[6], b[6], e);
    }
  }

  lemma ExampleOnce(a: string, b: string, e: string)
    requires a in {"- **Example:** " + e, "- **Example:** Illustrative — " + e}
    requires b in {"- **Example:** " + e, "- **Example:** Illustrative — " + e}
    requires "- **Example:** Illustrative — " <= a && "- **Example:** Illustrative — " <= b
    requires "Illustrative — " <= e ==> a == "- **Example:** " + e && b == a
    ensures a == b
  {
    var line := "- **Example:** " + e;
    if "- **Example:** Illustrative — " <= line {
      assert line[15..] == e;
      assert line[15..30] == "Illustrative — ";
      assert "Illustrative — " <= e;
    }
  }

  /** The exporter leaves an entry alone exactly when it says the same already. */
  lemma SaysSameIff(body: seq<string>, did: string, p: Proposal, added: string)
    ensures SameLines(RenderEntry(did, p, added), body) <==> SaysSame(body, did, p, added)
  {
    hide SameLines, Reads, RStrip, IsBlankLine, ContentLen, RenderEntry, RenderFront;
    var lines := RenderEntry(did, p, added);
    RenderedReads(did, p, added);
    RenderSplits(did, p, added);
    AddedLineIsNotBlank(added);
    LastLineStays(lines, added);
    SameLinesIff(lines, body);
    if SaysSame(body, did, p, added) {
      var other :| Reads(other, did, p, added)
        && ContentLen(body) == |other| && forall i :: 0 <= i < |other| ==> RStrip(other[i]) == RStrip(body[i]);
      ReadsOnce(other, lines, did, p, added);
    }
  }

  lemma LastLineStays(lines: seq<string>, added: string)
    requires lines != [] && lines[|lines| - 1] == ADDED + " " + added && RStrip(ADDED + " " + added) != ""
    ensures !IsBlankLine(lines[|lines| - 1])
  {}

  lemma {:induction false} FirstAddedReads(body: seq<string>)
    requires FirstAdded(body).Some?
    ensures AddedReads(body, FirstAdded(body).value)
  {
    hide TrimBlanks;
    assert "- **Added:**" == ADDED;
    if AddedOf(body[0]).Some? {
      assert ADDED <= body[0];
    } else {
      FirstAddedReads(body[1..]);
      var added := FirstAdded(body).value;
      var i :| 0 <= i < |body| - 1 && ADDED <= body[1..][i] && added == TrimBlanks(body[1..][i][12..])
        && forall j :: 0 <= j < i ==> !(ADDED <= body[1..][j]);
      AddedBehind(body, i, added);
    }
  }

  lemma AddedBehind(body: seq<string>, i: nat, added: string)
    requires i + 1 < |body| && !(ADDED <= body[0]) && ADDED <= body[1..][i] && added == TrimBlanks(body[1..][i][12..])
    requires forall j :: 0 <= j < i ==> !(ADDED <= body[1..][j])
    ensures AddedReads(body, added)
  {
    hide TrimBlanks;
    assert body[i + 1] == body[1..][i];
    assert forall j :: 1 <= j < i + 1 ==> body[j] == body[1..][j - 1];
  }

  lemma {:induction false} RetireAtFirst(body: seq<string>) returns (i: nat)
    requires FirstStatus(body).Some?
    ensures i < |body| && StatusOf(body[i]).Some? && StatusOf(body[i]).value.value == FirstStatus(body).value
    ensures forall j :: 0 <= j < i ==> StatusOf(body[j]).None?
    ensures RetireBody(body) == body[i := StatusOf(body[i]).value.pre + "deprecated" + StatusOf(body[i]).value.post]
  {
    hide StatusOf;
    if StatusOf(body[0]).Some? {
      i := 0;
    } else {
      i := RetireAtFirst(body[1..]);
      i := i + 1;
      assert body == [body[0]] + body[1..];
    }
  }

  lemma StatusTurns(body: seq<string>)
    requires FirstStatus(body) == Some("active")
    ensures StatusTurned(body, RetireBody(body))
  {
    hide StatusOf, RetireBody, FirstStatus;
    var i := RetireAtFirst(body);
    StatusParts(body[i]);
    var s := StatusOf(body[i]).value;
    var pre := s.pre[|STATUS|..];
    assert s.pre == "- **Status:**" + pre;
  }

  // ------------------------------------------------------------------
  // One decision, on the parts
  // ------------------------------------------------------------------

  function HeldS(s: Sections, did: string): Held {
    Held(BodyOf(s, did), RowsOf(s.rows, did), RowsOf(s.retRows, did))
  }

  lemma HeldRefines(s: Sections, did: string)
    requires Valid(s)
    ensures HeldIn(Flat(s), did) == HeldS(s, did)
  {
    hide Valid, Flat, FindTable, EntryText, BodyOf, RowsOf;
    Tables(s);
    TextOfBody(s, did);
    TableSlices(s);
  }

  lemma TableSlices(s: Sections)
    ensures var n := |s.head|; n + |s.rows| <= |Flat(s)| && Flat(s)[n..n + |s.rows|] == s.rows
    ensures var n := |AboveRetired(s)| + |s.ret|; n + |s.retRows| <= |Flat(s)| && Flat(s)[n..n + |s.retRows|] == s.retRows
  {
    hide Flat, FlatEntries, AboveRetired, BelowIndex;
    FlatAtIndex(s);
    FlatAtRetired(s);
  }

  lemma AfterDate(date: string)
    ensures date + " · " + SOURCE + " " == date + " · **Source:** "
  {
    assert " · " + SOURCE + " " == " · **Source:** ";
    assert date + " · " + SOURCE + " " == date + (" · " + SOURCE + " ");
  }

  lemma NewAddedIs(t: Target, today: string)
    ensures NewAddedLine(DateOf(t.proposal, today), t.evidence) == NewAdded(t, today)
  {
    AfterDate(DateOf(t.proposal, today));
  }

  lemma AddNewCarries(s: Sections, t: Target, today: string, e: Edit)
    requires ValidId(t.did) && EntryIndex(s.entries, t.did) == |s.entries| && AddNewS(s, t, today) == Ok(e)
    ensures IsAdded(HeldS(s, t.did), HeldS(e.s, t.did), t, today, e.events)
  {
    hide EntryIndex, RenderEntry, RenderIndexRow, TextLength, NewAddedLine, NewAdded, DateOf, Written, RowsOf, HoldsEntry, Cells, Cell, Clean, RowId;
    var added := NewAddedLine(DateOf(t.proposal, today), t.evidence);
    NewAddedIs(t, today);
    var body := RenderEntry(t.did, t.proposal, added) + [""];
    NewBodyIsWritten(t.did, t.proposal, added);
    WrittenHolds(t.did, t.proposal, added, "", [""], body);
    assert added + "" == added;
    BodyOfAdd(s, t.did, body, t.did);
    assert BodyOf(e.s, t.did) == Some(body);
    var row := RenderIndexRow(t.did, t.proposal);
    RenderedRows(t.did, t.proposal, "");
    IndexRowCells(t.did, t.proposal);
    RowsOfAppend(s.rows, row, t.did);
  }

  lemma AmendCarries(s: Sections, t: Target, today: string, k: nat, e: Edit)
    requires k < |s.entries| && k == EntryIndex(s.entries, t.did) && s.entries[k].id == t.did && ValidId(t.did)
    requires IsEntry(t.did, s.entries[k].body) && IsServiceOwned(s.entries[k].body)
    requires AmendS(s, t, today, k) == Ok(e) && t.decision == Accepted
    ensures Carried(HeldS(s, t.did), HeldS(e.s, t.did), t, today, e.events)
  {
    hide EntryIndex, RenderEntry, RenderIndexRow, TextLength, NewAddedLine, RowsOf, HoldsEntry, Cells, Cell, Clean, RowId,
      SameLines, SaysSame, AddedReads, FirstStatus, FirstAdded, IsServiceOwned, IsTemplate, ReplaceBody, Written, SetRow, DropRows, Trail,
      IsBlankLine, IsEntry;
    var body := s.entries[k].body;
    OwnedHasAdded(body);
    FirstAddedReads(body);
    var added := FirstAdded(body).value;
    SaysSameIff(body, t.did, t.proposal, added);
    if e.events != [] {
      EntryStarts(t.did, body);
      ReplaceIsWritten(t.did, t.proposal, added, body);
      var n := ContentLen(body);
      RenderNotEmpty(t.did, t.proposal, added);
      var written := ReplaceBody(body, RenderEntry(t.did, t.proposal, added));
      WrittenHolds(t.did, t.proposal, added, Trail(body[n - 1]), body[n..], written);
      BodyOfSet(s, k, written, t.did);
      assert e.s.entries == SetBody(s, k, written).entries;
      RenderedRows(t.did, t.proposal, "");
      IndexRowCells(t.did, t.proposal);
      RowsOfSet(s.rows, t.did, RenderIndexRow(t.did, t.proposal), t.did);
      RowsOfDrop(s.retRows, t.did, t.did);
    }
  }

  lemma EntryStarts(did: string, body: seq<string>)
    requires IsEntry(did, body)
    ensures body != [] && !IsBlankLine(body[0]) && DirId(body[0]) == Some(did)
  {
    DirIdIsSection(body[0]);
  }

  lemma DeclineCarries(s: Sections, t: Target, today: string, k: nat, e: Edit)
    requires k < |s.entries| && k == EntryIndex(s.entries, t.did) && s.entries[k].id == t.did && ValidId(t.did)
    requires IsEntry(t.did, s.entries[k].body) && IsServiceOwned(s.entries[k].body)
    requires DeclineS(s, t, k) == Ok(e) && t.decision == Declined
    ensures Carried(HeldS(s, t.did), HeldS(e.s, t.did), t, today, e.events)
  {
    hide EntryIndex, RowsOf, Cells, Cell, Clean, RowId, FirstStatus, FirstAdded, IsServiceOwned, DropRows, RetireBody, RowIndex,
      RenderRetiredRow, IsEntry, HeadingTitle, StatusTurned, DirId;
    var body := s.entries[k].body;
    EntryStarts(t.did, body);
    HasRowOf(s.retRows, t.did);
    if FirstStatus(body) != Some("deprecated") {
      StatusTurns(body);
      BodyOfSet(s, k, RetireBody(body), t.did);
      assert e.s.entries == SetBody(s, k, RetireBody(body)).entries;
      RowsOfDrop(s.rows, t.did, t.did);
      RetiredRowReads(t.did, body[0]);
      RowsOfAppend(s.retRows, RenderRetiredRow(t.did, TitleOf(body)), t.did);
    }
  }

  lemma RetiredRowReads(did: string, heading: string)
    requires ValidId(did) && DirId(heading) == Some(did)
    ensures var row := RenderRetiredRow(did, HeadingTitle(heading));
            RowId(row) == Some(did) && RetiredReads(row, did, heading)
  {
    hide Cells, Clean, EscapePipes, RowId, Strip, DirId, ValidId, HeadingTitle;
    var title := HeadingParts(heading, did);
    RenderedRows(did, NoProposal(), HeadingTitle(heading));
    RetiredRowCells(did, HeadingTitle(heading));
    CleanStrip(title);
    var front := "### " + did + " — ";
    assert heading[|front|..] == title;
  }

  function NoProposal(): Proposal { Proposal("", "", "", "", "", "", "") }

  /** A decision does to its own id what it must, and nothing to what the document holds about another. */
  lemma StepCarries(s: Sections, t: Target, today: string, e: Edit)
    requires Valid(s) && ValidId(t.did) && StepS(s, t, today) == Ok(e)
    ensures HeldS(s, t.did).body.Some? ==> HeldS(s, t.did).body.value != []
    ensures Carried(HeldS(s, t.did), HeldS(e.s, t.did), t, today, e.events)
  {
    hide Valid, EntryIndex, RowsOf, AddNewS, AmendS, DeclineS, IsServiceOwned, IsAdded, FirstStatus, ValidId, DirId, IsSection, IsTemplate;
    var k := EntryIndex(s.entries, t.did);
    if k == |s.entries| {
      if t.decision == Accepted {
        AddNewCarries(s, t, today, e);
      }
    } else {
      ValidEntryAt(s, k);
      if IsServiceOwned(s.entries[k].body) {
        if t.decision == Accepted {
          AmendCarries(s, t, today, k, e);
        } else {
          DeclineCarries(s, t, today, k, e);
        }
      }
    }
  }

  lemma StepLeaves(s: Sections, t: Target, today: string, e: Edit, d: string)
    requires StepS(s, t, today) == Ok(e) && d != t.did && ValidId(t.did)
    ensures HeldS(e.s, d) == HeldS(s, d)
  {
    hide EntryIndex, RowId, FirstStatus, FirstAdded, RowsOf, IsServiceOwned, DropRows, RetireBody, RenderRetiredRow, TitleOf, RowIndex, SetRow,
      RenderEntry, RenderIndexRow, TextLength, NewAddedLine, SameLines, IsTemplate, ReplaceBody, BodyOf;
    OtherBodies(s, t, today, e, d);
    var row := RenderIndexRow(t.did, t.proposal);
    RenderedRows(t.did, t.proposal, "");
    RowsOfAppend(s.rows, row, d);
    RowsOfSet(s.rows, t.did, row, d);
    RowsOfDrop(s.rows, t.did, d);
    RowsOfDrop(s.retRows, t.did, d);
    var k := EntryIndex(s.entries, t.did);
    if k < |s.entries| {
      var title := TitleOf(s.entries[k].body);
      RenderedRows(t.did, t.proposal, title);
      RowsOfAppend(s.retRows, RenderRetiredRow(t.did, title), d);
    }
  }

  // ------------------------------------------------------------------
  // Whole runs
  // ------------------------------------------------------------------

  /** The events about one id, in their order. */
  function EventsOf(events: seq<Event>, did: string): seq<Event> {
    if events == [] then []
    else EventsOf(events[..|events| - 1], did) + (if events[|events| - 1].did == did then [events[|events| - 1]] else [])
  }

  /** A decision yields at most one event, about its own id. */
  lemma EventsOfLast(before: seq<Event>, last: seq<Event>, t: Target, did: string)
    requires |last| <= 1 && forall x <- last :: x.did == t.did
    ensures EventsOf(before + last, did) == EventsOf(before, did) + (if did == t.did then last else [])
  {
    if last == [] {
      assert before + last == before;
    } else {
      assert (before + last)[..|before + last| - 1] == before;
      assert last == [last[0]];
    }
  }

  /** Nothing is done to an id that no decision names. */
  lemma {:induction false} RunLeaves(s: Sections, targets: seq<Target>, today: string, e: Edit, d: string)
    requires Valid(s) && ValidTargets(targets) && StepsS(s, targets, today) == Ok(e)
    requires forall t <- targets :: t.did != d
    ensures HeldS(e.s, d) == HeldS(s, d) && EventsOf(e.events, d) == []
  {
    hide Valid, Flat, StepS, ValidId, HeldS;
    if targets != [] {
      var n := |targets| - 1;
      var t := targets[n];
      assert t in targets && forall u <- targets[..n] :: u in targets;
      ValidPrefix(targets, n);
      StepsRefine(s, targets[..n], today);
      var before := StepsS(s, targets[..n], today).value;
      RunLeaves(s, targets[..n], today, before, d);
      var last := StepS(before.s, t, today).value;
      StepLeaves(before.s, t, today, last, d);
      NoActionNoChange(before.s, t, today, last);
      EventsOfLast(before.events, last.events, t, d);
      assert e.events == before.events + last.events;
    }
  }

  /** What a run does to the id of each of its decisions is what that decision must do. */
  lemma {:induction false} RunCarries(s: Sections, targets: seq<Target>, today: string, e: Edit, t: Target)
    requires Valid(s) && ValidTargets(targets) && StepsS(s, targets, today) == Ok(e)
    requires t in targets
    ensures HeldS(s, t.did).body.Some? ==> HeldS(s, t.did).body.value != []
    ensures Carried(HeldS(s, t.did), HeldS(e.s, t.did), t, today, EventsOf(e.events, t.did))
  {
    hide Valid, Flat, StepS, ValidId, HeldS, Carried;
    var n := |targets| - 1;
    var last := targets[n];
    assert last in targets;
    ValidPrefix(targets, n);
    StepsRefine(s, targets[..n], today);
    var before := StepsS(s, targets[..n], today).value;
    var step := StepS(before.s, last, today).value;
    NoActionNoChange(before.s, last, today, step);
    EventsOfLast(before.events, step.events, last, t.did);
    assert e == Edit(step.s, before.events + step.events);
    if t == last {
      assert forall u <- targets[..n] :: u.did != t.did;
      RunLeaves(s, targets[..n], today, before, t.did);
      StepCarries(before.s, t, today, step);
      assert [] + step.events == step.events;
    } else {
      InFront(targets, t);
      assert t.did != last.did;
      RunCarries(s, targets[..n], today, before, t);
      StepLeaves(before.s, last, today, step, t.did);
      assert EventsOf(before.events, t.did) + [] == EventsOf(before.events, t.did);
    }
  }

  lemma InFront(targets: seq<Target>, t: Target)
    requires t in targets && t != targets[|targets| - 1] && ValidTargets(targets)
    ensures t in targets[..|targets| - 1] && t.did != targets[|targets| - 1].did
  {
    hide ValidId;
    var i :| 0 <= i < |targets| && targets[i] == t;
    assert targets[..|targets| - 1][i] == t;
  }

  /**
   * A run that is not refused does to every id what its decision must, as read from the written
   * document, reports just that, and leaves what the document holds about every other id.
   */
  lemma RunWritesDecisions(doc: Doc, targets: seq<Target>, today: string)
    requires WellFormed(doc) && ValidTargets(targets) && Apply(doc, targets, today).Ok?
    ensures var r := Apply(doc, targets, today).value;
            && (forall t <- targets :: Carried(HeldIn(doc, t.did), HeldIn(r.doc, t.did), t, today, EventsOf(r.events, t.did)))
            && (forall d :: (forall t <- targets :: t.did != d) ==> HeldIn(r.doc, d) == HeldIn(doc, d) && EventsOf(r.events, d) == [])
  {
    hide Valid, Flat, StepsS, Steps, FindTable, CheckPreservation, HeldIn, HeldS, Carried, ValidId, EventsOf;
    var s :| Valid(s) && Flat(s) == doc;
    StepsRefine(s, targets, today);
    var e := StepsS(s, targets, today).value;
    var r := Apply(doc, targets, today).value;
    assert r == Report(Flat(e.s), e.events) && Valid(e.s);
    forall t | t in targets
      ensures Carried(HeldIn(doc, t.did), HeldIn(r.doc, t.did), t, today, EventsOf(r.events, t.did))
    {
      RunCarries(s, targets, today, e, t);
      HeldRefines(s, t.did);
      HeldRefines(e.s, t.did);
    }
    forall d | forall t <- targets :: t.did != d
      ensures HeldIn(r.doc, d) == HeldIn(doc, d) && EventsOf(r.events, d) == []
    {
      RunLeaves(s, targets, today, e, d);
      HeldRefines(s, d);
      HeldRefines(e.s, d);
    }
  }
}
