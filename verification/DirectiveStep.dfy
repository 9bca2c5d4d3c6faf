/** One decision applied to the text is the same decision applied to the parts. */
module DirectiveStep {
  import opened Options
  import opened Text
  import opened DirectiveLines
  import opened DirectiveEntries
  import opened DirectiveDoc
  import opened DirectiveSections
  import opened DirectiveRefine

  function Lift(r: Result<Edit>): Result<Report> {
    match r
    case Ok(e) => Ok(Report(Flat(e.s), e.events))
    case Err(refusal) => Err(refusal)
  }

  /** The text-level result is the parts-level result, and leaves a well-formed document. */
  predicate Refines(text: Result<Report>, parts: Result<Edit>) {
    text == Lift(parts) && (parts.Ok? ==> Valid(parts.value.s))
  }

  lemma InsertEntryRefines(s: Sections, did: string, entry: seq<string>)
    requires Valid(s) && EntryIndex(s.entries, did) == |s.entries|
    requires IsEntry(did, entry + [""])
    ensures var s' := s.(entries := s.entries + [Entry(did, entry + [""], [])]);
            Valid(s') && InsertEntry(Flat(s), entry) == Ok(Flat(s'))
  {
    hide Valid, IsEntry, FlatEntries, BlankBeforeRetired, NextRetired, FindTable, InsertEntry;
    Tables(s);
    AddEntryValid(s, did, entry + [""]);
    BlankAbove(s);
    BottomIsNotEmpty(s);
    InsertAbove(AboveRetired(s), Bottom(s), entry);
    Regroup5(Top(s), FlatEntries(s.entries), entry, [""], Bottom(s));
  }

  lemma BottomIsNotEmpty(s: Sections)
    requires Valid(s)
    ensures Bottom(s) != []
  {}

  lemma InsertAbove(a: seq<string>, b: seq<string>, entry: seq<string>)
    requires NextRetired(a + b, 0) == |a| < |a + b| && |a| >= 2 && a[|a| - 1] == ""
    ensures InsertEntry(a + b, entry) == Ok(a + entry + [""] + b)
  {
    hide NextRetired;
    assert (a + b)[..|a|] == a && (a + b)[|a|..] == b;
  }

  lemma Regroup5(a: seq<string>, b: seq<string>, c: seq<string>, d: seq<string>, e: seq<string>)
    ensures a + (b + (c + d)) + e == a + b + c + d + e
  {}

  lemma BlankAbove(s: Sections)
    requires Valid(s)
    ensures |AboveRetired(s)| >= 2 && AboveRetired(s)[|AboveRetired(s)| - 1] == ""
  {
    hide ValidEntries, FlatEntries, NoHeading, NoRetired, AllRows;
    var above := s.mid + FlatEntries(s.entries);
    assert AboveRetired(s) == (s.head + s.rows) + above;
  }

  lemma AppendIndexRefines(s: Sections, row: string)
    requires Valid(s) && IsRow(row)
    ensures Valid(s.(rows := s.rows + [row]))
    ensures AppendIndexRow(Flat(s), row) == Ok(Flat(s.(rows := s.rows + [row])))
  {
    hide Valid, FlatEntries, FindTable, IsRow;
    Tables(s);
    var s' := s.(rows := s.rows + [row]);
    SetRowsKeepsValid(s, s.rows + [row]);
    FlatAtIndex(s);
    FlatAtIndex(s');
    FirstBelowIsNoRow(s);
    InsertLineAt(s.head + s.rows, BelowIndex(s), row);
    assert s.head + s.rows + [row] == s.head + (s.rows + [row]);
  }

  lemma SetRowsKeepsValid(s: Sections, rows: seq<string>)
    requires Valid(s)
    requires forall l <- rows :: IsRow(l) || l in s.rows
    ensures Valid(s.(rows := rows))
  {
    hide IsRow, ValidEntries, NoHeading, NoRetired, EndsInHeader, IsRetired;
    SetRowsValid(s, rows);
  }

  lemma SetIndexRefines(s: Sections, did: string, row: string)
    requires Valid(s) && IsRow(row)
    ensures Valid(s.(rows := SetRow(s.rows, did, row)))
    ensures SetIndexRow(Flat(s), did, row) == Ok(Flat(s.(rows := SetRow(s.rows, did, row))))
  {
    hide Valid, FlatEntries, FindTable, IsRow, SetRow, SetRowIn;
    Tables(s);
    RowsAreRows(s);
    SetRowAllRows(s.rows, did, row);
    SetRowsKeepsValid(s, SetRow(s.rows, did, row));
    FlatAtIndex(s);
    FlatAtIndex(s.(rows := SetRow(s.rows, did, row)));
    FirstBelowIsNoRow(s);
    SetRowAt(s.head, s.rows, BelowIndex(s), did, row);
  }

  lemma RowsAreRows(s: Sections)
    requires Valid(s)
    ensures AllRows(s.rows) && AllRows(s.retRows)
  {
    hide IsRow, ValidEntries, NoHeading, NoRetired, EndsInHeader, IsRetired;
  }

  lemma RemoveIndexRefines(s: Sections, did: string)
    requires Valid(s)
    ensures Valid(s.(rows := DropRows(s.rows, did)))
    ensures RemoveRows(Flat(s), Index, did) == Ok(Flat(s.(rows := DropRows(s.rows, did))))
  {
    hide Valid, FlatEntries, FindTable, IsRow, RemoveRowsIn, DropRows;
    Tables(s);
    RowsAreRows(s);
    DropRowsAllRows(s.rows, did);
    SetRowsKeepsValid(s, DropRows(s.rows, did));
    FlatAtIndex(s);
    FlatAtIndex(s.(rows := DropRows(s.rows, did)));
    FirstBelowIsNoRow(s);
    RemoveRowsAt(s.head, s.rows, BelowIndex(s), did);
  }

  lemma RemoveRetiredRefines(s: Sections, did: string)
    requires Valid(s)
    ensures Valid(DropRetired(s, did))
    ensures RemoveRows(Flat(s), Retired, did) == Ok(Flat(DropRetired(s, did)))
  {
    hide Valid, FlatEntries, FindTable, IsRow, RemoveRowsIn, DropRows, RowId;
    Tables(s);
    RowsAreRows(s);
    DropRowsAllRows(s.retRows, did);
    var s' := DropRetired(s, did);
    DropRetiredValid(s, did);
    FlatAtRetired(s);
    FlatAtRetired(s');
    RemoveRowsAt(AboveRetired(s) + s.ret, s.retRows, s.post, did);
    assert AboveRetired(s') == AboveRetired(s);
  }

  lemma DropRetiredValid(s: Sections, did: string)
    requires Valid(s)
    ensures Valid(DropRetired(s, did))
  {
    hide IsRow, ValidEntries, NoHeading, NoRetired, EndsInHeader, IsRetired, RowId, BlankBeforeRetired;
    DropRowsAllRows(s.retRows, did);
    DropRowsSubset(s.retRows, did);
    var s' := DropRetired(s, did);
    SetRetiredValid(s, s'.retRows, s'.post);
  }

  lemma AddRetiredRefines(s: Sections, did: string, title: string)
    requires Valid(s) && ValidId(did)
    ensures Valid(AddRetired(s, did, title))
    ensures AddRetiredRow(Flat(s), did, title) == Ok(Flat(AddRetired(s, did, title)))
  {
    hide Valid, FlatEntries, FindTable, IsRow, RowId, RenderRetiredRow, NextRowOf;
    Tables(s);
    RowsAreRows(s);
    FlatAtRetired(s);
    var a := AboveRetired(s) + s.ret;
    NextRowOfAt(a, s.retRows, s.post, did);
    if RowIndex(s.retRows, did) == |s.retRows| {
      var row := RenderRetiredRow(did, title);
      var s' := AddRetired(s, did, title);
      RetiredRowIsRow(did, title);
      SetRetiredKeepsValid(s, row);
      FlatAtRetired(s');
      InsertLineAt(a + s.retRows, s.post, row);
      assert AboveRetired(s') == AboveRetired(s);
      assert a + s.retRows + [row] == a + (s.retRows + [row]);
    }
  }

  lemma RetiredRowIsRow(did: string, title: string)
    ensures IsRow(RenderRetiredRow(did, title))
  {
    hide Cell;
    assert RenderRetiredRow(did, title)[0] == '|';
  }

  lemma IndexRowIsRow(did: string, p: Proposal)
    ensures IsRow(RenderIndexRow(did, p))
  {
    hide Cell, Clean;
    assert RenderIndexRow(did, p)[0] == '|';
  }

  lemma SetRetiredKeepsValid(s: Sections, row: string)
    requires Valid(s) && IsRow(row)
    ensures Valid(s.(retRows := s.retRows + [row], post := Terminated(s.post)))
  {
    hide IsRow, ValidEntries, NoHeading, NoRetired, EndsInHeader, IsRetired, BlankBeforeRetired;
    SetRetiredValid(s, s.retRows + [row], Terminated(s.post));
  }

  // ------------------------------------------------------------------
  // The three edits
  // ------------------------------------------------------------------

  lemma NewBodyIsWritten(did: string, p: Proposal, added: string)
    ensures Written(did, p, added, "", [""], RenderEntry(did, p, added) + [""])
  {
    hide RenderFront, RenderEntry, IsBlankLine;
    RenderSplits(did, p, added);
    assert ADDED + " " + added + "" == ADDED + " " + added;
    DirIdIsSection("");
  }

  lemma AddNewRefines(s: Sections, t: Target, today: string)
    requires Valid(s) && ValidId(t.did) && EntryIndex(s.entries, t.did) == |s.entries|
    ensures Refines(AddNew(Flat(s), t, today), AddNewS(s, t, today))
  {
    hide Valid, Flat, RenderEntry, RenderIndexRow, InsertEntry, AppendIndexRow, IsEntry, Written, TextLength, NewAddedLine, IsRow;
    var added := NewAddedLine(DateOf(t.proposal, today), t.evidence);
    var entry := RenderEntry(t.did, t.proposal, added);
    var row := RenderIndexRow(t.did, t.proposal);
    NewBodyIsWritten(t.did, t.proposal, added);
    WrittenShape(t.did, t.proposal, added, "", [""], entry + [""]);
    InsertEntryRefines(s, t.did, entry);
    var s1 := s.(entries := s.entries + [Entry(t.did, entry + [""], [])]);
    IndexRowIsRow(t.did, t.proposal);
    AppendIndexRefines(s1, row);
  }

  /** The body the exporter writes over an entry, and what it keeps of the old one. */
  lemma ReplacedBody(did: string, p: Proposal, added: string, body: seq<string>)
    requires ValidId(did) && IsEntry(did, body)
    ensures var written := ReplaceBody(body, RenderEntry(did, p, added));
            && IsEntry(did, written) && FirstStatus(written) == Some("active")
            && (body[|body| - 1] == "" ==> written[|written| - 1] == "")
  {
    hide RenderEntry, Written, DirId, IsSection, IsBullet, IsBlankLine, Trail;
    DirIdIsSection(body[0]);
    RenderNotEmpty(did, p, added);
    ReplaceIsWritten(did, p, added, body);
    var n := ContentLen(body);
    var entry := RenderEntry(did, p, added);
    WrittenShape(did, p, added, Trail(body[n - 1]), body[n..], ReplaceBody(body, entry));
    DirIdIsSection("");
  }

  lemma ReplaceSpanRefines(s: Sections, k: nat, entry: seq<string>)
    requires Valid(s) && k < |s.entries| && entry != [] && s.entries[k].body != []
    ensures var at := |BeforeSpan(s, k)|;
            var end := at + |s.entries[k].body|;
            var s' := SetBody(s, k, ReplaceBody(s.entries[k].body, entry));
            && BeforeSpan(s', k) == BeforeSpan(s, k) && AfterSpan(s', k) == AfterSpan(s, k)
            && end <= |Flat(s)|
            && ReplaceSpan(Flat(s), Span(at, end), entry) == Flat(s')
  {
    hide Valid, ReplaceBody, FlatEntries, Flat;
    var a, b, c := BeforeSpan(s, k), s.entries[k].body, AfterSpan(s, k);
    var s' := SetBody(s, k, ReplaceBody(b, entry));
    FlatAtEntry(s, k);
    FlatAtEntry(s', k);
    assert s'.entries[..k] == s.entries[..k] && s'.entries[k + 1..] == s.entries[k + 1..];
    AfterIsSection(s, k);
    var doc := a + b + c;
    assert doc[..|a|] == a && doc[|a|..|a| + |b|] == b && doc[|a| + |b|..] == c;
  }

  lemma AmendRefines(s: Sections, t: Target, today: string, k: nat)
    requires Valid(s) && k < |s.entries| && k == EntryIndex(s.entries, t.did)
    requires s.entries[k].body != []
    ensures var at := |BeforeSpan(s, k)|;
            var end := at + |s.entries[k].body|;
            && at < end <= |Flat(s)|
            && Refines(Amend(Flat(s), t, today, Span(at, end)), AmendS(s, t, today, k))
  {
    hide Valid, Flat, FlatEntries, RenderEntry, RenderIndexRow, ReplaceBody, ReplaceSpan, SetIndexRow, RemoveRows, SetRow,
      DropRetired, IsEntry, IsRow, IsTemplate, IsServiceOwned, FirstStatus, FirstAdded, SameLines, TextLength,
      NewAddedLine, FindSpan, IsRetired, IsSection, DirId;
    var e := s.entries[k];
    ValidEntryAt(s, k);
    Spans(s, t.did);
    AfterIsSection(s, k);
    var at := |BeforeSpan(s, k)|;
    var span := Span(at, at + |e.body|);
    assert Flat(s)[span.start..span.end] == e.body;
    var added := if FirstAdded(e.body).Some? then FirstAdded(e.body).value else NewAddedLine(today, "—");
    var entry := RenderEntry(t.did, t.proposal, added);
    RenderNotEmpty(t.did, t.proposal, added);
    ReplacedBody(t.did, t.proposal, added, e.body);
    var body' := ReplaceBody(e.body, entry);
    SetBodyValid(s, k, body');
    ReplaceSpanRefines(s, k, entry);
    var s1 := SetBody(s, k, body');
    var row := RenderIndexRow(t.did, t.proposal);
    IndexRowIsRow(t.did, t.proposal);
    SetIndexRefines(s1, t.did, row);
    var s2 := s1.(rows := SetRow(s1.rows, t.did, row));
    RemoveRetiredRefines(s2, t.did);
  }

  lemma RenderNotEmpty(did: string, p: Proposal, added: string)
    ensures RenderEntry(did, p, added) != []
  {}

  lemma ValidEntryAt(s: Sections, k: nat)
    requires Valid(s) && k < |s.entries|
    ensures ValidEntry(s.entries[k]) && IsEntry(s.entries[k].id, s.entries[k].body) && s.entries[k].body != []
    ensures ValidId(s.entries[k].id)
  {
    hide IsRow, IsRetired, IsSection, EndsInHeader, BlankBeforeRetired, DirId;
    assert s.entries[k] in s.entries;
    assert DirId(s.entries[k].body[0]).Some?;
  }

  lemma RetiredBody(did: string, body: seq<string>)
    requires IsEntry(did, body)
    ensures IsEntry(did, RetireBody(body))
    ensures body[|body| - 1] == "" ==> RetireBody(body)[|body| - 1] == ""
  {
    hide DirId, IsSection, StatusOf;
    RetireKeepsEntry(did, body);
    RetireShape(body);
    DirIdIsSection("");
    BlankLineIsPlain("");
  }

  /** Setting an entry's status in the text sets it in the parts. */
  lemma RetireSpanRefines(s: Sections, k: nat)
    requires Valid(s) && k < |s.entries| && s.entries[k].body != []
    ensures var at := |BeforeSpan(s, k)|;
            var body := s.entries[k].body;
            var s' := SetBody(s, k, RetireBody(body));
            && Valid(s')
            && at + |body| <= |Flat(s)|
            && Flat(s') == Flat(s)[..at] + RetireBody(body) + Flat(s)[at + |body|..]
  {
    hide Valid, Flat, FlatEntries, RetireBody, IsEntry;
    var e := s.entries[k];
    ValidEntryAt(s, k);
    RetiredBody(e.id, e.body);
    SetBodyValid(s, k, RetireBody(e.body));
    FlatAtEntry(s, k);
    FlatAtEntry(SetBody(s, k, RetireBody(e.body)), k);
    CutAt(BeforeSpan(s, k), e.body, AfterSpan(s, k));
  }

  lemma RetiredRowAt(s: Sections, did: string)
    requires Valid(s)
    ensures var rows := FindTable(Flat(s), Retired);
            && rows.Ok?
            && (NextRowOf(Flat(s), did, rows.value.start, rows.value.end) < rows.value.end <==>
                RowIndex(s.retRows, did) < |s.retRows|)
  {
    hide Valid, Flat, FlatEntries, FindTable, NextRowOf, RowIndex;
    Tables(s);
    FlatAtRetired(s);
    NextRowOfAt(AboveRetired(s) + s.ret, s.retRows, s.post, did);
  }

  lemma DeclineRefines(s: Sections, t: Target, k: nat)
    requires Valid(s) && ValidId(t.did) && k < |s.entries| && k == EntryIndex(s.entries, t.did)
    requires s.entries[k].body != []
    ensures var at := |BeforeSpan(s, k)|;
            var end := at + |s.entries[k].body|;
            && at < end <= |Flat(s)|
            && Refines(Decline(Flat(s), t, Span(at, end)), DeclineS(s, t, k))
  {
    hide Valid, Flat, FlatEntries, RemoveRows, AddRetiredRow, AddRetired, DropRows, RetireBody, IsEntry, IsRow,
      FirstStatus, FindSpan, FindTable, IsRetired, IsSection, DirId, HeadingTitle, NextRowOf, RowIndex, BeforeSpan, AfterSpan;
    var e := s.entries[k];
    Spans(s, t.did);
    var at := |BeforeSpan(s, k)|;
    assert Flat(s)[at..at + |e.body|] == e.body;
    RetiredRowAt(s, t.did);
    RetireSpanRefines(s, k);
    var s1 := SetBody(s, k, RetireBody(e.body));
    RemoveIndexRefines(s1, t.did);
    var s2 := s1.(rows := DropRows(s1.rows, t.did));
    AddRetiredRefines(s2, t.did, HeadingTitle(e.body[0]));
  }

  lemma CutAt(a: seq<string>, b: seq<string>, c: seq<string>)
    ensures (a + b + c)[..|a|] == a && (a + b + c)[|a| + |b|..] == c
  {}

  /** Every decision, on every well-formed document. */
  lemma StepRefines(s: Sections, t: Target, today: string)
    requires Valid(s) && ValidId(t.did)
    ensures Refines(Step(Flat(s), t, today), StepS(s, t, today))
  {
    hide Valid, Flat, FlatEntries, FindSpan, IsServiceOwned, Amend, Decline, AddNew, AmendS, DeclineS, AddNewS;
    Spans(s, t.did);
    var k := EntryIndex(s.entries, t.did);
    if k == |s.entries| {
      AddNewRefines(s, t, today);
    } else {
      ValidEntryAt(s, k);
      AmendRefines(s, t, today, k);
      DeclineRefines(s, t, k);
    }
  }
}
