/** A document whose Index an export leaves unsorted. */
module DirectiveUnsorted {
  import opened Options
  import opened Text
  import opened DirectiveLines
  import opened DirectiveEntries
  import opened DirectiveDoc
  import opened DirectiveSections
  import opened DirectiveRefine
  import opened DirectiveStep
  import opened DirectivePreservation
  import opened DirectiveDecisions
  import opened DirectiveIdempotence
  import opened DirectiveStates
  import opened DirectiveRefused

  const LATER := "DIR-3"
  const EARLIER := "DIR-2"

  function Small(): Proposal {
    Proposal("t", "a", "y", "r", "c", "", DATE)
  }

  /** The Index lists DIR-3. */
  function Listed(): Sections {
    Document().(rows := [RenderIndexRow(LATER, Small())])
  }

  /** A proposal for DIR-2, which the document does not have, is accepted. */
  function AcceptEarlier(): Target {
    Target(EARLIER, Accepted, Small(), "—")
  }

  lemma IdsAreValid()
    ensures ValidId(LATER) && ValidId(EARLIER) && Number(LATER) == 3 && Number(EARLIER) == 2 && EARLIER != DID
  {
    assert LATER[4..] == "3" && EARLIER[4..] == "2" && DID[4] == '1' && EARLIER[4] == '2';
    assert "3"[..0] == "" && "2"[..0] == "";
  }

  lemma ListedIsValid()
    ensures Valid(Listed()) && Sorted(Listed().rows)
  {
    hide Valid, RenderIndexRow, Document;
    DocumentIsValid();
    IdsAreValid();
    RenderedRows(LATER, Small(), "");
    SetRowsValid(Document(), [RenderIndexRow(LATER, Small())]);
  }

  /** The new entry fits. */
  lemma SmallFits()
    ensures TextLength(RenderEntry(EARLIER, Small(), NewAddedLine(DATE, "—"))) <= MAX_ENTRY_CHARS
  {
    hide TextLength, RenderEntry, Clean;
    FieldsAreClean();
    SameLength(Small(), NewAddedLine(DATE, "—"));
    EntryLength(Small(), NewAddedLine(DATE, "—"));
  }

  /** Ids of one length render to entries of one length. */
  lemma SameLength(p: Proposal, added: string)
    ensures TextLength(RenderEntry(EARLIER, p, added)) == TextLength(RenderEntry(DID, p, added))
  {
    hide Clean, TextLength;
    var a, b := RenderEntry(EARLIER, p, added), RenderEntry(DID, p, added);
    assert a == [a[0]] + a[1..] && b == [b[0]] + b[1..] && a[1..] == b[1..];
    TextLengthSplit([a[0]], a[1..]);
    TextLengthSplit([b[0]], b[1..]);
    OneLineLength(a[0]);
    OneLineLength(b[0]);
    assert |EARLIER| == |DID|;
  }

  lemma EarlierIsAdded() returns (e: Edit)
    ensures StepsS(Listed(), [AcceptEarlier()], DATE) == Ok(e)
    ensures e.events == [Action(EARLIER, NewEntry)]
    ensures e.s.rows == [RenderIndexRow(LATER, Small())] + [RenderIndexRow(EARLIER, Small())]
  {
    hide RenderEntry, RenderIndexRow, TextLength, OldBody, NewAddedLine;
    IdsAreValid();
    SmallFits();
    var s, t := Listed(), AcceptEarlier();
    assert s.entries[0].id == DID && s.entries[1..] == [];
    assert EntryIndex(s.entries, EARLIER) == |s.entries|;
    assert DateOf(Small(), DATE) == DATE;
    OneStep(s, t, DATE);
    e := StepS(s, t, DATE).value;
  }

  /**
   * The document is well formed and its Index sorted; the export succeeds, adds DIR-2, and the
   * rows of the Index it writes are not sorted.
   */
  lemma ExportUnsorts()
    ensures WellFormed(Flat(Listed())) && Sorted(Listed().rows)
    ensures var r := Apply(Flat(Listed()), [AcceptEarlier()], DATE);
            && r.Ok? && r.value.events == [Action(EARLIER, NewEntry)]
            && var index := FindTable(r.value.doc, Index);
               index.Ok? && !Sorted(r.value.doc[index.value.start..index.value.end])
  {
    hide Valid, Flat, RenderIndexRow, Listed, StepsS, Steps, CheckPreservation, FindTable, Sorted, RowAbove, RowId, Number;
    IdsAreValid();
    ListedIsValid();
    var s, t := Listed(), AcceptEarlier();
    var e := EarlierIsAdded();
    Tables(s);
    StepsRefine(s, [t], DATE);
    CheckPasses(s, [t], DATE, e);
    Tables(e.s);
    IndexRows(e.s);
    RenderedRows(LATER, Small(), "");
    RenderedRows(EARLIER, Small(), "");
    IsAboveRow();
    AboveBreaks([RenderIndexRow(LATER, Small())], RenderIndexRow(LATER, Small()), EARLIER, RenderIndexRow(EARLIER, Small()));
  }

  lemma IsAboveRow()
    ensures RowAbove(RenderIndexRow(LATER, Small()), Number(EARLIER))
  {
    hide RenderIndexRow, RowId, Number;
    IdsAreValid();
    RenderedRows(LATER, Small(), "");
  }

  lemma IndexRows(s: Sections)
    ensures |s.head| + |s.rows| <= |Flat(s)| && Flat(s)[|s.head|..|s.head| + |s.rows|] == s.rows
  {
    hide FlatEntries;
  }
}
