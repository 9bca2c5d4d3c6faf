/**
 * The surgical edits of DIRECTIVES.md. A document is its text split at newlines, so it
 * is never empty and its last line is "" exactly when the text ends in a newline.
 */
module DirectiveDoc {
  import opened Options
  import opened Text
  import opened DirectiveLines
  import opened DirectiveEntries

  type Doc = seq<string>

  datatype Refusal =
    | NoTable
    | NoRetiredHeading
    | NoBlankLine
    | DuplicateHeading
    | OutsideTemplate
    | UnexpectedHeading
    | NoStatus
    | UnexpectedStatus
    | OverBudget
    | Overlap
    | NotOwnedBefore
    | NotOwnedAfter
    | ForeignTextChanged

  datatype Result<+T> = Ok(value: T) | Err(refusal: Refusal) {
    predicate IsFailure() { Err? }
    function PropagateFailure<U>(): Result<U> requires Err? { Err(refusal) }
    function Extract(): T requires Ok? { value }
  }

  // ------------------------------------------------------------------
  // Spans and tables
  // ------------------------------------------------------------------

  function NextSection(doc: Doc, i: nat): (j: nat)
    requires i <= |doc|
    ensures i <= j <= |doc|
    ensures forall k :: i <= k < j ==> !IsSection(doc[k])
    ensures j < |doc| ==> IsSection(doc[j])
    decreases |doc| - i
  {
    if i == |doc| || IsSection(doc[i]) then i else NextSection(doc, i + 1)
  }

  function NextHeading(doc: Doc, did: string, i: nat): (j: nat)
    requires i <= |doc|
    ensures i <= j <= |doc|
    ensures forall k :: i <= k < j ==> DirId(doc[k]) != Some(did)
    ensures j < |doc| ==> DirId(doc[j]) == Some(did)
    decreases |doc| - i
  {
    if i == |doc| || DirId(doc[i]) == Some(did) then i else NextHeading(doc, did, i + 1)
  }

  datatype Span = Span(start: nat, end: nat)

  /** The span of one entry, from its heading to the next heading of any level. */
  function FindSpan(doc: Doc, did: string): (r: Result<Option<Span>>)
    ensures r.Ok? && r.value.Some? ==> r.value.value.start < r.value.value.end <= |doc|
  {
    var h := NextHeading(doc, did, 0);
    if h == |doc| then Ok(None)
    else if NextHeading(doc, did, h + 1) < |doc| then Err(DuplicateHeading)
    else Ok(Some(Span(h, NextSection(doc, h + 1))))
  }

  datatype Table = Index | Retired

  function NextRetired(doc: Doc, i: nat): (j: nat)
    requires i <= |doc|
    ensures i <= j <= |doc|
    ensures forall k :: i <= k < j ==> !IsRetired(doc[k])
    ensures j < |doc| ==> IsRetired(doc[j])
    decreases |doc| - i
  {
    if i == |doc| || IsRetired(doc[i]) then i else NextRetired(doc, i + 1)
  }

  /** A table header: two lines, each ended by a newline. */
  predicate HeaderAt(doc: Doc, kind: Table, i: nat) {
    && i + 2 < |doc|
    && if kind == Index then IsIndexHeader(doc[i], doc[i + 1]) else IsRetiredHeader(doc[i], doc[i + 1])
  }

  function NextHeader(doc: Doc, kind: Table, i: nat): (j: nat)
    requires i <= |doc|
    ensures i <= j <= |doc|
    ensures forall k :: i <= k < j ==> !HeaderAt(doc, kind, k)
    ensures j < |doc| ==> HeaderAt(doc, kind, j)
    decreases |doc| - i
  {
    if i == |doc| || HeaderAt(doc, kind, i) then i else NextHeader(doc, kind, i + 1)
  }

  function RowsEnd(doc: Doc, i: nat): (j: nat)
    requires i <= |doc|
    ensures i <= j <= |doc|
    ensures forall k :: i <= k < j ==> IsRow(doc[k])
    ensures j < |doc| ==> !IsRow(doc[j])
    decreases |doc| - i
  {
    if i == |doc| || !IsRow(doc[i]) then i else RowsEnd(doc, i + 1)
  }

  /** The rows of a table: the lines from the header down that begin with a bar. */
  function FindTable(doc: Doc, kind: Table): (r: Result<Span>)
    ensures r.Ok? ==> r.value.start <= r.value.end <= |doc|
  {
    var from := if kind == Index then 0 else if NextRetired(doc, 0) < |doc| then NextRetired(doc, 0) + 1 else |doc|;
    var h := NextHeader(doc, kind, from);
    if h == |doc| then Err(NoTable) else Ok(Span(h + 2, RowsEnd(doc, h + 2)))
  }

  // ------------------------------------------------------------------
  // Edits of one line
  // ------------------------------------------------------------------

  /** Insert a line before line i; at the end of an unterminated text, after a newline. */
  function InsertLine(doc: Doc, i: nat, line: string): Doc
    requires i <= |doc|
  {
    if i < |doc| then doc[..i] + [line] + doc[i..] else doc + [line, ""]
  }

  /** Cut line i and the newline after it, if it has one. */
  function RemoveLine(doc: Doc, i: nat): Doc
    requires i < |doc|
  {
    if i + 1 < |doc| then doc[..i] + doc[i + 1..] else doc[..i] + [""]
  }

  function ReplaceLine(doc: Doc, i: nat, line: string): Doc
    requires i < |doc|
  {
    if i + 1 < |doc| then doc[i := line] else doc[..i] + [line, ""]
  }

  // ------------------------------------------------------------------
  // Edits of the tables
  // ------------------------------------------------------------------

  /** Remove the rows of did, last first, so that earlier positions stay valid. */
  function RemoveRowsIn(doc: Doc, did: string, start: nat, end: nat): Doc
    requires start <= end <= |doc|
    decreases end - start
  {
    if start == end then doc
    else
      var shorter := if RowId(doc[end - 1]) == Some(did) then RemoveLine(doc, end - 1) else doc;
      RemoveRowsIn(shorter, did, start, end - 1)
  }

  function RemoveRows(doc: Doc, kind: Table, did: string): Result<Doc> {
    var rows :- FindTable(doc, kind);
    Ok(RemoveRowsIn(doc, did, rows.start, rows.end))
  }

  function NextRowOf(doc: Doc, did: string, i: nat, end: nat): (j: nat)
    requires i <= end <= |doc|
    ensures i <= j <= end
    ensures forall k :: i <= k < j ==> RowId(doc[k]) != Some(did)
    ensures j < end ==> RowId(doc[j]) == Some(did)
    decreases end - i
  {
    if i == end || RowId(doc[i]) == Some(did) then i else NextRowOf(doc, did, i + 1, end)
  }

  predicate RowAbove(row: string, number: nat) {
    RowId(row).Some? && Number(RowId(row).value) > number
  }

  function NextRowAbove(doc: Doc, number: nat, i: nat, end: nat): (j: nat)
    requires i <= end <= |doc|
    ensures i <= j <= end
    ensures forall k :: i <= k < j ==> !RowAbove(doc[k], number)
    ensures j < end ==> RowAbove(doc[j], number)
    decreases end - i
  {
    if i == end || RowAbove(doc[i], number) then i else NextRowAbove(doc, number, i + 1, end)
  }

  /** Replace the row of did in place, or insert it before the first higher number. */
  function SetRowIn(doc: Doc, did: string, row: string, start: nat, end: nat): Doc
    requires start <= end <= |doc|
  {
    var at := NextRowOf(doc, did, start, end);
    if at < end then ReplaceLine(doc, at, row)
    else InsertLine(doc, NextRowAbove(doc, Number(did), start, end), row)
  }

  function SetIndexRow(doc: Doc, did: string, row: string): Result<Doc> {
    var rows :- FindTable(doc, Index);
    Ok(SetRowIn(doc, did, row, rows.start, rows.end))
  }

  function AppendIndexRow(doc: Doc, row: string): Result<Doc> {
    var rows :- FindTable(doc, Index);
    Ok(InsertLine(doc, rows.end, row))
  }

  function AddRetiredRow(doc: Doc, did: string, title: string): Result<Doc> {
    var rows :- FindTable(doc, Retired);
    if NextRowOf(doc, did, rows.start, rows.end) < rows.end then Ok(doc)
    else Ok(InsertLine(doc, rows.end, RenderRetiredRow(did, title)))
  }

  // ------------------------------------------------------------------
  // Edits of the entries
  // ------------------------------------------------------------------

  function InsertEntry(doc: Doc, entry: seq<string>): Result<Doc> {
    var r := NextRetired(doc, 0);
    if r == |doc| then Err(NoRetiredHeading)
    else if r < 2 || doc[r - 1] != "" then Err(NoBlankLine)
    else Ok(doc[..r] + entry + [""] + doc[r..])
  }

  /** The span's body is replaced; its trailing white space is kept, or a newline is added. */
  function ReplaceSpan(doc: Doc, span: Span, entry: seq<string>): Doc
    requires span.start <= span.end <= |doc| && entry != []
  {
    var body := doc[span.start..span.end];
    var atEnd := span.end == |doc| && ContentLen(body) == |body| && body != [] && Trail(body[|body| - 1]) == "";
    doc[..span.start] + ReplaceBody(body, entry) + (if atEnd then [""] else doc[span.end..])
  }

  function CheckReplaceable(doc: Doc, span: Span): (r: Result<()>)
    requires span.start <= span.end <= |doc|
    ensures r.Ok? <==> IsTemplate(doc[span.start..span.end]) && (span.end < |doc| ==> DirId(doc[span.end]).Some? || IsRetired(doc[span.end]))
  {
    if !IsTemplate(doc[span.start..span.end]) then Err(OutsideTemplate)
    else if span.end < |doc| && DirId(doc[span.end]).None? && !IsRetired(doc[span.end]) then Err(UnexpectedHeading)
    else Ok(())
  }

  // ------------------------------------------------------------------
  // The preservation check
  // ------------------------------------------------------------------

  /** The id whose span holds line i: that of the nearest heading at or above it. */
  function OwnerAt(doc: Doc, i: nat): Option<string>
    requires i < |doc|
  {
    if IsSection(doc[i]) then DirId(doc[i])
    else if i == 0 then None
    else OwnerAt(doc, i - 1)
  }

  predicate InIds(id: Option<string>, ids: set<string>) {
    id.Some? && id.value in ids
  }

  predicate RowCut(doc: Doc, rows: Span, ids: set<string>, i: nat)
    requires i < |doc|
  {
    rows.start <= i < rows.end && InIds(RowId(doc[i]), ids)
  }

  function Keep(doc: Doc, index: Span, retired: Span, ids: set<string>, n: nat): seq<string>
    requires n <= |doc|
  {
    if n == 0 then []
    else
      var i := n - 1;
      var cut := InIds(OwnerAt(doc, i), ids) || RowCut(doc, index, ids, i) || RowCut(doc, retired, ids, i);
      Keep(doc, index, retired, ids, i) + (if cut then [] else [doc[i]])
  }

  function StripEnd(lines: seq<string>): seq<string> {
    if lines != [] && lines[|lines| - 1] == "" then StripEnd(lines[..|lines| - 1]) else lines
  }

  /** No line is cut twice. */
  predicate Disjoint(doc: Doc, index: Span, retired: Span, ids: set<string>) {
    forall i :: 0 <= i < |doc| ==>
      var a, b, c := InIds(OwnerAt(doc, i), ids), RowCut(doc, index, ids, i), RowCut(doc, retired, ids, i);
      !(a && b) && !(a && c) && !(b && c)
  }

  /** The text with the spans and rows of ids cut out, up to newlines at its end. */
  function Mask(doc: Doc, ids: set<string>): Result<seq<string>> {
    var index :- FindTable(doc, Index);
    var retired :- FindTable(doc, Retired);
    if !Disjoint(doc, index, retired, ids) then Err(Overlap)
    else Ok(StripEnd(Keep(doc, index, retired, ids, |doc|)))
  }

  /** The lines of an entry's span, if the document has it once. */
  function EntryText(doc: Doc, did: string): Option<seq<string>> {
    var span := FindSpan(doc, did);
    if span.Ok? && span.value.Some? then Some(doc[span.value.value.start..span.value.value.end]) else None
  }

  predicate OwnedIn(doc: Doc, did: string) {
    EntryText(doc, did).Some? && IsServiceOwned(EntryText(doc, did).value)
  }

  function CheckPreservation(before: Doc, after: Doc, touched: set<string>, appended: set<string>): Result<()> {
    if exists did <- touched :: !OwnedIn(before, did) then Err(NotOwnedBefore)
    else if exists did <- touched + appended :: !OwnedIn(after, did) then Err(NotOwnedAfter)
    else
      var a :- Mask(before, touched + appended);
      var b :- Mask(after, touched + appended);
      if a != b then Err(ForeignTextChanged) else Ok(())
  }

  // ------------------------------------------------------------------
  // Applying the decisions
  // ------------------------------------------------------------------

  datatype Decision = Accepted | Declined

  /** One decided proposal, with the evidence label the service gives for it. */
  datatype Target = Target(did: string, decision: Decision, proposal: Proposal, evidence: string)

  datatype Kind = NewEntry | Amended | ReAccepted | RetiredEntry

  datatype Event = Action(did: string, kind: Kind) | Conflict(did: string) | Note(did: string)

  datatype Report = Report(doc: Doc, events: seq<Event>)

  function AddNew(doc: Doc, t: Target, today: string): Result<Report> {
    var entry := RenderEntry(t.did, t.proposal, NewAddedLine(DateOf(t.proposal, today), t.evidence));
    if TextLength(entry) > MAX_ENTRY_CHARS then Err(OverBudget)
    else
      var d1 :- InsertEntry(doc, entry);
      var d2 :- AppendIndexRow(d1, RenderIndexRow(t.did, t.proposal));
      Ok(Report(d2, [Action(t.did, NewEntry)]))
  }

  function Amend(doc: Doc, t: Target, today: string, span: Span): Result<Report>
    requires span.start < span.end <= |doc|
  {
    var body := doc[span.start..span.end];
    if FirstStatus(body).None? then Err(NoStatus)
    else
      var added := if FirstAdded(body).Some? then FirstAdded(body).value else NewAddedLine(today, "—");
      var entry := RenderEntry(t.did, t.proposal, added);
      if TextLength(entry) > MAX_ENTRY_CHARS then Err(OverBudget)
      else if SameLines(entry, body) then Ok(Report(doc, []))
      else
        var _ :- CheckReplaceable(doc, span);
        var d1 := ReplaceSpan(doc, span, entry);
        var d2 :- SetIndexRow(d1, t.did, RenderIndexRow(t.did, t.proposal));
        if FirstStatus(body) == Some("deprecated") then
          var d3 :- RemoveRows(d2, Retired, t.did);
          Ok(Report(d3, [Action(t.did, ReAccepted)]))
        else Ok(Report(d2, [Action(t.did, Amended)]))
  }

  function Decline(doc: Doc, t: Target, span: Span): Result<Report>
    requires span.start < span.end <= |doc|
  {
    var body := doc[span.start..span.end];
    if FirstStatus(body).None? then Err(NoStatus)
    else if FirstStatus(body) == Some("deprecated") then
      var rows :- FindTable(doc, Retired);
      Ok(Report(doc, if NextRowOf(doc, t.did, rows.start, rows.end) < rows.end then [] else [Note(t.did)]))
    else if FirstStatus(body) != Some("active") then Err(UnexpectedStatus)
    else
      var d1 := doc[..span.start] + RetireBody(body) + doc[span.end..];
      var d2 :- RemoveRows(d1, Index, t.did);
      var d3 :- AddRetiredRow(d2, t.did, HeadingTitle(body[0]));
      Ok(Report(d3, [Action(t.did, RetiredEntry)]))
  }

  /** One target against the document as the earlier ones left it. */
  function Step(doc: Doc, t: Target, today: string): Result<Report> {
    var span :- FindSpan(doc, t.did);
    if span.None? then
      if t.decision == Accepted then AddNew(doc, t, today) else Ok(Report(doc, [Note(t.did)]))
    else if !IsServiceOwned(doc[span.value.start..span.value.end]) then Ok(Report(doc, [Conflict(t.did)]))
    else if t.decision == Accepted then Amend(doc, t, today, span.value)
    else Decline(doc, t, span.value)
  }

  function Steps(doc: Doc, targets: seq<Target>, today: string): Result<Report> {
    if targets == [] then Ok(Report(doc, []))
    else
      var before :- Steps(doc, targets[..|targets| - 1], today);
      var last :- Step(before.doc, targets[|targets| - 1], today);
      Ok(Report(last.doc, before.events + last.events))
  }

  predicate IsTouch(e: Event) {
    e.Action? && e.kind != NewEntry
  }

  predicate IsAppend(e: Event) {
    e.Action? && e.kind == NewEntry
  }

  function Touched(events: seq<Event>): set<string> {
    set e <- events | IsTouch(e) :: e.did
  }

  function Appended(events: seq<Event>): set<string> {
    set e <- events | IsAppend(e) :: e.did
  }

  /** Apply every decision; any refusal leaves nothing to write. */
  function Apply(doc: Doc, targets: seq<Target>, today: string): Result<Report> {
    var _ :- FindTable(doc, Index);
    var _ :- FindTable(doc, Retired);
    var r :- Steps(doc, targets, today);
    if r.doc == doc then Ok(r)
    else
      var _ :- CheckPreservation(doc, r.doc, Touched(r.events), Appended(r.events));
      Ok(r)
  }

  /** The loop over the targets, as the exporter runs it. */
  method ApplyDirectiveDecisions(doc: Doc, targets: seq<Target>, today: string) returns (r: Result<Report>)
    ensures r == Apply(doc, targets, today)
  {
    hide FindTable, Step, CheckPreservation, Touched, Appended;
    var index := FindTable(doc, Index);
    if index.Err? { return Err(index.refusal); }
    var retired := FindTable(doc, Retired);
    if retired.Err? { return Err(retired.refusal); }
    var current, events := doc, [];
    var touched, appended: set<string> := {}, {};
    NothingTouched();
    for k := 0 to |targets|
      invariant Steps(doc, targets[..k], today) == Ok(Report(current, events))
      invariant touched == Touched(events) && appended == Appended(events)
    {
      assert targets[..k + 1][..k] == targets[..k];
      var step := Step(current, targets[k], today);
      if step.Err? {
        StepsPrefix(doc, targets, today, k + 1);
        return Err(step.refusal);
      }
      current := step.value.doc;
      TouchedSum(events, step.value.events);
      touched := touched + Touched(step.value.events);
      appended := appended + Appended(step.value.events);
      events := events + step.value.events;
    }
    assert targets[..|targets|] == targets;
    if current != doc {
      var check := CheckPreservation(doc, current, touched, appended);
      if check.Err? { return Err(check.refusal); }
    }
    return Ok(Report(current, events));
  }

  lemma NothingTouched()
    ensures Touched([]) == {} && Appended([]) == {}
  {}

  lemma TouchedSum(a: seq<Event>, b: seq<Event>)
    ensures Touched(a + b) == Touched(a) + Touched(b)
    ensures Appended(a + b) == Appended(a) + Appended(b)
  {}

  /** A refused prefix refuses the whole run. */
  lemma {:induction false} StepsPrefix(doc: Doc, targets: seq<Target>, today: string, k: nat)
    requires k <= |targets| && Steps(doc, targets[..k], today).Err?
    ensures Steps(doc, targets, today) == Steps(doc, targets[..k], today)
    decreases |targets|
  {
    hide Step;
    if k < |targets| {
      var n := |targets| - 1;
      assert targets[..n][..k] == targets[..k];
      StepsPrefix(doc, targets[..n], today, k);
    } else {
      assert targets[..k] == targets;
    }
  }
}
