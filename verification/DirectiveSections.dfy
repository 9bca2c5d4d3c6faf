/**
 * A well-formed DIRECTIVES.md taken apart: the Index rows, the entries and the Retired
 * rows, with the text around them. `Flat` puts the parts back together.
 */
module DirectiveSections {
  import opened Options
  import opened Text
  import opened DirectiveLines
  import opened DirectiveEntries
  import opened DirectiveDoc

  /** An entry span, and the text between it and the next entry (under a foreign heading). */
  datatype Entry = Entry(id: string, body: seq<string>, tail: seq<string>)

  datatype Sections = Sections(
    head: seq<string>,      // up to and including the Index header
    rows: seq<string>,      // Index rows
    mid: seq<string>,       // up to the first entry
    entries: seq<Entry>,
    ret: seq<string>,       // from "## Retired Entries" through the Retired header
    retRows: seq<string>,   // Retired rows
    post: seq<string>)      // what follows; empty when the last row has no newline

  function FlatEntries(es: seq<Entry>): seq<string> {
    if es == [] then [] else es[0].body + es[0].tail + FlatEntries(es[1..])
  }

  function Top(s: Sections): seq<string> { s.head + s.rows + s.mid }

  function Bottom(s: Sections): seq<string> { s.ret + s.retRows + s.post }

  function Flat(s: Sections): Doc { Top(s) + FlatEntries(s.entries) + Bottom(s) }

  predicate NoHeading(lines: seq<string>) {
    forall l <- lines :: DirId(l).None?
  }

  predicate NoRetired(lines: seq<string>) {
    forall l <- lines :: !IsRetired(l)
  }

  predicate AllRows(lines: seq<string>) {
    forall l <- lines :: IsRow(l)
  }

  predicate NotRowFirst(lines: seq<string>) {
    lines != [] ==> !IsRow(lines[0])
  }

  predicate ValidEntry(e: Entry) {
    && IsEntry(e.id, e.body)
    && NoHeading(e.tail) && NoRetired(e.tail)
    && (e.tail != [] ==> IsSection(e.tail[0]))
  }

  predicate ValidEntries(es: seq<Entry>) {
    && (forall e <- es :: ValidEntry(e))
    && (forall i, j :: 0 <= i < j < |es| ==> es[i].id != es[j].id)
  }

  /** `lines` ends in the only header of its kind that begins at or after `from`. */
  predicate EndsInHeader(lines: seq<string>, kind: Table, from: nat) {
    && |lines| >= from + 2
    && (forall i :: from <= i < |lines| - 1 ==> (IsHeaderPair(kind, lines[i], lines[i + 1]) <==> i == |lines| - 2))
  }

  predicate IsHeaderPair(kind: Table, a: string, b: string) {
    if kind == Index then IsIndexHeader(a, b) else IsRetiredHeader(a, b)
  }

  predicate Valid(s: Sections) {
    && EndsInHeader(s.head, Index, 0) && NoHeading(s.head) && NoRetired(s.head)
    && AllRows(s.rows)
    && NoHeading(s.mid) && NoRetired(s.mid) && NotRowFirst(s.mid)
    && ValidEntries(s.entries)
    && s.ret != [] && IsRetired(s.ret[0]) && EndsInHeader(s.ret, Retired, 1) && NoHeading(s.ret)
    && AllRows(s.retRows)
    && NoHeading(s.post) && NotRowFirst(s.post)
    && (s.post == [] ==> s.retRows != [])
    && BlankBeforeRetired(s)
  }

  predicate BlankBeforeRetired(s: Sections) {
    var above := s.mid + FlatEntries(s.entries);
    above != [] && above[|above| - 1] == ""
  }

  // ------------------------------------------------------------------
  // The edits, part by part
  // ------------------------------------------------------------------

  function EntryIndex(es: seq<Entry>, did: string): (k: nat)
    ensures k <= |es|
    ensures forall i :: 0 <= i < k ==> es[i].id != did
    ensures k < |es| ==> es[k].id == did
  {
    if es == [] || es[0].id == did then 0 else 1 + EntryIndex(es[1..], did)
  }

  function DropRows(rows: seq<string>, did: string): seq<string> {
    if rows == [] then []
    else DropRows(rows[..|rows| - 1], did) + (if RowId(rows[|rows| - 1]) == Some(did) then [] else [rows[|rows| - 1]])
  }

  function RowIndex(rows: seq<string>, did: string): (k: nat)
    ensures k <= |rows|
    ensures forall i :: 0 <= i < k ==> RowId(rows[i]) != Some(did)
    ensures k < |rows| ==> RowId(rows[k]) == Some(did)
  {
    if rows == [] || RowId(rows[0]) == Some(did) then 0 else 1 + RowIndex(rows[1..], did)
  }

  function FirstAbove(rows: seq<string>, number: nat): (k: nat)
    ensures k <= |rows|
    ensures forall i :: 0 <= i < k ==> !RowAbove(rows[i], number)
    ensures k < |rows| ==> RowAbove(rows[k], number)
  {
    if rows == [] || RowAbove(rows[0], number) then 0 else 1 + FirstAbove(rows[1..], number)
  }

  function SetRow(rows: seq<string>, did: string, row: string): seq<string> {
    var k := RowIndex(rows, did);
    if k < |rows| then rows[k := row]
    else
      var at := FirstAbove(rows, Number(did));
      rows[..at] + [row] + rows[at..]
  }

  /** A row or its absence at the end of an unterminated text leaves it terminated. */
  function Terminated(post: seq<string>): seq<string> {
    if post == [] then [""] else post
  }

  function DropRetired(s: Sections, did: string): Sections {
    var n := |s.retRows|;
    s.(retRows := DropRows(s.retRows, did),
       post := if n > 0 && RowId(s.retRows[n - 1]) == Some(did) then Terminated(s.post) else s.post)
  }

  function AddRetired(s: Sections, did: string, title: string): Sections {
    if RowIndex(s.retRows, did) < |s.retRows| then s
    else s.(retRows := s.retRows + [RenderRetiredRow(did, title)], post := Terminated(s.post))
  }

  function SetBody(s: Sections, k: nat, body: seq<string>): Sections
    requires k < |s.entries|
  {
    s.(entries := s.entries[k := s.entries[k].(body := body)])
  }

  datatype Edit = Edit(s: Sections, events: seq<Event>)

  function AddNewS(s: Sections, t: Target, today: string): Result<Edit> {
    var entry := RenderEntry(t.did, t.proposal, NewAddedLine(DateOf(t.proposal, today), t.evidence));
    if TextLength(entry) > MAX_ENTRY_CHARS then Err(OverBudget)
    else Ok(Edit(
      s.(entries := s.entries + [Entry(t.did, entry + [""], [])],
         rows := s.rows + [RenderIndexRow(t.did, t.proposal)]),
      [Action(t.did, NewEntry)]))
  }

  function AmendS(s: Sections, t: Target, today: string, k: nat): Result<Edit>
    requires k < |s.entries|
  {
    var body := s.entries[k].body;
    if FirstStatus(body).None? then Err(NoStatus)
    else
      var added := if FirstAdded(body).Some? then FirstAdded(body).value else NewAddedLine(today, "—");
      var entry := RenderEntry(t.did, t.proposal, added);
      if TextLength(entry) > MAX_ENTRY_CHARS then Err(OverBudget)
      else if SameLines(entry, body) then Ok(Edit(s, []))
      else if !IsTemplate(body) then Err(OutsideTemplate)
      else if s.entries[k].tail != [] then Err(UnexpectedHeading)
      else
        var s1 := SetBody(s, k, ReplaceBody(body, entry));
        var s2 := s1.(rows := SetRow(s1.rows, t.did, RenderIndexRow(t.did, t.proposal)));
        if FirstStatus(body) == Some("deprecated") then Ok(Edit(DropRetired(s2, t.did), [Action(t.did, ReAccepted)]))
        else Ok(Edit(s2, [Action(t.did, Amended)]))
  }

  function TitleOf(body: seq<string>): string {
    if body == [] then "" else HeadingTitle(body[0])
  }

  function DeclineS(s: Sections, t: Target, k: nat): Result<Edit>
    requires k < |s.entries|
  {
    var body := s.entries[k].body;
    if FirstStatus(body).None? then Err(NoStatus)
    else if FirstStatus(body) == Some("deprecated") then
      Ok(Edit(s, if RowIndex(s.retRows, t.did) < |s.retRows| then [] else [Note(t.did)]))
    else if FirstStatus(body) != Some("active") then Err(UnexpectedStatus)
    else
      var s1 := SetBody(s, k, RetireBody(body));
      var s2 := s1.(rows := DropRows(s1.rows, t.did));
      Ok(Edit(AddRetired(s2, t.did, TitleOf(body)), [Action(t.did, RetiredEntry)]))
  }

  function StepS(s: Sections, t: Target, today: string): Result<Edit> {
    var k := EntryIndex(s.entries, t.did);
    if k == |s.entries| then
      if t.decision == Accepted then AddNewS(s, t, today) else Ok(Edit(s, [Note(t.did)]))
    else if !IsServiceOwned(s.entries[k].body) then Ok(Edit(s, [Conflict(t.did)]))
    else if t.decision == Accepted then AmendS(s, t, today, k)
    else DeclineS(s, t, k)
  }

  function StepsS(s: Sections, targets: seq<Target>, today: string): Result<Edit> {
    if targets == [] then Ok(Edit(s, []))
    else
      var before :- StepsS(s, targets[..|targets| - 1], today);
      var last :- StepS(before.s, targets[|targets| - 1], today);
      Ok(Edit(last.s, before.events + last.events))
  }

  // ------------------------------------------------------------------
  // Where the parts lie in the flat document
  // ------------------------------------------------------------------

  lemma {:induction false} FlatEntriesSplit(a: seq<Entry>, b: seq<Entry>)
    ensures FlatEntries(a + b) == FlatEntries(a) + FlatEntries(b)
  {
    if a == [] {
      assert a + b == b;
    } else {
      assert (a + b)[1..] == a[1..] + b;
      FlatEntriesSplit(a[1..], b);
    }
  }

  lemma {:induction false} FlatEntriesPlain(es: seq<Entry>, did: string)
    requires forall e <- es :: ValidEntry(e)
    ensures NoRetired(FlatEntries(es))
    ensures (forall e <- es :: e.id != did) ==> forall l <- FlatEntries(es) :: DirId(l) != Some(did)
    ensures es != [] ==> FlatEntries(es) != [] && DirId(FlatEntries(es)[0]) == Some(es[0].id)
  {
    hide DirId, IsRetired, IsSection;
    if es != [] {
      var e := es[0];
      assert ValidEntry(e);
      FlatEntriesPlain(es[1..], did);
      forall l | l in e.body
        ensures !IsRetired(l)
        ensures e.id != did ==> DirId(l) != Some(did)
      {
        var i :| 0 <= i < |e.body| && e.body[i] == l;
        DirIdIsSection(l);
      }
      assert forall l <- FlatEntries(es) :: l in e.body || l in e.tail || l in FlatEntries(es[1..]);
    }
  }

  /** The parts before and after the span of entry k. */
  function BeforeSpan(s: Sections, k: nat): seq<string>
    requires k <= |s.entries|
  {
    Top(s) + FlatEntries(s.entries[..k])
  }

  function AfterSpan(s: Sections, k: nat): seq<string>
    requires k < |s.entries|
  {
    s.entries[k].tail + (FlatEntries(s.entries[k + 1..]) + Bottom(s))
  }

  lemma FlatAtEntry(s: Sections, k: nat)
    requires k < |s.entries|
    ensures Flat(s) == BeforeSpan(s, k) + s.entries[k].body + AfterSpan(s, k)
  {
    var es := s.entries;
    assert es == es[..k] + es[k..];
    FlatEntriesSplit(es[..k], es[k..]);
    assert es[k..][1..] == es[k + 1..];
    var a, f, b, t, g, z := Top(s), FlatEntries(es[..k]), es[k].body, es[k].tail, FlatEntries(es[k + 1..]), Bottom(s);
    assert FlatEntries(es) == f + (b + t + g);
    Regroup6(a, f, b, t, g, z);
  }

  lemma Regroup6(a: seq<string>, f: seq<string>, b: seq<string>, t: seq<string>, g: seq<string>, z: seq<string>)
    ensures a + (f + (b + t + g)) + z == a + f + b + (t + (g + z))
  {
    assert a + (f + (b + t + g)) + z == a + f + (b + t + g) + z;
    assert a + f + (b + t + g) + z == a + f + b + (t + g) + z;
    assert (t + g) + z == t + (g + z);
  }

  lemma SpanAt(a: seq<string>, b: seq<string>, c: seq<string>, did: string)
    requires IsEntry(did, b)
    requires forall l <- a :: DirId(l) != Some(did)
    requires forall l <- c :: DirId(l) != Some(did)
    requires c != [] && IsSection(c[0])
    ensures FindSpan(a + b + c, did) == Ok(Some(Span(|a|, |a| + |b|)))
    ensures (a + b + c)[|a|..|a| + |b|] == b
    ensures (a + b + c)[|a| + |b|] == c[0]
  {
    hide DirId, IsSection;
    var doc := a + b + c;
    assert forall i :: 0 <= i < |a| ==> doc[i] == a[i] && a[i] in a;
    assert forall i :: 0 <= i < |b| ==> doc[|a| + i] == b[i];
    assert forall i :: 0 <= i < |c| ==> doc[|a| + |b| + i] == c[i] && c[i] in c;
    assert doc[|a|] == b[0];
    forall i | |a| < i < |doc|
      ensures DirId(doc[i]) != Some(did)
    {
      if i < |a| + |b| {
        assert doc[i] == b[i - |a|];
        DirIdIsSection(doc[i]);
      } else {
        assert doc[i] == c[i - |a| - |b|];
      }
    }
    hide NextHeading;
    assert NextHeading(doc, did, 0) == |a|;
    assert NextHeading(doc, did, |a| + 1) == |doc|;
    SpanEnd(a, b, c);
  }

  lemma SpanEnd(a: seq<string>, b: seq<string>, c: seq<string>)
    requires b != [] && c != [] && IsSection(c[0]) && forall i :: 1 <= i < |b| ==> !IsSection(b[i])
    ensures NextSection(a + b + c, |a| + 1) == |a| + |b| && (a + b + c)[|a| + |b|] == c[0]
  {
    hide IsSection, NextSection;
    var doc := a + b + c;
    forall i | |a| + 1 <= i < |a| + |b|
      ensures !IsSection(doc[i])
    {
      assert doc[i] == b[i - |a|];
    }
    assert doc[|a| + |b|] == c[0];
    NextSectionIs(doc, |a| + 1, |a| + |b|);
  }

  lemma NextSectionIs(doc: Doc, i: nat, j: nat)
    requires i <= j < |doc| && IsSection(doc[j]) && forall k :: i <= k < j ==> !IsSection(doc[k])
    ensures NextSection(doc, i) == j
  {
    hide IsSection;
  }

  lemma SpanAbsent(doc: Doc, did: string)
    requires forall l <- doc :: DirId(l) != Some(did)
    ensures FindSpan(doc, did) == Ok(None)
  {
    hide DirId;
    assert forall i :: 0 <= i < |doc| ==> doc[i] in doc;
  }

  lemma IndexTableAt(h: seq<string>, r: seq<string>, c: seq<string>)
    requires EndsInHeader(h, Index, 0) && AllRows(r) && NotRowFirst(c) && c != []
    ensures FindTable(h + r + c, Index) == Ok(Span(|h|, |h| + |r|))
  {
    hide IsIndexHeader, IsRow;
    var doc := h + r + c;
    assert forall i :: 0 <= i < |h| ==> doc[i] == h[i];
    forall i | 0 <= i < |h| - 1
      ensures HeaderAt(doc, Index, i) <==> i == |h| - 2
    {
      assert doc[i] == h[i] && doc[i + 1] == h[i + 1];
      assert IsHeaderPair(Index, h[i], h[i + 1]) <==> i == |h| - 2;
    }
    assert HeaderAt(doc, Index, |h| - 2);
    assert NextHeader(doc, Index, 0) == |h| - 2;
    RowsEndAt(h, r, c);
  }

  lemma RowsEndAt(a: seq<string>, r: seq<string>, c: seq<string>)
    requires AllRows(r) && NotRowFirst(c)
    ensures RowsEnd(a + r + c, |a|) == |a| + |r|
  {
    hide IsRow;
    var doc := a + r + c;
    forall i | |a| <= i < |a| + |r|
      ensures IsRow(doc[i])
    {
      assert doc[i] == r[i - |a|] && r[i - |a|] in r;
    }
    assert c != [] ==> doc[|a| + |r|] == c[0] && !IsRow(doc[|a| + |r|]);
  }

  lemma NextRetiredAt(a: seq<string>, t: seq<string>)
    requires NoRetired(a) && t != [] && IsRetired(t[0])
    ensures NextRetired(a + t, 0) == |a|
  {
    hide IsRetired;
    var doc := a + t;
    assert forall i :: 0 <= i < |a| ==> doc[i] == a[i] && a[i] in a;
    assert doc[|a|] == t[0];
  }

  lemma RetiredTableAt(a: seq<string>, t: seq<string>, r: seq<string>, c: seq<string>)
    requires NoRetired(a) && t != [] && IsRetired(t[0]) && EndsInHeader(t, Retired, 1)
    requires AllRows(r) && NotRowFirst(c) && r + c != []
    ensures FindTable(a + t + r + c, Retired) == Ok(Span(|a| + |t|, |a| + |t| + |r|))
  {
    hide IsRetiredHeader, IsRow, IsRetired;
    var doc := a + t + r + c;
    assert doc == a + (t + r + c);
    NextRetiredAt(a, t + r + c);
    forall j | |a| + 1 <= j < |a| + |t| - 1
      ensures HeaderAt(doc, Retired, j) <==> j == |a| + |t| - 2
    {
      var i := j - |a|;
      assert doc[j] == t[i] && doc[j + 1] == t[i + 1];
      assert IsHeaderPair(Retired, t[i], t[i + 1]) <==> i == |t| - 2;
    }
    assert HeaderAt(doc, Retired, |a| + |t| - 2);
    assert NextHeader(doc, Retired, |a| + 1) == |a| + |t| - 2;
    RowsEndAt(a + t, r, c);
  }

  lemma InsertLineAt(a: seq<string>, b: seq<string>, line: string)
    ensures InsertLine(a + b, |a|, line) == a + [line] + Terminated(b)
  {
    assert (a + b)[..|a|] == a && (a + b)[|a|..] == b;
    assert b == [] ==> a + b == a;
    assert a + [line] + [""] == a + [line, ""];
  }

  lemma RemoveLineAt(a: seq<string>, line: string, b: seq<string>)
    ensures RemoveLine(a + [line] + b, |a|) == a + Terminated(b)
  {
    var doc := a + [line] + b;
    assert doc[..|a|] == a && doc[|a| + 1..] == b;
  }

  function AfterDrop(r: seq<string>, b: seq<string>, did: string): seq<string> {
    if r != [] && RowId(r[|r| - 1]) == Some(did) then Terminated(b) else b
  }

  /** Removing rows last first leaves exactly the other rows, in order. */
  lemma {:induction false} RemoveRowsAt(a: seq<string>, r: seq<string>, b: seq<string>, did: string)
    ensures RemoveRowsIn(a + r + b, did, |a|, |a| + |r|) == a + DropRows(r, did) + AfterDrop(r, b, did)
    decreases |r|
  {
    hide RowId, RemoveLine;
    if r == [] {
    } else {
      var r', row := r[..|r| - 1], r[|r| - 1];
      var doc := a + r + b;
      assert r == r' + [row];
      assert doc == (a + r') + [row] + b;
      assert doc[|a| + |r| - 1] == row;
      if RowId(row) == Some(did) {
        var c := Terminated(b);
        RemoveLineAt(a + r', row, b);
        RemoveRowsAt(a, r', c, did);
        assert AfterDrop(r', c, did) == c;
      } else {
        assert doc == a + r' + ([row] + b);
        RemoveRowsAt(a, r', [row] + b, did);
        assert AfterDrop(r', [row] + b, did) == [row] + b;
        Regroup(a, DropRows(r', did), [row], b);
      }
    }
  }

  lemma Regroup(a: seq<string>, b: seq<string>, c: seq<string>, d: seq<string>)
    ensures a + b + (c + d) == a + (b + c) + d
    ensures (a + b) + c + d == a + (b + c) + d
  {}

  lemma NextRowOfAt(a: seq<string>, r: seq<string>, b: seq<string>, did: string)
    ensures NextRowOf(a + r + b, did, |a|, |a| + |r|) == |a| + RowIndex(r, did)
  {
    hide RowId;
    var doc := a + r + b;
    assert forall i :: 0 <= i < |r| ==> doc[|a| + i] == r[i];
    assert forall j :: |a| <= j < |a| + |r| ==> doc[j] == r[j - |a|];
  }

  lemma NextRowAboveAt(a: seq<string>, r: seq<string>, b: seq<string>, number: nat)
    ensures NextRowAbove(a + r + b, number, |a|, |a| + |r|) == |a| + FirstAbove(r, number)
  {
    hide RowAbove;
    var doc := a + r + b;
    assert forall i :: 0 <= i < |r| ==> doc[|a| + i] == r[i];
    assert forall j :: |a| <= j < |a| + |r| ==> doc[j] == r[j - |a|];
  }

  /** Setting a row of a table that something follows. */
  lemma SetRowAt(a: seq<string>, r: seq<string>, b: seq<string>, did: string, row: string)
    requires b != []
    ensures SetRowIn(a + r + b, did, row, |a|, |a| + |r|) == a + SetRow(r, did, row) + b
  {
    hide RowAbove, RowId, Number, ReplaceLine, InsertLine, NextRowOf, NextRowAbove, RowIndex, FirstAbove;
    NextRowOfAt(a, r, b, did);
    var k := RowIndex(r, did);
    if k < |r| {
      ReplaceRowAt(a, r, b, k, row);
    } else {
      var at := FirstAbove(r, Number(did));
      NextRowAboveAt(a, r, b, Number(did));
      InsertRowAt(a, r, b, at, row);
      assert SetRow(r, did, row) == r[..at] + [row] + r[at..];
    }
  }

  lemma ReplaceRowAt(a: seq<string>, r: seq<string>, b: seq<string>, k: nat, row: string)
    requires k < |r| && b != []
    ensures ReplaceLine(a + r + b, |a| + k, row) == a + r[k := row] + b
  {
    var doc := a + r + b;
    assert doc[|a| + k := row] == a + r[k := row] + b;
  }

  lemma InsertRowAt(a: seq<string>, r: seq<string>, b: seq<string>, at: nat, row: string)
    requires at <= |r| && b != []
    ensures InsertLine(a + r + b, |a| + at, row) == a + (r[..at] + [row] + r[at..]) + b
  {
    hide InsertLine;
    var x, y := r[..at], r[at..];
    assert r == x + y;
    InsertInside(a, x, y, b, row);
  }

  lemma InsertInside(a: seq<string>, x: seq<string>, y: seq<string>, b: seq<string>, row: string)
    requires b != []
    ensures InsertLine(a + (x + y) + b, |a| + |x|, row) == a + (x + [row] + y) + b
  {
    hide InsertLine;
    Regroup(a, x, y, b);
    InsertLineAt(a + x, y + b, row);
    Regroup4(a, x, [row], y, b);
  }

  lemma Regroup4(a: seq<string>, b: seq<string>, c: seq<string>, d: seq<string>, e: seq<string>)
    ensures a + b + c + (d + e) == a + (b + c + d) + e
  {}
}
