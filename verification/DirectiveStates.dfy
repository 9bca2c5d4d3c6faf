/** The two tables agree with the entries' statuses after every run, and the Index stays in order. */
module DirectiveStates {
  import opened Options
  import opened Text
  import opened DirectiveLines
  import opened DirectiveEntries
  import opened DirectiveDoc
  import opened DirectiveSections
  import opened DirectiveRefine
  import opened DirectiveStep
  import opened DirectivePreservation
  import opened DirectiveDecisions

  predicate HasRow(rows: seq<string>, d: string) {
    exists l <- rows :: RowId(l) == Some(d)
  }

  predicate IsActive(s: Sections, d: string) {
    && BodyOf(s, d).Some? && FirstStatus(BodyOf(s, d).value) == Some("active")
    && HasRow(s.rows, d) && !HasRow(s.retRows, d)
  }

  predicate IsDeprecated(s: Sections, d: string) {
    && BodyOf(s, d).Some? && FirstStatus(BodyOf(s, d).value) == Some("deprecated")
    && !HasRow(s.rows, d) && HasRow(s.retRows, d)
  }

  /** Rows are rows of entries, and an owned entry is active or deprecated with the rows of that state. */
  predicate Consistent(s: Sections, d: string) {
    && (HasRow(s.rows, d) || HasRow(s.retRows, d) ==> BodyOf(s, d).Some?)
    && (OwnedBody(BodyOf(s, d)) ==> IsActive(s, d) || IsDeprecated(s, d))
  }

  // ------------------------------------------------------------------
  // Rows under the edits
  // ------------------------------------------------------------------

  lemma HasRowIndex(rows: seq<string>, d: string)
    ensures HasRow(rows, d) <==> RowIndex(rows, d) < |rows|
  {
    hide RowId;
    var k := RowIndex(rows, d);
    if k < |rows| {
      assert rows[k] in rows;
    }
  }

  lemma HasRowAppend(rows: seq<string>, row: string, did: string, d: string)
    requires RowId(row) == Some(did)
    ensures HasRow(rows + [row], d) <==> d == did || HasRow(rows, d)
  {
    hide RowId;
    assert forall l :: l in rows + [row] <==> l in rows || l == row;
  }

  lemma HasRowDrop(rows: seq<string>, did: string, d: string)
    ensures HasRow(DropRows(rows, did), d) <==> d != did && HasRow(rows, d)
  {
    hide RowId, DropRows;
    DropRowsSubset(rows, did);
  }

  lemma HasRowSet(rows: seq<string>, did: string, row: string, d: string)
    requires RowId(row) == Some(did)
    ensures HasRow(SetRow(rows, did, row), d) <==> d == did || HasRow(rows, d)
  {
    hide RowId, RowIndex, FirstAbove, RowAbove, Number;
    var k := RowIndex(rows, did);
    var after := SetRow(rows, did, row);
    if k < |rows| {
      assert after[k] == row && row in after;
      if HasRow(rows, d) && d != did {
        var i :| 0 <= i < |rows| && RowId(rows[i]) == Some(d);
        assert after[i] == rows[i];
      }
      forall l | l in after
        ensures l == row || l in rows
      {
        var i :| 0 <= i < |after| && after[i] == l;
      }
    } else {
      var at := FirstAbove(rows, Number(did));
      assert rows == rows[..at] + rows[at..];
      assert forall l :: l in after <==> l in rows || l == row;
    }
  }

  // ------------------------------------------------------------------
  // One decision
  // ------------------------------------------------------------------

  lemma AddNewConsistent(s: Sections, t: Target, today: string, e: Edit)
    requires ValidId(t.did) && EntryIndex(s.entries, t.did) == |s.entries| && AddNewS(s, t, today) == Ok(e)
    requires Consistent(s, t.did)
    ensures IsActive(e.s, t.did)
  {
    hide EntryIndex, RenderEntry, RenderIndexRow, TextLength, NewAddedLine, RowId, FirstStatus, HasRow, Written, IsServiceOwned;
    var added := NewAddedLine(DateOf(t.proposal, today), t.evidence);
    var body := RenderEntry(t.did, t.proposal, added) + [""];
    NewBodyIsWritten(t.did, t.proposal, added);
    WrittenShape(t.did, t.proposal, added, "", [""], body);
    BodyOfAdd(s, t.did, body, t.did);
    assert BodyOf(e.s, t.did) == Some(body);
    RenderedRows(t.did, t.proposal, "");
    HasRowAppend(s.rows, RenderIndexRow(t.did, t.proposal), t.did, t.did);
  }

  lemma AmendConsistent(s: Sections, t: Target, today: string, k: nat, e: Edit)
    requires k < |s.entries| && k == EntryIndex(s.entries, t.did) && s.entries[k].id == t.did && ValidId(t.did)
    requires IsEntry(t.did, s.entries[k].body) && IsServiceOwned(s.entries[k].body)
    requires AmendS(s, t, today, k) == Ok(e) && Consistent(s, t.did)
    ensures e.events == [] ==> e.s == s
    ensures e.events != [] ==> IsActive(e.s, t.did)
  {
    hide EntryIndex, RenderEntry, RenderIndexRow, TextLength, NewAddedLine, RowId, FirstStatus, FirstAdded, HasRow, IsServiceOwned, IsEntry,
      SameLines, IsTemplate, ReplaceBody, SetRow, DropRows;
    var body := s.entries[k].body;
    OwnedHasAdded(body);
    var added := FirstAdded(body).value;
    RenderNotEmpty(t.did, t.proposal, added);
    var written := ReplaceBody(body, RenderEntry(t.did, t.proposal, added));
    ReplacedBody(t.did, t.proposal, added, body);
    BodyOfSet(s, k, written, t.did);
    RenderedRows(t.did, t.proposal, "");
    HasRowSet(s.rows, t.did, RenderIndexRow(t.did, t.proposal), t.did);
    HasRowDrop(s.retRows, t.did, t.did);
    if e.events != [] {
      assert e.s.entries == SetBody(s, k, written).entries;
    }
  }

  lemma DeclineConsistent(s: Sections, t: Target, k: nat, e: Edit)
    requires k < |s.entries| && k == EntryIndex(s.entries, t.did) && s.entries[k].id == t.did && ValidId(t.did)
    requires IsServiceOwned(s.entries[k].body)
    requires DeclineS(s, t, k) == Ok(e) && Consistent(s, t.did)
    ensures IsDeprecated(e.s, t.did)
  {
    hide EntryIndex, RowId, FirstStatus, HasRow, IsServiceOwned, DropRows, RetireBody, RenderRetiredRow, TitleOf, RowIndex;
    var body := s.entries[k].body;
    if FirstStatus(body) != Some("deprecated") {
      BodyOfSet(s, k, RetireBody(body), t.did);
      assert e.s.entries == SetBody(s, k, RetireBody(body)).entries;
      RetireShape(body);
      var row := RenderRetiredRow(t.did, TitleOf(body));
      RenderedRows(t.did, t.proposal, TitleOf(body));
      HasRowIndex(s.retRows, t.did);
      HasRowAppend(s.retRows, row, t.did, t.did);
      HasRowDrop(s.rows, t.did, t.did);
    }
  }

  /** No decision moves another id's rows. */
  lemma OtherRows(s: Sections, t: Target, today: string, e: Edit, d: string)
    requires StepS(s, t, today) == Ok(e) && d != t.did && ValidId(t.did)
    ensures HasRow(e.s.rows, d) == HasRow(s.rows, d)
    ensures HasRow(e.s.retRows, d) == HasRow(s.retRows, d)
  {
    hide EntryIndex, RowId, FirstStatus, FirstAdded, HasRow, IsServiceOwned, DropRows, RetireBody, RenderRetiredRow, TitleOf, RowIndex, SetRow,
      RenderEntry, RenderIndexRow, TextLength, NewAddedLine, SameLines, IsTemplate, ReplaceBody;
    var row := RenderIndexRow(t.did, t.proposal);
    RenderedRows(t.did, t.proposal, "");
    HasRowAppend(s.rows, row, t.did, d);
    HasRowSet(s.rows, t.did, row, d);
    HasRowDrop(s.rows, t.did, d);
    HasRowDrop(s.retRows, t.did, d);
    var k := EntryIndex(s.entries, t.did);
    if k < |s.entries| {
      var title := TitleOf(s.entries[k].body);
      RenderedRows(t.did, t.proposal, title);
      HasRowAppend(s.retRows, RenderRetiredRow(t.did, title), t.did, d);
    }
  }

  /** One decision keeps every id consistent, and puts its own id in the state it names. */
  lemma StepConsistent(s: Sections, t: Target, today: string, e: Edit, d: string)
    requires Valid(s) && ValidId(t.did) && StepS(s, t, today) == Ok(e)
    requires Consistent(s, d)
    ensures Consistent(e.s, d)
    ensures d == t.did && e.events != [] && e.events[0].Action? ==>
              if t.decision == Accepted then IsActive(e.s, d) else IsDeprecated(e.s, d)
  {
    hide Valid, EntryIndex, HasRow, IsServiceOwned, AddNewS, AmendS, DeclineS, FirstStatus, IsEntry;
    NoActionNoChange(s, t, today, e);
    if d != t.did {
      OtherBodies(s, t, today, e, d);
      OtherRows(s, t, today, e, d);
    } else {
      var k := EntryIndex(s.entries, t.did);
      if k == |s.entries| {
        if t.decision == Accepted {
          AddNewConsistent(s, t, today, e);
        }
      } else {
        ValidEntryAt(s, k);
        if IsServiceOwned(s.entries[k].body) {
          if t.decision == Accepted {
            AmendConsistent(s, t, today, k, e);
          } else {
            DeclineConsistent(s, t, k, e);
          }
        }
      }
    }
  }

  predicate Decided(targets: seq<Target>, d: string, decision: Decision) {
    exists t <- targets :: t.did == d && t.decision == decision
  }

  /**
   * Over a whole run: every id stays consistent, and every id the run acted on ends in the
   * state its decision names, active with an Index row or deprecated with a Retired row.
   */
  lemma {:induction false} RunConsistent(s: Sections, targets: seq<Target>, today: string, e: Edit, d: string)
    requires Valid(s) && ValidTargets(targets) && |today| <= 10
    requires StepsS(s, targets, today) == Ok(e) && Consistent(s, d)
    ensures Consistent(e.s, d)
    ensures d in Touched(e.events) + Appended(e.events) ==>
              || (Decided(targets, d, Accepted) && IsActive(e.s, d))
              || (Decided(targets, d, Declined) && IsDeprecated(e.s, d))
  {
    hide Valid, StepS, ValidId, Consistent, IsActive, IsDeprecated, Touched, Appended;
    NothingTouched();
    if targets != [] {
      var n := |targets| - 1;
      var t := targets[n];
      assert t in targets;
      ValidPrefix(targets, n);
      StepsRefine(s, targets[..n], today);
      var before := StepsS(s, targets[..n], today).value;
      RunConsistent(s, targets[..n], today, before, d);
      var last := StepS(before.s, t, today).value;
      assert e == Edit(last.s, before.events + last.events);
      StepConsistent(before.s, t, today, last, d);
      NoActionNoChange(before.s, t, today, last);
      TouchedSum(before.events, last.events);
      LastEvents(t, last.events);
      if d != t.did {
        StateOfOther(before.s, t, today, last, d);
      } else {
        RunKeeps(s, targets[..n], today, before);
        assert forall u <- targets[..n] :: u.did != d;
        TouchedOnly(before.events, d);
      }
      assert forall u <- targets[..n] :: u in targets;
    }
  }

  lemma StateOfOther(s: Sections, t: Target, today: string, e: Edit, d: string)
    requires StepS(s, t, today) == Ok(e) && d != t.did && ValidId(t.did)
    ensures IsActive(s, d) ==> IsActive(e.s, d)
    ensures IsDeprecated(s, d) ==> IsDeprecated(e.s, d)
  {
    hide StepS, FirstStatus, HasRow;
    OtherBodies(s, t, today, e, d);
    OtherRows(s, t, today, e, d);
  }

  // ------------------------------------------------------------------
  // The order of the Index
  // ------------------------------------------------------------------

  /** If both rows carry an id, their numbers do not decrease. */
  predicate InOrder(a: string, b: string) {
    RowId(a).Some? && RowId(b).Some? ==> Number(RowId(a).value) <= Number(RowId(b).value)
  }

  predicate Sorted(rows: seq<string>) {
    forall i, j :: 0 <= i < j < |rows| ==> InOrder(rows[i], rows[j])
  }

  predicate NoneAbove(rows: seq<string>, number: nat) {
    forall l <- rows :: !RowAbove(l, number)
  }

  lemma InsertSorted(rows: seq<string>, at: nat, row: string)
    requires at <= |rows| && Sorted(rows)
    requires forall i :: 0 <= i < at ==> InOrder(rows[i], row)
    requires forall i :: at <= i < |rows| ==> InOrder(row, rows[i])
    ensures Sorted(rows[..at] + [row] + rows[at..])
  {
    hide InOrder;
    var after := rows[..at] + [row] + rows[at..];
    assert forall i :: 0 <= i < |after| ==> after[i] == if i < at then rows[i] else if i == at then row else rows[i - 1];
  }

  /** Setting a row keeps a sorted Index sorted. */
  lemma SetRowSorted(rows: seq<string>, did: string, row: string)
    requires RowId(row) == Some(did) && Sorted(rows)
    ensures Sorted(SetRow(rows, did, row))
  {
    hide RowId, Number, RowIndex, FirstAbove;
    var k := RowIndex(rows, did);
    if k < |rows| {
      var after := rows[k := row];
      forall i, j | 0 <= i < j < |after|
        ensures InOrder(after[i], after[j])
      {
        assert InOrder(rows[i], rows[j]);
      }
    } else {
      var at := FirstAbove(rows, Number(did));
      forall i | 0 <= i < at
        ensures InOrder(rows[i], row)
      {
        assert !RowAbove(rows[i], Number(did));
      }
      forall i | at <= i < |rows|
        ensures InOrder(row, rows[i])
      {
        assert RowAbove(rows[at], Number(did));
        assert i > at ==> InOrder(rows[at], rows[i]);
      }
      InsertSorted(rows, at, row);
    }
  }

  /** Setting a row changes one place and leaves the other rows in their order. */
  lemma SetRowMovesNothing(rows: seq<string>, did: string, row: string)
    ensures var after := SetRow(rows, did, row);
            exists at :: 0 <= at < |after| && after[at] == row &&
              (|| after[..at] + after[at + 1..] == rows
               || (|after| == |rows| && RowId(rows[at]) == Some(did) && after == rows[at := row]))
  {
    hide RowId, Number, RowIndex, FirstAbove;
    var k := RowIndex(rows, did);
    var after := SetRow(rows, did, row);
    if k < |rows| {
      assert after[k] == row;
    } else {
      var at := FirstAbove(rows, Number(did));
      assert after[at] == row;
      assert after[..at] + after[at + 1..] == rows;
    }
  }

  lemma SortedOneMore(rows: seq<string>, row: string)
    requires Sorted(rows) && forall x <- rows :: InOrder(x, row)
    ensures Sorted(rows + [row])
  {
    hide InOrder;
    var more := rows + [row];
    assert forall i :: 0 <= i < |rows| ==> more[i] == rows[i] && rows[i] in rows;
  }

  lemma {:induction false} DropRowsSorted(rows: seq<string>, did: string)
    requires Sorted(rows)
    ensures Sorted(DropRows(rows, did))
  {
    hide RowId, InOrder;
    if rows != [] {
      var n := |rows| - 1;
      DropRowsSorted(rows[..n], did);
      DropRowsSubset(rows[..n], did);
      var front := DropRows(rows[..n], did);
      forall x | x in front
        ensures InOrder(x, rows[n])
      {
        assert x in rows[..n];
        var j :| 0 <= j < n && rows[j] == x;
      }
      SortedOneMore(front, rows[n]);
    }
  }

  lemma AppendSorted(rows: seq<string>, did: string, row: string)
    requires RowId(row) == Some(did) && Sorted(rows) && NoneAbove(rows, Number(did))
    ensures Sorted(rows + [row])
  {
    hide RowId, Number;
    assert forall i :: 0 <= i < |rows| ==> rows[i] in rows;
    InsertSorted(rows, |rows|, row);
    assert rows[..|rows|] + [row] + rows[|rows|..] == rows + [row];
  }

  lemma SetRowNoneAbove(rows: seq<string>, did: string, row: string, number: nat)
    requires RowId(row) == Some(did) && NoneAbove(rows, number) && Number(did) <= number
    ensures NoneAbove(SetRow(rows, did, row), number)
  {
    hide RowId, Number, RowIndex, FirstAbove;
    assert forall l <- SetRow(rows, did, row) :: l in rows || l == row;
  }

  /** A decision leaves the Index in order if a new number goes above all the others. */
  lemma StepSorted(s: Sections, t: Target, today: string, e: Edit, number: nat)
    requires ValidId(t.did) && StepS(s, t, today) == Ok(e)
    requires t.decision == Accepted && BodyOf(s, t.did).None? ==> NoneAbove(s.rows, Number(t.did))
    ensures Sorted(s.rows) ==> Sorted(e.s.rows)
    ensures NoneAbove(s.rows, number) && Number(t.did) <= number ==> NoneAbove(e.s.rows, number)
  {
    hide EntryIndex, RowId, FirstStatus, FirstAdded, IsServiceOwned, DropRows, RetireBody, RenderRetiredRow, TitleOf, RowIndex, SetRow,
      RenderEntry, RenderIndexRow, TextLength, NewAddedLine, SameLines, IsTemplate, ReplaceBody, Sorted, Number;
    var row := RenderIndexRow(t.did, t.proposal);
    RenderedRows(t.did, t.proposal, "");
    DropRowsSubset(s.rows, t.did);
    if NoneAbove(s.rows, number) && Number(t.did) <= number {
      SetRowNoneAbove(s.rows, t.did, row, number);
      assert forall l <- s.rows + [row] :: l in s.rows || l == row;
    }
    if Sorted(s.rows) {
      SetRowSorted(s.rows, t.did, row);
      DropRowsSorted(s.rows, t.did);
      if NoneAbove(s.rows, Number(t.did)) {
        AppendSorted(s.rows, t.did, row);
      }
    }
  }

  /** The decisions are taken in the order of their numbers, as the exporter sorts them. */
  predicate Ascending(targets: seq<Target>) {
    forall i, j :: 0 <= i < j < |targets| ==> Number(targets[i].did) <= Number(targets[j].did)
  }

  /** A run over a sorted Index leaves it sorted, if each new directive's number is above the Index. */
  lemma {:induction false} RunSorted(s: Sections, targets: seq<Target>, today: string, e: Edit, number: nat)
    requires Valid(s) && ValidTargets(targets) && Ascending(targets) && |today| <= 10
    requires StepsS(s, targets, today) == Ok(e) && Sorted(s.rows)
    requires forall t <- targets :: t.decision == Accepted && BodyOf(s, t.did).None? ==> NoneAbove(s.rows, Number(t.did))
    ensures Sorted(e.s.rows)
    ensures NoneAbove(s.rows, number) && (forall t <- targets :: Number(t.did) <= number) ==> NoneAbove(e.s.rows, number)
  {
    hide Valid, StepS, ValidId, Sorted, NoneAbove, BodyOf, Touched, Appended, OwnedBody, Number;
    if targets != [] {
      var n := |targets| - 1;
      var t := targets[n];
      assert t in targets;
      ValidPrefix(targets, n);
      StepsRefine(s, targets[..n], today);
      var before := StepsS(s, targets[..n], today).value;
      assert forall u <- targets[..n] :: u in targets && u.did != t.did;
      RunKeeps(s, targets[..n], today, before);
      RunSorted(s, targets[..n], today, before, number);
      RunSorted(s, targets[..n], today, before, Number(t.did));
      StepSorted(before.s, t, today, StepS(before.s, t, today).value, number);
    }
  }

  // ------------------------------------------------------------------
  // Exactly when the Index stays sorted
  // ------------------------------------------------------------------

  /** Adding a row at the end keeps a sorted Index sorted exactly when none of its numbers is above. */
  lemma AppendSortedIff(rows: seq<string>, did: string, row: string)
    requires RowId(row) == Some(did) && Sorted(rows)
    ensures Sorted(rows + [row]) <==> NoneAbove(rows, Number(did))
  {
    hide RowId, Number;
    if NoneAbove(rows, Number(did)) {
      AppendSorted(rows, did, row);
    } else {
      var l :| l in rows && RowAbove(l, Number(did));
      AboveBreaks(rows, l, did, row);
    }
  }

  lemma AboveBreaks(rows: seq<string>, l: string, did: string, row: string)
    requires l in rows && RowAbove(l, Number(did)) && RowId(row) == Some(did)
    ensures !Sorted(rows + [row])
  {
    hide RowId, Number;
    var i :| 0 <= i < |rows| && rows[i] == l;
    var more := rows + [row];
    assert more[i] == l && more[|rows|] == row && !InOrder(more[i], more[|rows|]);
  }

  /** A decision leaves every row with a higher number where it is. */
  lemma AboveStays(s: Sections, t: Target, today: string, e: Edit, l: string, number: nat)
    requires ValidId(t.did) && StepS(s, t, today) == Ok(e) && Number(t.did) <= number
    requires l in s.rows && RowAbove(l, number)
    ensures l in e.s.rows
  {
    hide EntryIndex, RowId, FirstStatus, FirstAdded, IsServiceOwned, DropRows, RetireBody, RenderRetiredRow, TitleOf, RowIndex, SetRow,
      RenderEntry, RenderIndexRow, TextLength, NewAddedLine, SameLines, IsTemplate, ReplaceBody, Number, FirstAbove;
    SetKeepsOthers(s.rows, t.did, RenderIndexRow(t.did, t.proposal), l);
    DropKeepsOthers(s.rows, t.did, l);
  }

  lemma SetKeepsOthers(rows: seq<string>, did: string, row: string, l: string)
    requires l in rows && RowId(l) != Some(did)
    ensures l in SetRow(rows, did, row)
  {
    hide RowId, Number, RowIndex, FirstAbove;
    var i :| 0 <= i < |rows| && rows[i] == l;
    var k, at := RowIndex(rows, did), FirstAbove(rows, Number(did));
    if k < |rows| {
      assert rows[k := row][i] == l;
    } else {
      assert rows[..at] + rows[at..] == rows;
    }
  }

  lemma {:induction false} DropKeepsOthers(rows: seq<string>, did: string, l: string)
    requires l in rows && RowId(l) != Some(did)
    ensures l in DropRows(rows, did)
  {
    hide RowId;
    var front, last := rows[..|rows| - 1], rows[|rows| - 1];
    assert rows == front + [last];
    if l in front {
      DropKeepsOthers(front, did, l);
    }
  }

  lemma {:induction false} RunAboveStays(s: Sections, targets: seq<Target>, today: string, e: Edit, l: string, number: nat)
    requires ValidTargets(targets) && StepsS(s, targets, today) == Ok(e)
    requires forall t <- targets :: Number(t.did) <= number
    requires l in s.rows && RowAbove(l, number)
    ensures l in e.s.rows
  {
    hide StepS, ValidId, Number, RowAbove;
    if targets != [] {
      var n := |targets| - 1;
      var t := targets[n];
      assert t in targets && forall u <- targets[..n] :: u in targets;
      ValidPrefix(targets, n);
      var before := StepsS(s, targets[..n], today).value;
      RunAboveStays(s, targets[..n], today, before, l, number);
      AboveStays(before.s, t, today, StepS(before.s, t, today).value, l, number);
    }
  }

  /** The rows after the first k decisions, when none of them is refused. */
  predicate SortedAfter(s: Sections, targets: seq<Target>, today: string, k: nat)
    requires k <= |targets|
  {
    var r := StepsS(s, targets[..k], today);
    r.Ok? && Sorted(r.value.s.rows)
  }

  predicate IsNew(s: Sections, t: Target) {
    t.decision == Accepted && BodyOf(s, t.did).None?
  }

  lemma {:induction false} PrefixIsOk(s: Sections, targets: seq<Target>, today: string, k: nat)
    requires k <= |targets| && StepsS(s, targets, today).Ok?
    ensures StepsS(s, targets[..k], today).Ok?
    decreases |targets|
  {
    hide StepS;
    if k < |targets| {
      var n := |targets| - 1;
      assert targets[..n][..k] == targets[..k];
      PrefixIsOk(s, targets[..n], today, k);
    } else {
      assert targets[..k] == targets;
    }
  }

  lemma AscendingPrefix(targets: seq<Target>, k: nat)
    requires Ascending(targets) && k < |targets|
    ensures Ascending(targets[..k]) && forall t <- targets[..k] :: Number(t.did) <= Number(targets[k].did)
  {
    hide Number;
  }

  /** A new directive whose number is not above the Index leaves it unsorted. */
  lemma LateNumberBreaks(s: Sections, targets: seq<Target>, today: string, i: nat)
    requires Valid(s) && ValidTargets(targets) && Ascending(targets) && |today| <= 10 && StepsS(s, targets, today).Ok?
    requires i < |targets| && IsNew(s, targets[i]) && !NoneAbove(s.rows, Number(targets[i].did))
    ensures !SortedAfter(s, targets, today, i + 1)
  {
    hide Valid, StepS, ValidId, Sorted, BodyOf, Touched, Appended, OwnedBody, Number, RowAbove;
    var t := targets[i];
    var number := Number(t.did);
    var l :| l in s.rows && RowAbove(l, number);
    PrefixIsOk(s, targets, today, i);
    PrefixIsOk(s, targets, today, i + 1);
    ValidPrefix(targets, i);
    AscendingPrefix(targets, i);
    var before := StepsS(s, targets[..i], today).value;
    RunAboveStays(s, targets[..i], today, before, l, number);
    assert t in targets && forall u <- targets[..i] :: u in targets && u.did != t.did;
    RunKeeps(s, targets[..i], today, before);
    assert targets[..i + 1][..i] == targets[..i];
    AddedAtEnd(before.s, t, today, StepS(before.s, t, today).value);
    RenderedRows(t.did, t.proposal, "");
    AboveBreaks(before.s.rows, l, t.did, RenderIndexRow(t.did, t.proposal));
  }

  lemma AddedAtEnd(s: Sections, t: Target, today: string, e: Edit)
    requires StepS(s, t, today) == Ok(e) && IsNew(s, t)
    ensures e.s.rows == s.rows + [RenderIndexRow(t.did, t.proposal)]
  {
    hide EntryIndex, RenderEntry, RenderIndexRow, TextLength, NewAddedLine, IsServiceOwned;
  }

  /**
   * A run over a sorted Index keeps it sorted through every decision exactly when the number of
   * each new directive is above the Index as it was.
   */
  lemma RunSortedIff(s: Sections, targets: seq<Target>, today: string)
    requires Valid(s) && ValidTargets(targets) && Ascending(targets) && |today| <= 10
    requires StepsS(s, targets, today).Ok? && Sorted(s.rows)
    ensures (forall k :: 0 <= k <= |targets| ==> SortedAfter(s, targets, today, k)) <==>
              forall t <- targets :: IsNew(s, t) ==> NoneAbove(s.rows, Number(t.did))
  {
    hide Valid, StepsS, ValidId, Sorted, NoneAbove, BodyOf, Number, Ascending;
    if forall t <- targets :: IsNew(s, t) ==> NoneAbove(s.rows, Number(t.did)) {
      forall k | 0 <= k <= |targets|
        ensures SortedAfter(s, targets, today, k)
      {
        PrefixIsOk(s, targets, today, k);
        ValidPrefix(targets, k);
        AscendingUpTo(targets, k);
        RunSorted(s, targets[..k], today, StepsS(s, targets[..k], today).value, 0);
      }
    } else {
      var t :| t in targets && IsNew(s, t) && !NoneAbove(s.rows, Number(t.did));
      var i :| 0 <= i < |targets| && targets[i] == t;
      LateNumberBreaks(s, targets, today, i);
    }
  }

  lemma AscendingUpTo(targets: seq<Target>, k: nat)
    requires Ascending(targets) && k <= |targets|
    ensures Ascending(targets[..k])
  {
    hide Number;
  }

  /** The second directive's row, then the first one's: the Index is not sorted. */
  lemma OlderNumberBreaks(p: Proposal, q: Proposal)
    ensures Sorted([RenderIndexRow("DIR-2", p)]) && !Sorted([RenderIndexRow("DIR-2", p)] + [RenderIndexRow("DIR-1", q)])
  {
    hide RenderIndexRow, RowId;
    TwoIds();
    RenderedRows("DIR-2", p, "");
    RenderedRows("DIR-1", q, "");
    AboveBreaks([RenderIndexRow("DIR-2", p)], RenderIndexRow("DIR-2", p), "DIR-1", RenderIndexRow("DIR-1", q));
  }

  lemma TwoIds()
    ensures ValidId("DIR-1") && ValidId("DIR-2") && Number("DIR-1") == 1 && Number("DIR-2") == 2
  {
    assert "DIR-1"[4..] == "1" && "DIR-2"[4..] == "2";
    assert "1"[..0] == "" && "2"[..0] == "";
  }
}
