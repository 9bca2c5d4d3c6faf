/** Exactly which decisions the exporter refuses, and that a run is refused for its first such decision. */
module DirectiveRefusals {
  import opened Options
  import opened Text
  import opened DirectiveLines
  import opened DirectiveEntries
  import opened DirectiveDoc
  import opened DirectiveSections
  import opened DirectiveRefine
  import opened DirectiveStep
  import opened DirectivePreservation
  import opened DirectiveDecisions
  import opened DirectiveContent

  /** Every line with its newline. */
  function Printed(lines: seq<string>): string {
    if lines == [] then "" else lines[0] + "\n" + Printed(lines[1..])
  }

  /** The rendered entry has more characters than the template allows. */
  ghost predicate TooLong(t: Target, added: string) {
    exists lines :: Reads(lines, t.did, t.proposal, added) && |Printed(lines)| > 1510
  }

  /** A heading that belongs to no directive, nor to the Retired table, ends the entry. */
  predicate ForeignBelow(doc: Doc, did: string) {
    var span := FindSpan(doc, did);
    span.Ok? && span.value.Some? && span.value.value.end < |doc|
    && DirId(doc[span.value.value.end]).None? && !IsRetired(doc[span.value.value.end])
  }

  /** Why a decision is refused, for the entry the document has and whether a foreign heading ends it. */
  ghost predicate RefusedFor(body: Option<seq<string>>, foreign: bool, t: Target, today: string, why: Refusal) {
    if body.None? then t.decision == Accepted && why == OverBudget && TooLong(t, NewAdded(t, today))
    else if !IsServiceOwned(body.value) then false
    else if FirstStatus(body.value).None? then why == NoStatus
    else if t.decision == Declined then
      why == UnexpectedStatus && FirstStatus(body.value).value !in {"active", "deprecated"}
    else
      exists added :: AddedReads(body.value, added) &&
        if TooLong(t, added) then why == OverBudget
        else
          && !SaysSame(body.value, t.did, t.proposal, added)
          && if !IsTemplate(body.value) then why == OutsideTemplate else foreign && why == UnexpectedHeading
  }

  // ------------------------------------------------------------------
  // One decision
  // ------------------------------------------------------------------

  lemma {:induction false} PrintedLength(lines: seq<string>)
    ensures |Printed(lines)| == TextLength(lines)
  {
    if lines != [] {
      PrintedLength(lines[1..]);
    }
  }

  lemma TooLongIff(t: Target, added: string)
    ensures TooLong(t, added) <==> TextLength(RenderEntry(t.did, t.proposal, added)) > MAX_ENTRY_CHARS
  {
    hide Reads, RenderEntry, Printed, TextLength;
    var lines := RenderEntry(t.did, t.proposal, added);
    RenderedReads(t.did, t.proposal, added);
    PrintedLength(lines);
    if TooLong(t, added) {
      var other :| Reads(other, t.did, t.proposal, added) && |Printed(other)| > 1510;
      ReadsOnce(other, lines, t.did, t.proposal, added);
    }
  }

  lemma AddedOnce(body: seq<string>, a: string, b: string)
    requires AddedReads(body, a) && AddedReads(body, b)
    ensures a == b
  {
    hide TrimBlanks;
  }

  /** Whether text under a foreign heading stands between the entry and the next one. */
  predicate ForeignTail(s: Sections, did: string) {
    var k := EntryIndex(s.entries, did);
    k < |s.entries| && s.entries[k].tail != []
  }

  lemma AmendRefusedIff(s: Sections, t: Target, today: string, k: nat, why: Refusal)
    requires k < |s.entries| && k == EntryIndex(s.entries, t.did)
    requires IsServiceOwned(s.entries[k].body) && t.decision == Accepted
    ensures AmendS(s, t, today, k) == Err(why) <==> RefusedFor(Some(s.entries[k].body), ForeignTail(s, t.did), t, today, why)
  {
    hide EntryIndex, RenderEntry, RenderIndexRow, TextLength, NewAddedLine, NewAdded, SameLines, SaysSame, AddedReads, FirstStatus, FirstAdded,
      IsServiceOwned, IsTemplate, ReplaceBody, SetRow, DropRows, DropRetired, TooLong;
    var body := s.entries[k].body;
    OwnedHasAdded(body);
    FirstAddedReads(body);
    var added := FirstAdded(body).value;
    SaysSameIff(body, t.did, t.proposal, added);
    TooLongIff(t, added);
    forall a | AddedReads(body, a)
      ensures a == added
    {
      AddedOnce(body, a, added);
    }
  }

  lemma StepRefusedIff(s: Sections, t: Target, today: string, why: Refusal)
    ensures StepS(s, t, today) == Err(why) <==> RefusedFor(BodyOf(s, t.did), ForeignTail(s, t.did), t, today, why)
  {
    hide EntryIndex, RenderEntry, RenderIndexRow, TextLength, NewAddedLine, NewAdded, SaysSame, AddedReads, FirstStatus,
      IsServiceOwned, IsTemplate, AmendS, RetireBody, DropRows, AddRetired, TooLong;
    var k := EntryIndex(s.entries, t.did);
    NewAddedIs(t, today);
    TooLongIff(t, NewAdded(t, today));
    if k < |s.entries| && IsServiceOwned(s.entries[k].body) && t.decision == Accepted {
      AmendRefusedIff(s, t, today, k, why);
    }
  }

  // ------------------------------------------------------------------
  // Whole runs
  // ------------------------------------------------------------------

  lemma TailOfOther(s: Sections, t: Target, today: string, e: Edit, d: string)
    requires StepS(s, t, today) == Ok(e) && d != t.did
    ensures ForeignTail(e.s, d) == ForeignTail(s, d)
  {
    hide EntryIndex, IsServiceOwned, RenderEntry, RenderIndexRow, TextLength, NewAddedLine, SetRow, DropRows, FirstStatus,
      FirstAdded, SameLines, IsTemplate, ReplaceBody, RetireBody, RenderRetiredRow, HeadingTitle, RowIndex, RowId;
    var k, j := EntryIndex(s.entries, t.did), EntryIndex(s.entries, d);
    if k == |s.entries| {
      if j < |s.entries| {
        EntryIndexUnique(e.s.entries, d, j);
      } else {
        EntryIndexAbsent(e.s.entries, d);
      }
    } else {
      BodyOfSet(s, k, e.s.entries[k].body, d);
      assert e.s.entries == s.entries || e.s.entries == SetBody(s, k, e.s.entries[k].body).entries;
    }
  }

  lemma {:induction false} TailsStay(s: Sections, targets: seq<Target>, today: string, e: Edit, d: string)
    requires StepsS(s, targets, today) == Ok(e) && forall t <- targets :: t.did != d
    ensures ForeignTail(e.s, d) == ForeignTail(s, d)
  {
    hide StepS, ForeignTail;
    if targets != [] {
      var n := |targets| - 1;
      assert targets[n] in targets && forall u <- targets[..n] :: u in targets;
      var before := StepsS(s, targets[..n], today).value;
      TailsStay(s, targets[..n], today, before, d);
      TailOfOther(before.s, targets[n], today, StepS(before.s, targets[n], today).value, d);
    }
  }

  ghost predicate RefusedS(s: Sections, t: Target, today: string, why: Refusal) {
    RefusedFor(BodyOf(s, t.did), ForeignTail(s, t.did), t, today, why)
  }

  /** The run is refused at decision i, the first that is, for the reason why. */
  ghost predicate RefusedAt(s: Sections, targets: seq<Target>, today: string, i: nat, why: Refusal) {
    && i < |targets| && RefusedS(s, targets[i], today, why)
    && forall j, x :: 0 <= j < i ==> !RefusedS(s, targets[j], today, x)
  }

  lemma NextRefusedIff(s: Sections, targets: seq<Target>, today: string, why: Refusal)
    requires Valid(s) && ValidTargets(targets) && targets != [] && StepsS(s, targets[..|targets| - 1], today).Ok?
    ensures StepsS(s, targets, today) == Err(why) <==> RefusedS(s, targets[|targets| - 1], today, why)
  {
    hide Valid, StepS, ValidId, RefusedFor, BodyOf, ForeignTail, RowsOf;
    var n := |targets| - 1;
    var t := targets[n];
    ValidPrefix(targets, n);
    assert forall u <- targets[..n] :: u.did != t.did;
    var before := StepsS(s, targets[..n], today).value;
    RunLeaves(s, targets[..n], today, before, t.did);
    TailsStay(s, targets[..n], today, before, t.did);
    StepRefusedIff(before.s, t, today, why);
  }

  lemma {:induction false} RunRefusedParts(s: Sections, targets: seq<Target>, today: string)
    requires Valid(s) && ValidTargets(targets)
    ensures var r := StepsS(s, targets, today);
            if r.Ok? then forall i, why :: 0 <= i < |targets| ==> !RefusedS(s, targets[i], today, why)
            else exists i: nat :: RefusedAt(s, targets, today, i, r.refusal)
  {
    hide Valid, StepS, ValidId, RefusedS;
    if targets != [] {
      var n := |targets| - 1;
      ValidPrefix(targets, n);
      RunRefusedParts(s, targets[..n], today);
      var r := StepsS(s, targets, today);
      var before := StepsS(s, targets[..n], today);
      if before.Err? {
        var i: nat :| RefusedAt(s, targets[..n], today, i, before.refusal);
        assert targets[..n][i] == targets[i];
        assert forall j :: 0 <= j < i ==> targets[..n][j] == targets[j];
        assert RefusedAt(s, targets, today, i, before.refusal);
      } else {
        assert forall j :: 0 <= j < n ==> targets[..n][j] == targets[j];
        forall why
          ensures r == Err(why) <==> RefusedS(s, targets[n], today, why)
        {
          NextRefusedIff(s, targets, today, why);
        }
        if r.Err? {
          assert RefusedAt(s, targets, today, n, r.refusal);
        }
      }
    }
  }

  lemma ForeignRefines(s: Sections, did: string)
    requires Valid(s)
    ensures ForeignBelow(Flat(s), did) == ForeignTail(s, did)
  {
    hide Valid, Flat, FindSpan, DirId, IsRetired, BeforeSpan, AfterSpan, EntryIndex, IsSection;
    Spans(s, did);
    if EntryIndex(s.entries, did) < |s.entries| {
      AfterIsSection(s, EntryIndex(s.entries, did));
    }
  }

  /** Whether a decision is refused, as read from the document before the run. */
  ghost predicate RefusedIn(doc: Doc, t: Target, today: string, why: Refusal) {
    RefusedFor(EntryText(doc, t.did), ForeignBelow(doc, t.did), t, today, why)
  }

  /**
   * A run is refused exactly when one of its decisions is, judged against the document before the
   * run, and for the reason of the first one that is; no decision can make or mend the refusal of
   * another.
   */
  lemma RunRefusedIff(doc: Doc, targets: seq<Target>, today: string)
    requires WellFormed(doc) && ValidTargets(targets) && |today| <= 10
    ensures var r := Apply(doc, targets, today);
            && (r.Err? <==> exists t, why :: t in targets && RefusedIn(doc, t, today, why))
            && (r.Err? ==>
                  exists i ::
                    && 0 <= i < |targets| && RefusedIn(doc, targets[i], today, r.refusal)
                    && forall j, why :: 0 <= j < i ==> !RefusedIn(doc, targets[j], today, why))
  {
    hide Valid, Flat, StepsS, Steps, FindTable, CheckPreservation, EntryText, ForeignBelow, RefusedFor, ValidId, BodyOf, ForeignTail,
      Touched, Appended;
    var s :| Valid(s) && Flat(s) == doc;
    Tables(s);
    StepsRefine(s, targets, today);
    RunRefusedParts(s, targets, today);
    if StepsS(s, targets, today).Ok? {
      CheckPasses(s, targets, today, StepsS(s, targets, today).value);
    }
    forall t, why
      ensures RefusedIn(doc, t, today, why) == RefusedS(s, t, today, why)
    {
      TextOfBody(s, t.did);
      ForeignRefines(s, t.did);
    }
    var r := Apply(doc, targets, today);
    if r.Err? {
      var i: nat :| RefusedAt(s, targets, today, i, r.refusal);
      assert targets[i] in targets && RefusedIn(doc, targets[i], today, r.refusal);
    }
  }
}
