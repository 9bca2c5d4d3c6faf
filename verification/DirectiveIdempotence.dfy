/** A second run of the exporter over its own output changes nothing. */
module DirectiveIdempotence {
  import opened Options
  import opened Text
  import opened DirectiveLines
  import opened DirectiveEntries
  import opened DirectiveDoc
  import opened DirectiveSections
  import opened DirectiveRefine
  import opened DirectiveStep
  import opened DirectivePreservation
  import opened DirectiveDecisions

  /** The entry already says what the decision says, or is not the service's to change. */
  predicate Settled(body: Option<seq<string>>, t: Target) {
    match body
    case None => t.decision == Declined
    case Some(b) =>
      || !IsServiceOwned(b)
      || (t.decision == Declined && FirstStatus(b) == Some("deprecated"))
      || (t.decision == Accepted && FirstStatus(b).Some? &&
          var entry := RenderEntry(t.did, t.proposal, FirstAdded(b).value);
          TextLength(entry) <= MAX_ENTRY_CHARS && SameLines(entry, b))
  }

  /** The entry's last line ends in spaces and tabs only. */
  predicate Tidy(body: seq<string>) {
    var n := ContentLen(body);
    n > 0 ==> AllBlank(Trail(body[n - 1]))
  }

  predicate TidyBody(body: Option<seq<string>>) {
    body.Some? ==> Tidy(body.value)
  }

  predicate NoAction(events: seq<Event>) {
    forall e <- events :: !e.Action?
  }

  lemma SettledStep(s: Sections, t: Target, today: string)
    requires Settled(BodyOf(s, t.did), t)
    ensures var r := StepS(s, t, today);
            r.Ok? && r.value.s == s && NoAction(r.value.events)
  {
    hide EntryIndex, OwnedAdded, RenderEntry, TextLength, NewAddedLine, FirstStatus, SameLines, RowIndex, FirstAdded, RowId;
  }

  lemma {:induction false} TextLengthSplit(a: seq<string>, b: seq<string>)
    ensures TextLength(a + b) == TextLength(a) + TextLength(b)
  {
    if a == [] {
      assert a + b == b;
    } else {
      assert (a + b)[1..] == a[1..] + b;
      TextLengthSplit(a[1..], b);
    }
  }

  lemma ShorterAdded(did: string, p: Proposal, a: string, b: string)
    requires |a| <= |b|
    ensures TextLength(RenderEntry(did, p, a)) <= TextLength(RenderEntry(did, p, b))
  {
    hide RenderEntry, RenderFront;
    RenderSplits(did, p, a);
    RenderSplits(did, p, b);
    var f := RenderFront(did, p);
    var x, y := ADDED + " " + a, ADDED + " " + b;
    assert f + [x] == f + [x] && |x| <= |y|;
    TextLengthSplit(f, [x]);
    TextLengthSplit(f, [y]);
    OneLineLength(x);
    OneLineLength(y);
  }

  lemma OneLineLength(x: string)
    ensures TextLength([x]) == |x| + 1
  {
    assert [x][1..] == [];
    assert TextLength([]) == 0;
  }

  /** A written entry is settled when the second reading of its Added bullet is no longer than the first. */
  lemma WrittenSettles(t: Target, added: string, ws: string, blanks: seq<string>, body: seq<string>)
    requires ValidId(t.did) && CleanStart(added) && t.decision == Accepted
    requires Written(t.did, t.proposal, added, ws, blanks, body)
    requires TextLength(RenderEntry(t.did, t.proposal, added)) <= MAX_ENTRY_CHARS
    requires |RTrimBlanks(added + ws)| <= |added|
    ensures Settled(Some(body), t)
  {
    hide Written, TextLength, SameLines, RenderEntry, FirstStatus, FirstAdded, IsEntry, IsTemplate, RTrimBlanks, OwnedAdded, TrimBlanks;
    WrittenShape(t.did, t.proposal, added, ws, blanks, body);
    WrittenAdded(t.did, t.proposal, added, ws, blanks, body);
    WrittenIsSettled(t.did, t.proposal, added, ws, blanks, body);
    ShorterAdded(t.did, t.proposal, RTrimBlanks(added + ws), added);
  }

  lemma AddNewSettles(s: Sections, t: Target, today: string, e: Edit)
    requires ValidId(t.did) && EntryIndex(s.entries, t.did) == |s.entries| && t.decision == Accepted
    requires AddNewS(s, t, today) == Ok(e) && CleanStart(DateOf(t.proposal, today))
    ensures Settled(BodyOf(e.s, t.did), t)
  {
    hide EntryIndex, TextLength, RenderEntry, RenderIndexRow, Written, Settled;
    var added := NewAddedLine(DateOf(t.proposal, today), t.evidence);
    var body := RenderEntry(t.did, t.proposal, added) + [""];
    NewBodyIsWritten(t.did, t.proposal, added);
    BodyOfAdd(s, t.did, body, t.did);
    assert BodyOf(e.s, t.did) == Some(body);
    assert added + "" == added;
    assert added[0] == DateOf(t.proposal, today)[0];
    WrittenSettles(t, added, "", [""], body);
  }

  lemma AmendSettles(t: Target, body: seq<string>)
    requires ValidId(t.did) && IsEntry(t.did, body) && IsServiceOwned(body) && Tidy(body) && t.decision == Accepted
    requires TextLength(RenderEntry(t.did, t.proposal, FirstAdded(body).value)) <= MAX_ENTRY_CHARS
    ensures Settled(Some(ReplaceBody(body, RenderEntry(t.did, t.proposal, FirstAdded(body).value))), t)
  {
    hide TextLength, RenderEntry, Written, Settled, DirId, IsSection, Trail, FirstAdded, OwnedAdded, IsBlankLine, RTrimBlanks;
    var a := FirstAdded(body).value;
    OwnedIsClean(body);
    DirIdIsSection(body[0]);
    RenderNotEmpty(t.did, t.proposal, a);
    ReplaceIsWritten(t.did, t.proposal, a, body);
    var n := ContentLen(body);
    RTrimUnique(a, Trail(body[n - 1]));
    WrittenSettles(t, a, Trail(body[n - 1]), body[n..], ReplaceBody(body, RenderEntry(t.did, t.proposal, a)));
  }

  /** Whatever a decision does, it leaves its own entry settled. */
  lemma StepSettles(s: Sections, t: Target, today: string, e: Edit)
    requires Valid(s) && ValidId(t.did) && StepS(s, t, today) == Ok(e)
    requires TidyBody(BodyOf(s, t.did))
    requires t.decision == Accepted ==> CleanStart(DateOf(t.proposal, today))
    ensures Settled(BodyOf(e.s, t.did), t)
  {
    hide Valid, EntryIndex, OwnedAdded, RenderEntry, RenderIndexRow, TextLength, NewAddedLine, SetRow, DropRows, FirstStatus,
      SameLines, IsTemplate, ReplaceBody, RetireBody, RenderRetiredRow, HeadingTitle, RowIndex, RowId, IsEntry, FirstAdded, Tidy, CleanStart;
    var k := EntryIndex(s.entries, t.did);
    if k == |s.entries| {
      if t.decision == Accepted {
        AddNewSettles(s, t, today, e);
      }
    } else {
      ValidEntryAt(s, k);
      var body := s.entries[k].body;
      OwnedHasAdded(body);
      if IsServiceOwned(body) {
        if t.decision == Accepted {
          AmendStepSettles(s, t, today, k, e);
        } else if FirstStatus(body) != Some("deprecated") {
          BodyOfSet(s, k, RetireBody(body), t.did);
          assert e.s.entries == SetBody(s, k, RetireBody(body)).entries;
          RetireShape(body);
        }
      }
    }
  }

  lemma AmendStepSettles(s: Sections, t: Target, today: string, k: nat, e: Edit)
    requires k < |s.entries| && k == EntryIndex(s.entries, t.did) && s.entries[k].id == t.did && ValidId(t.did)
    requires IsEntry(t.did, s.entries[k].body) && IsServiceOwned(s.entries[k].body) && Tidy(s.entries[k].body)
    requires t.decision == Accepted && AmendS(s, t, today, k) == Ok(e)
    ensures Settled(BodyOf(e.s, t.did), t)
  {
    hide EntryIndex, OwnedAdded, RenderEntry, RenderIndexRow, TextLength, NewAddedLine, SetRow, DropRows, FirstStatus,
      SameLines, IsTemplate, ReplaceBody, RowIndex, RowId, IsEntry, FirstAdded, Tidy;
    var body := s.entries[k].body;
    OwnedHasAdded(body);
    var entry := RenderEntry(t.did, t.proposal, FirstAdded(body).value);
    RenderNotEmpty(t.did, t.proposal, FirstAdded(body).value);
    if !SameLines(entry, body) {
      BodyOfSet(s, k, ReplaceBody(body, entry), t.did);
      assert e.s.entries == SetBody(s, k, ReplaceBody(body, entry)).entries;
      AmendSettles(t, body);
    }
  }

  /** After a run, the entry of every decision is settled. */
  lemma {:induction false} RunSettles(s: Sections, targets: seq<Target>, today: string, e: Edit)
    requires Valid(s) && ValidTargets(targets) && StepsS(s, targets, today) == Ok(e)
    requires forall t <- targets :: TidyBody(BodyOf(s, t.did))
    requires forall t <- targets :: t.decision == Accepted ==> CleanStart(DateOf(t.proposal, today))
    ensures forall d :: (forall t <- targets :: t.did != d) ==> BodyOf(e.s, d) == BodyOf(s, d)
    ensures forall t <- targets :: Settled(BodyOf(e.s, t.did), t)
  {
    hide Valid, StepS, ValidId, BodyOf, Settled, TidyBody, CleanStart, DateOf;
    if targets != [] {
      var n := |targets| - 1;
      var t := targets[n];
      assert t in targets;
      ValidPrefix(targets, n);
      StepsRefine(s, targets[..n], today);
      var before := StepsS(s, targets[..n], today).value;
      RunSettles(s, targets[..n], today, before);
      var last := StepS(before.s, t, today).value;
      assert forall u <- targets[..n] :: u in targets && u.did != t.did;
      assert BodyOf(before.s, t.did) == BodyOf(s, t.did);
      StepSettles(before.s, t, today, last);
      forall d | d != t.did
        ensures BodyOf(last.s, d) == BodyOf(before.s, d)
      {
        OtherBodies(before.s, t, today, last, d);
      }
      assert forall u <- targets :: u == t || u in targets[..n];
    }
  }

  lemma {:induction false} SettledRun(s: Sections, targets: seq<Target>, today: string)
    requires forall t <- targets :: Settled(BodyOf(s, t.did), t)
    ensures var r := StepsS(s, targets, today);
            r.Ok? && r.value.s == s && NoAction(r.value.events)
  {
    hide StepS, BodyOf, Settled;
    if targets != [] {
      var n := |targets| - 1;
      assert targets[n] in targets;
      SettledRun(s, targets[..n], today);
      SettledStep(s, targets[n], today);
    }
  }

  /**
   * Exporting is idempotent: once a run has been written, any later run over the same
   * decisions, in any order and on any day, takes no action and leaves the text as it is.
   */
  lemma ExportIsIdempotent(doc: Doc, targets: seq<Target>, today: string, again: seq<Target>, later: string)
    requires WellFormed(doc) && ValidTargets(targets) && |today| <= 10
    requires forall t <- targets :: TidyBody(EntryText(doc, t.did))
    requires forall t <- targets :: t.decision == Accepted ==> CleanStart(DateOf(t.proposal, today))
    requires Apply(doc, targets, today).Ok?
    requires ValidTargets(again) && forall t <- again :: t in targets
    ensures var first := Apply(doc, targets, today).value;
            var second := Apply(first.doc, again, later);
            second.Ok? && second.value.doc == first.doc && NoAction(second.value.events)
  {
    hide Valid, Flat, EntryText, StepsS, BodyOf, Settled, CheckPreservation, FindTable, TidyBody, CleanStart, DateOf, ValidId, Steps;
    var s :| Valid(s) && Flat(s) == doc;
    Tables(s);
    StepsRefine(s, targets, today);
    var e := StepsS(s, targets, today).value;
    forall t | t in targets
      ensures TidyBody(BodyOf(s, t.did))
    {
      TextOfBody(s, t.did);
    }
    RunSettles(s, targets, today, e);
    Tables(e.s);
    SettledRun(e.s, again, later);
    StepsRefine(e.s, again, later);
  }
}
