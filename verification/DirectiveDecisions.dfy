/** Whole runs of the exporter: what each decision does to its own entry, and to nobody else's. */
module DirectiveDecisions {
  import opened Options
  import opened Text
  import opened DirectiveLines
  import opened DirectiveEntries
  import opened DirectiveDoc
  import opened DirectiveSections
  import opened DirectiveRefine
  import opened DirectiveStep
  import opened DirectivePreservation

  /** The span of an entry, if the document has it. */
  function BodyOf(s: Sections, did: string): Option<seq<string>> {
    var k := EntryIndex(s.entries, did);
    if k == |s.entries| then None else Some(s.entries[k].body)
  }

  predicate OwnedBody(body: Option<seq<string>>) {
    body.Some? && IsServiceOwned(body.value)
  }

  /** The decisions name directives, each once. */
  predicate ValidTargets(targets: seq<Target>) {
    && (forall t <- targets :: ValidId(t.did))
    && (forall i, j :: 0 <= i < j < |targets| ==> targets[i].did != targets[j].did)
  }

  lemma ValidPrefix(targets: seq<Target>, k: nat)
    requires ValidTargets(targets) && k <= |targets|
    ensures ValidTargets(targets[..k])
  {
    hide ValidId;
  }

  // ------------------------------------------------------------------
  // Bodies under one decision
  // ------------------------------------------------------------------

  lemma EntryIndexUnique(es: seq<Entry>, did: string, k: nat)
    requires k < |es| && es[k].id == did
    requires forall i :: 0 <= i < k ==> es[i].id != did
    ensures EntryIndex(es, did) == k
  {
    var j := EntryIndex(es, did);
    assert j <= k;
    assert j == k;
  }

  lemma EntryIndexAbsent(es: seq<Entry>, did: string)
    requires forall i :: 0 <= i < |es| ==> es[i].id != did
    ensures EntryIndex(es, did) == |es|
  {}

  lemma BodyOfSet(s: Sections, k: nat, body: seq<string>, d: string)
    requires k < |s.entries| && k == EntryIndex(s.entries, s.entries[k].id)
    ensures BodyOf(SetBody(s, k, body), d) == if d == s.entries[k].id then Some(body) else BodyOf(s, d)
    ensures EntryIndex(SetBody(s, k, body).entries, d) == EntryIndex(s.entries, d)
  {
    hide EntryIndex;
    var es, es' := s.entries, SetBody(s, k, body).entries;
    var j := EntryIndex(es, d);
    if j < |es| {
      EntryIndexUnique(es', d, j);
    } else {
      EntryIndexAbsent(es', d);
    }
  }

  lemma BodyOfAdd(s: Sections, did: string, body: seq<string>, d: string)
    requires EntryIndex(s.entries, did) == |s.entries|
    ensures BodyOf(s.(entries := s.entries + [Entry(did, body, [])]), d) == if d == did then Some(body) else BodyOf(s, d)
  {
    hide EntryIndex;
    var es, es' := s.entries, s.entries + [Entry(did, body, [])];
    var j := EntryIndex(es, d);
    if d == did {
      EntryIndexUnique(es', d, |es|);
    } else if j < |es| {
      EntryIndexUnique(es', d, j);
    } else {
      EntryIndexAbsent(es', d);
    }
  }

  /** No decision touches another id's entry. */
  lemma OtherBodies(s: Sections, t: Target, today: string, e: Edit, d: string)
    requires StepS(s, t, today) == Ok(e) && d != t.did
    ensures BodyOf(e.s, d) == BodyOf(s, d)
  {
    hide EntryIndex, IsServiceOwned, RenderEntry, RenderIndexRow, TextLength, NewAddedLine, SetRow, DropRows, FirstStatus,
      FirstAdded, SameLines, IsTemplate, ReplaceBody, RetireBody, RenderRetiredRow, HeadingTitle, RowIndex, RowId;
    var k := EntryIndex(s.entries, t.did);
    if k == |s.entries| {
      if t.decision == Accepted {
        BodyOfAdd(s, t.did, e.s.entries[|s.entries|].body, d);
      }
    } else {
      BodyOfSet(s, k, e.s.entries[k].body, d);
      assert e.s.entries == s.entries || e.s.entries == SetBody(s, k, e.s.entries[k].body).entries;
    }
  }

  lemma TrimEnds(x: string)
    ensures TrimBlanks(x) != "" ==> !IsBlank(TrimBlanks(x)[0]) && !IsBlank(TrimBlanks(x)[|TrimBlanks(x)| - 1])
  {
    DropBlanksShape(x);
  }

  /** An Added body that is read back begins and ends with a character that is not blank. */
  lemma {:induction false} AddedIsTrimmed(body: seq<string>)
    requires FirstAdded(body).Some?
    ensures var a := FirstAdded(body).value; a != "" ==> !IsBlank(a[0]) && !IsBlank(a[|a| - 1])
  {
    hide TrimBlanks;
    if AddedOf(body[0]).Some? {
      TrimEnds(body[0][|ADDED|..]);
    } else {
      AddedIsTrimmed(body[1..]);
    }
  }

  lemma OwnedNotEmpty(added: string)
    requires OwnedAdded(added)
    ensures added != ""
  {
    hide Token, Strip, DropBlanks;
    assert OccursAt(added, SOURCE, Find(added, SOURCE, 0));
  }

  lemma OwnedIsClean(body: seq<string>)
    requires IsServiceOwned(body)
    ensures var a := FirstAdded(body).value; CleanStart(a) && !IsBlank(a[|a| - 1])
  {
    hide OwnedAdded, FirstAdded;
    AddedIsTrimmed(body);
    OwnedNotEmpty(FirstAdded(body).value);
  }

  lemma OwnedBy(body: seq<string>, added: string)
    requires FirstAdded(body) == Some(added) && OwnedAdded(added)
    ensures IsServiceOwned(body)
  {}

  lemma AddNewOwned(s: Sections, t: Target, today: string, e: Edit)
    requires ValidId(t.did) && |today| <= 10 && EntryIndex(s.entries, t.did) == |s.entries|
    requires AddNewS(s, t, today) == Ok(e)
    ensures OwnedBody(BodyOf(e.s, t.did)) && e.events == [Action(t.did, NewEntry)]
  {
    hide EntryIndex, IsServiceOwned, OwnedAdded, RenderEntry, RenderIndexRow, TextLength, NewAddedLine, Written, TrimBlanks;
    var date := DateOf(t.proposal, today);
    var added := NewAddedLine(date, t.evidence);
    var body := RenderEntry(t.did, t.proposal, added) + [""];
    NewBodyIsWritten(t.did, t.proposal, added);
    WrittenAdded(t.did, t.proposal, added, "", [""], body);
    NewOwned(date, t.evidence);
    assert " " + (added + "") == " " + added;
    OwnedBy(body, TrimBlanks(" " + added));
    BodyOfAdd(s, t.did, body, t.did);
    assert BodyOf(e.s, t.did) == Some(body);
  }

  /** The replaced body keeps its owner. */
  lemma ReplacedOwned(did: string, p: Proposal, body: seq<string>)
    requires ValidId(did) && IsEntry(did, body) && IsServiceOwned(body)
    ensures IsServiceOwned(ReplaceBody(body, RenderEntry(did, p, FirstAdded(body).value)))
  {
    hide OwnedAdded, RenderEntry, Written, DirId, IsSection, Trail, IsBlankLine, RTrimBlanks, IsBullet, FirstAdded;
    var a := FirstAdded(body).value;
    OwnedIsClean(body);
    DirIdIsSection(body[0]);
    RenderNotEmpty(did, p, a);
    ReplaceIsWritten(did, p, a, body);
    var n := ContentLen(body);
    var t := Trail(body[n - 1]);
    var written := ReplaceBody(body, RenderEntry(did, p, a));
    WrittenAdded(did, p, a, t, body[n..], written);
    WrittenOwned(a, t);
    OwnedBy(written, RTrimBlanks(a + t));
  }

  /** An action is taken only on an owned or absent entry, and leaves an owned entry. */
  lemma ActionOwned(s: Sections, t: Target, today: string, e: Edit)
    requires Valid(s) && ValidId(t.did) && |today| <= 10 && StepS(s, t, today) == Ok(e)
    requires e.events != [] && e.events[0].Action?
    ensures OwnedBody(BodyOf(e.s, t.did))
    ensures IsTouch(e.events[0]) ==> OwnedBody(BodyOf(s, t.did))
  {
    hide Valid, EntryIndex, IsServiceOwned, OwnedAdded, RenderEntry, RenderIndexRow, TextLength, NewAddedLine, SetRow, DropRows, FirstStatus,
      SameLines, IsTemplate, ReplaceBody, RetireBody, RenderRetiredRow, HeadingTitle, RowIndex, RowId, IsEntry, FirstAdded;
    var k := EntryIndex(s.entries, t.did);
    if k == |s.entries| {
      AddNewOwned(s, t, today, e);
    } else {
      ValidEntryAt(s, k);
      var body := s.entries[k].body;
      OwnedHasAdded(body);
      BodyOfSet(s, k, e.s.entries[k].body, t.did);
      assert e.s.entries == SetBody(s, k, e.s.entries[k].body).entries;
      if t.decision == Accepted {
        ReplacedOwned(t.did, t.proposal, body);
      } else {
        RetireKeepsEntry(t.did, body);
      }
    }
  }

  lemma OwnedHasAdded(body: seq<string>)
    ensures IsServiceOwned(body) ==> FirstAdded(body).Some?
  {}

  // ------------------------------------------------------------------
  // Runs
  // ------------------------------------------------------------------

  /** A run over the text is a run over the parts. */
  lemma {:induction false} StepsRefine(s: Sections, targets: seq<Target>, today: string)
    requires Valid(s) && ValidTargets(targets)
    ensures Refines(Steps(Flat(s), targets, today), StepsS(s, targets, today))
  {
    hide Valid, Flat, Step, StepS, ValidId;
    if targets != [] {
      var n := |targets| - 1;
      ValidPrefix(targets, n);
      StepsRefine(s, targets[..n], today);
      var before := StepsS(s, targets[..n], today);
      if before.Ok? {
        assert targets[n] in targets;
        StepRefines(before.value.s, targets[n], today);
      }
    }
  }

  /** What a whole run keeps. */
  lemma {:induction false} RunKeeps(s: Sections, targets: seq<Target>, today: string, e: Edit)
    requires Valid(s) && ValidTargets(targets) && |today| <= 10
    requires StepsS(s, targets, today) == Ok(e)
    ensures Valid(e.s)
    ensures forall x <- e.events :: exists t <- targets :: t.did == x.did
    ensures forall d :: (forall t <- targets :: t.did != d) ==> BodyOf(e.s, d) == BodyOf(s, d)
    ensures forall d <- Touched(e.events) :: OwnedBody(BodyOf(s, d))
    ensures forall d <- Touched(e.events) + Appended(e.events) :: OwnedBody(BodyOf(e.s, d))
    ensures forall d :: d !in Touched(e.events) + Appended(e.events) ==> BodyOf(e.s, d) == BodyOf(s, d)
  {
    hide Valid, Flat, StepS, ValidId, BodyOf, OwnedBody, Touched, Appended;
    StepsRefine(s, targets, today);
    NothingTouched();
    if targets != [] {
      var n := |targets| - 1;
      var t := targets[n];
      ValidPrefix(targets, n);
      var before := StepsS(s, targets[..n], today).value;
      RunKeeps(s, targets[..n], today, before);
      assert t in targets;
      var last := StepS(before.s, t, today).value;
      assert e == Edit(last.s, before.events + last.events);
      NoActionNoChange(before.s, t, today, last);
      TouchedSum(before.events, last.events);
      LastEvents(t, last.events);
      assert forall u <- targets[..n] :: u.did != t.did;
      assert BodyOf(before.s, t.did) == BodyOf(s, t.did);
      forall d | d != t.did
        ensures BodyOf(last.s, d) == BodyOf(before.s, d)
      {
        OtherBodies(before.s, t, today, last, d);
      }
      if last.events != [] && last.events[0].Action? {
        ActionOwned(before.s, t, today, last);
      }
      forall x | x in before.events
        ensures x.did != t.did && exists u <- targets :: u.did == x.did
      {
        var u :| u in targets[..n] && u.did == x.did;
        assert u in targets;
      }
      TouchedOnly(before.events, t.did);
    }
  }

  lemma LastEvents(t: Target, events: seq<Event>)
    requires |events| <= 1 && forall x <- events :: x.did == t.did
    ensures Touched(events) == if events != [] && IsTouch(events[0]) then {t.did} else {}
    ensures Appended(events) == if events != [] && IsAppend(events[0]) then {t.did} else {}
  {
    if events != [] {
      assert events == [events[0]];
    }
  }

  lemma TouchedOnly(events: seq<Event>, did: string)
    requires forall x <- events :: x.did != did
    ensures did !in Touched(events) + Appended(events)
  {}

  /** The whole run leaves the remainder alone, for any set that holds every changed id. */
  lemma {:induction false} RunKeepsRemainder(s: Sections, targets: seq<Target>, today: string, e: Edit, ids: set<string>)
    requires Valid(s) && ValidTargets(targets) && StepsS(s, targets, today) == Ok(e)
    requires Touched(e.events) + Appended(e.events) <= ids
    ensures StripEnd(Remainder(s, ids)) == StripEnd(Remainder(e.s, ids))
  {
    hide Valid, Flat, StepS, ValidId, Remainder, StripEnd, Touched, Appended;
    if targets != [] {
      var n := |targets| - 1;
      var t := targets[n];
      ValidPrefix(targets, n);
      StepsRefine(s, targets[..n], today);
      var before := StepsS(s, targets[..n], today).value;
      var last := StepS(before.s, t, today).value;
      assert e == Edit(last.s, before.events + last.events);
      TouchedSum(before.events, last.events);
      RunKeepsRemainder(s, targets[..n], today, before, ids);
      assert t in targets;
      NoActionNoChange(before.s, t, today, last);
      LastEvents(t, last.events);
      StepKeeps(before.s, t, today, last, ids);
    }
  }

  // ------------------------------------------------------------------
  // The preservation check never refuses
  // ------------------------------------------------------------------

  /** What the text holds under an id is what the parts hold under it. */
  lemma TextOfBody(s: Sections, did: string)
    requires Valid(s)
    ensures EntryText(Flat(s), did) == BodyOf(s, did)
  {
    hide Valid, Flat, FindSpan;
    Spans(s, did);
  }

  lemma OwnedInText(s: Sections, did: string)
    requires Valid(s)
    ensures OwnedIn(Flat(s), did) <==> OwnedBody(BodyOf(s, did))
  {
    hide Valid, Flat, EntryText, BodyOf, IsServiceOwned;
    TextOfBody(s, did);
  }

  lemma CheckPasses(s: Sections, targets: seq<Target>, today: string, e: Edit)
    requires Valid(s) && ValidTargets(targets) && |today| <= 10
    requires StepsS(s, targets, today) == Ok(e)
    ensures CheckPreservation(Flat(s), Flat(e.s), Touched(e.events), Appended(e.events)) == Ok(())
  {
    hide Valid, Flat, Mask, Touched, Appended, OwnedIn, StepsS, BodyOf, OwnedBody, StripEnd, Remainder;
    var touched, appended := Touched(e.events), Appended(e.events);
    RunKeeps(s, targets, today, e);
    forall did | did in touched
      ensures OwnedIn(Flat(s), did)
    {
      OwnedInText(s, did);
    }
    forall did | did in touched + appended
      ensures OwnedIn(Flat(e.s), did)
    {
      OwnedInText(e.s, did);
    }
    MaskRefines(s, touched + appended);
    MaskRefines(e.s, touched + appended);
    RunKeepsRemainder(s, targets, today, e, touched + appended);
  }

  /**
   * What the preservation check accepts, for any two well-formed documents: every touched entry was
   * and is owned, every appended one is, and all else is the same up to newlines at the end.
   */
  lemma CheckMeansPreserved(s: Sections, s': Sections, touched: set<string>, appended: set<string>)
    requires Valid(s) && Valid(s')
    ensures CheckPreservation(Flat(s), Flat(s'), touched, appended).Ok? <==>
              && (forall did <- touched :: OwnedBody(BodyOf(s, did)))
              && (forall did <- touched + appended :: OwnedBody(BodyOf(s', did)))
              && StripEnd(Remainder(s, touched + appended)) == StripEnd(Remainder(s', touched + appended))
  {
    hide Valid, Flat, Mask, OwnedIn, BodyOf, OwnedBody, StripEnd, Remainder;
    MaskRefines(s, touched + appended);
    MaskRefines(s', touched + appended);
    forall did
      ensures OwnedIn(Flat(s), did) <==> OwnedBody(BodyOf(s, did))
      ensures OwnedIn(Flat(s'), did) <==> OwnedBody(BodyOf(s', did))
    {
      OwnedInText(s, did);
      OwnedInText(s', did);
    }
  }

  /** A document that has the two tables, the entries and the spacing the exporter relies on. */
  ghost predicate WellFormed(doc: Doc) {
    exists s :: Valid(s) && Flat(s) == doc
  }

  /** The refusals that name a real obstacle in an entry or a proposal. */
  predicate IsContentRefusal(r: Refusal) {
    r.OverBudget? || r.OutsideTemplate? || r.UnexpectedHeading? || r.NoStatus? || r.UnexpectedStatus?
  }

  lemma {:induction false} StepsRefuseContent(s: Sections, targets: seq<Target>, today: string)
    ensures StepsS(s, targets, today).Err? ==> IsContentRefusal(StepsS(s, targets, today).refusal)
  {
    if targets != [] {
      var n := |targets| - 1;
      StepsRefuseContent(s, targets[..n], today);
      var before := StepsS(s, targets[..n], today);
      if before.Ok? {
        StepRefusesContent(before.value.s, targets[n], today);
      }
    }
  }

  lemma StepRefusesContent(s: Sections, t: Target, today: string)
    ensures StepS(s, t, today).Err? ==> IsContentRefusal(StepS(s, t, today).refusal)
  {
    hide IsServiceOwned, RenderEntry, RenderIndexRow, TextLength, NewAddedLine, SetRow, DropRows, FirstStatus,
      SameLines, IsTemplate, ReplaceBody, RetireBody, RenderRetiredRow, HeadingTitle, RowIndex, RowId, IsEntry, FirstAdded;
  }

  /**
   * On every well-formed document and every set of decisions, in any order: the text outside
   * the spans and rows of the changed ids is what it was, so the preservation check never
   * refuses; an entry the service does not own is never changed; and the result is well formed.
   */
  lemma PreservationHolds(doc: Doc, targets: seq<Target>, today: string)
    requires WellFormed(doc) && ValidTargets(targets) && |today| <= 10
    ensures var r := Apply(doc, targets, today);
            match r
            case Err(refusal) => IsContentRefusal(refusal)
            case Ok(report) =>
              var ids := Touched(report.events) + Appended(report.events);
              && WellFormed(report.doc)
              && Mask(doc, ids).Ok? && Mask(report.doc, ids) == Mask(doc, ids)
              && (forall did :: did !in ids ==> EntryText(report.doc, did) == EntryText(doc, did))
              && (forall did <- Touched(report.events) :: OwnedIn(doc, did))
              && (forall did <- ids :: OwnedIn(report.doc, did))
  {
    hide Valid, Flat, Mask, Touched, Appended, OwnedIn, StepsS, BodyOf, OwnedBody, StripEnd, Remainder, Steps,
      CheckPreservation, IsContentRefusal, FindTable, EntryText;
    var s :| Valid(s) && Flat(s) == doc;
    Tables(s);
    StepsRefine(s, targets, today);
    StepsRefuseContent(s, targets, today);
    var r := StepsS(s, targets, today);
    if r.Ok? {
      var e := r.value;
      CheckPasses(s, targets, today, e);
      RunKeeps(s, targets, today, e);
      var ids := Touched(e.events) + Appended(e.events);
      MaskRefines(s, ids);
      MaskRefines(e.s, ids);
      RunKeepsRemainder(s, targets, today, e, ids);
      forall did | did !in ids
        ensures EntryText(Flat(e.s), did) == EntryText(doc, did)
      {
        TextOfBody(s, did);
        TextOfBody(e.s, did);
      }
      forall did | did in Touched(e.events) ensures OwnedIn(doc, did) { OwnedInText(s, did); }
      forall did | did in ids ensures OwnedIn(Flat(e.s), did) { OwnedInText(e.s, did); }
    }
  }
}
