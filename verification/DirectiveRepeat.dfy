/** Exactly when a second export is quiet. */
module DirectiveRepeat {
  import opened Options
  import opened Text
  import opened DirectiveLines
  import opened DirectiveEntries
  import opened DirectiveDoc
  import opened DirectiveSections
  import opened DirectiveRefine
  import opened DirectiveStep
  import opened DirectivePreservation
  import opened DirectiveDecisions
  import opened DirectiveIdempotence

  /** The Added text of an owned entry as it is read again after the entry was written over. */
  function AddedAgain(body: seq<string>): string
    requires FirstAdded(body).Some?
  {
    var n := ContentLen(body);
    RTrimBlanks(FirstAdded(body).value + if n > 0 then Trail(body[n - 1]) else "")
  }

  /**
   * What the text must look like before the first export. A new entry's date begins with a
   * character that is not a blank. An entry that differs from its proposal still fits the
   * budget when the white space at the end of its last line is read as part of its Added text.
   */
  predicate Stable(body: Option<seq<string>>, t: Target, today: string) {
    t.decision == Accepted ==>
      match body
      case None => CleanStart(DateOf(t.proposal, today))
      case Some(b) =>
        IsServiceOwned(b) ==>
          || SameLines(RenderEntry(t.did, t.proposal, FirstAdded(b).value), b)
          || TextLength(RenderEntry(t.did, t.proposal, AddedAgain(b))) <= MAX_ENTRY_CHARS
  }

  // ------------------------------------------------------------------
  // A decision that is not settled acts again
  // ------------------------------------------------------------------

  predicate Acts(r: Result<Edit>) {
    r.Ok? ==> exists e <- r.value.events :: e.Action?
  }

  lemma UnsettledActs(s: Sections, t: Target, today: string)
    requires !Settled(BodyOf(s, t.did), t)
    ensures Acts(StepS(s, t, today))
  {
    hide EntryIndex, OwnedAdded, RenderEntry, TextLength, NewAddedLine, FirstStatus, SameLines, RowIndex, FirstAdded, RowId,
      ReplaceBody, SetRow, DropRows, RetireBody, RenderIndexRow, IsTemplate, DropRetired, AddRetired, TitleOf;
    var r := StepS(s, t, today);
    if r.Ok? {
      assert r.value.events != [] && r.value.events[0].Action?;
    }
  }

  /** Only an action tells a run with an unsettled decision from a refused one. */
  lemma {:induction false} UnsettledRunActs(s: Sections, targets: seq<Target>, today: string)
    requires exists t <- targets :: !Settled(BodyOf(s, t.did), t)
    ensures Acts(StepsS(s, targets, today))
  {
    hide StepS, BodyOf, Settled;
    var n := |targets| - 1;
    var front, t := targets[..n], targets[n];
    assert targets == front + [t];
    var before := StepsS(s, front, today);
    if exists u <- front :: !Settled(BodyOf(s, u.did), u) {
      UnsettledRunActs(s, front, today);
      if StepsS(s, targets, today).Ok? {
        var e :| e in before.value.events && e.Action?;
        assert e in StepsS(s, targets, today).value.events;
      }
    } else {
      SettledRun(s, front, today);
      UnsettledActs(s, t, today);
      if StepsS(s, targets, today).Ok? {
        var e :| e in StepS(s, t, today).value.events && e.Action?;
        assert e in StepsS(s, targets, today).value.events;
      }
    }
  }

  // ------------------------------------------------------------------
  // A new entry
  // ------------------------------------------------------------------

  lemma SplitBlanks(added: string) returns (b: string, d: string)
    requires added != "" && IsBlank(added[0]) && exists c <- added :: !IsSpace(c)
    ensures added == b + d && b != "" && exists c <- d :: !IsSpace(c)
    ensures TrimBlanks(" " + added) == RTrimBlanks(d)
  {
    hide RTrimBlanks, DropBlanks;
    NotAllSpaceNotAllBlank(added);
    DropBlanksShape(added);
    d := DropBlanks(added);
    b := added[..|added| - |d|];
    assert added == b + d;
    assert " " + added == (" " + b) + d;
    DropBlanksUnique(" " + b, d);
    SpaceIsInFront(b, d, added);
  }

  lemma MoreInFront(p: string, b: string, d: string)
    requires b != "" && exists c <- d :: !IsSpace(c)
    ensures RStrip(p + (b + d)) != RStrip(p + d)
  {
    hide RStrip;
    StripBehind(p, d);
    StripBehind(p + b, d);
    assert p + (b + d) == (p + b) + d;
  }

  /** A date that begins with a blank is read back without it, so the entry seems to differ. */
  lemma BlankDateDiffers(added: string)
    requires added != "" && IsBlank(added[0]) && exists c <- added :: !IsSpace(c)
    ensures RStrip(ADDED + " " + TrimBlanks(" " + added)) != RStrip(ADDED + " " + added)
  {
    hide RStrip, RTrimBlanks, TrimBlanks;
    var b, d := SplitBlanks(added);
    NothingBehind(d);
    MoreInFront(ADDED + " ", b, d);
  }

  lemma NothingBehind(d: string)
    ensures RStrip(ADDED + " " + RTrimBlanks(d)) == RStrip(ADDED + " " + d)
  {
    hide RStrip, RTrimBlanks;
    AddedLineTail(d, "");
    assert d + "" == d && ADDED + " " + d + "" == ADDED + " " + d;
  }

  lemma NotAllSpaceNotAllBlank(s: string)
    requires exists c <- s :: !IsSpace(c)
    ensures !AllBlank(s) && DropBlanks(s) != ""
  {
    var c :| c in s && !IsSpace(c);
    assert !IsBlank(c);
    AllBlankStrips(s);
  }

  lemma SpaceIsInFront(b: string, d: string, added: string)
    requires added == b + d && AllBlank(b) && exists c <- added :: !IsSpace(c)
    ensures exists c <- d :: !IsSpace(c)
  {
    var c :| c in added && !IsSpace(c);
    assert c !in b;
    assert c in d;
  }

  /** Stripping removes only what is behind the last character that is not white space. */
  lemma StripBehind(p: string, d: string)
    requires exists c <- d :: !IsSpace(c)
    ensures RStrip(p + d) == p + RStrip(d) && RStrip(d) != ""
  {
    hide RStrip;
    var c :| c in d && !IsSpace(c);
    assert d == RStrip(d) + Trail(d);
    assert p + d == (p + RStrip(d)) + Trail(d);
    RStripUnique(p + RStrip(d), Trail(d));
  }

  lemma LastLineDiffers(front: seq<string>, a: string, b: string)
    requires RStrip(a) != RStrip(b) && RStrip(a) != "" && RStrip(b) != ""
    ensures RStripLines(front + [a]) != RStripLines(front + [b])
  {
    hide RStrip;
    var x, y := RStripLines(front + [a]), RStripLines(front + [b]);
    assert x[|front|] == RStrip(a) && y[|front|] == RStrip(b);
  }

  lemma UncleanDiffers(did: string, p: Proposal, added: string)
    requires added != "" && IsBlank(added[0]) && exists c <- added :: !IsSpace(c)
    ensures !SameLines(RenderEntry(did, p, TrimBlanks(" " + added)), RenderEntry(did, p, added) + [""])
  {
    hide RenderEntry, RenderFront, RStripLines, RStrip, TrimBlanks, IsBlank;
    var again := TrimBlanks(" " + added);
    RenderSplits(did, p, again);
    RenderSplits(did, p, added);
    BlankDateDiffers(added);
    AddedLineIsNotBlank(again);
    AddedLineIsNotBlank(added);
    LastLineDiffers(RenderFront(did, p), ADDED + " " + again, ADDED + " " + added);
    EmptyIsBlank();
    RStripLinesDropsBlanks(RenderFront(did, p) + [ADDED + " " + added], [""]);
  }

  lemma EmptyIsBlank()
    ensures IsBlankLine("")
  {}

  lemma AddedLineStarts(date: string, evidence: string)
    ensures var added := NewAddedLine(date, evidence);
            && added != "" && (CleanStart(added) <==> CleanStart(date)) && exists c <- added :: !IsSpace(c)
  {
    var added := NewAddedLine(date, evidence);
    assert added == date + (" · " + SOURCE + " " + SERVICE_SOURCE + " · **Evidence:** " + evidence);
    assert added[|date| + 1] == '·' && !IsSpace('·');
    assert added[|date|] == ' ';
  }

  /** A new entry is left alone by the next export exactly when its date begins with no blank. */
  lemma NewSettlesIff(s: Sections, t: Target, today: string, e: Edit)
    requires ValidId(t.did) && EntryIndex(s.entries, t.did) == |s.entries| && t.decision == Accepted && |today| <= 10
    requires AddNewS(s, t, today) == Ok(e)
    ensures Settled(BodyOf(e.s, t.did), t) <==> CleanStart(DateOf(t.proposal, today))
  {
    hide EntryIndex, TextLength, RenderEntry, RenderIndexRow, Written, FirstStatus, FirstAdded, SameLines, OwnedAdded, NewAddedLine, CleanStart, TrimBlanks;
    var date := DateOf(t.proposal, today);
    var added := NewAddedLine(date, t.evidence);
    var body := RenderEntry(t.did, t.proposal, added) + [""];
    if CleanStart(date) {
      AddNewSettles(s, t, today, e);
    } else {
      NewBodyIsWritten(t.did, t.proposal, added);
      BodyOfAdd(s, t.did, body, t.did);
      assert BodyOf(e.s, t.did) == Some(body);
      WrittenAdded(t.did, t.proposal, added, "", [""], body);
      assert added + "" == added;
      NewOwned(date, t.evidence);
      AddedLineStarts(date, t.evidence);
      UncleanStart(added);
      UncleanDiffers(t.did, t.proposal, added);
    }
  }

  lemma UncleanStart(added: string)
    requires added != "" && !CleanStart(added)
    ensures IsBlank(added[0])
  {}

  // ------------------------------------------------------------------
  // An entry written over
  // ------------------------------------------------------------------

  lemma AmendSettlesIff(t: Target, body: seq<string>)
    requires ValidId(t.did) && IsEntry(t.did, body) && IsServiceOwned(body) && t.decision == Accepted
    ensures FirstAdded(body).Some?
    ensures Settled(Some(ReplaceBody(body, RenderEntry(t.did, t.proposal, FirstAdded(body).value))), t) <==>
              TextLength(RenderEntry(t.did, t.proposal, AddedAgain(body))) <= MAX_ENTRY_CHARS
  {
    hide TextLength, RenderEntry, Written, DirId, IsSection, Trail, OwnedAdded, IsBlankLine, RTrimBlanks, FirstStatus, FirstAdded, SameLines, ReplaceBody, ContentLen;
    OwnedHasAdded(body);
    var a, n := FirstAdded(body).value, ContentLen(body);
    OwnedIsClean(body);
    DirIdIsSection(body[0]);
    RenderNotEmpty(t.did, t.proposal, a);
    ReplaceIsWritten(t.did, t.proposal, a, body);
    var ws, blanks, now := Trail(body[n - 1]), body[n..], ReplaceBody(body, RenderEntry(t.did, t.proposal, a));
    WrittenShape(t.did, t.proposal, a, ws, blanks, now);
    WrittenAdded(t.did, t.proposal, a, ws, blanks, now);
    WrittenIsSettled(t.did, t.proposal, a, ws, blanks, now);
    ReplacedOwned(t.did, t.proposal, body);
  }

  /** After its own step a decision is settled exactly when its entry was stable before. */
  lemma StepSettlesIff(s: Sections, t: Target, today: string, e: Edit)
    requires Valid(s) && ValidId(t.did) && StepS(s, t, today) == Ok(e) && |today| <= 10
    ensures Settled(BodyOf(e.s, t.did), t) <==> Stable(BodyOf(s, t.did), t, today)
  {
    hide Valid, EntryIndex, OwnedAdded, RenderEntry, RenderIndexRow, TextLength, NewAddedLine, SetRow, DropRows, FirstStatus, AddedAgain,
      SameLines, IsTemplate, ReplaceBody, RetireBody, RenderRetiredRow, HeadingTitle, RowIndex, RowId, IsEntry, FirstAdded, CleanStart, AddNewS;
    var k := EntryIndex(s.entries, t.did);
    if k == |s.entries| {
      if t.decision == Accepted {
        NewSettlesIff(s, t, today, e);
      }
    } else {
      ValidEntryAt(s, k);
      var body := s.entries[k].body;
      OwnedHasAdded(body);
      if IsServiceOwned(body) {
        if t.decision == Accepted {
          AmendStepSettlesIff(s, t, today, k, e);
        } else if FirstStatus(body) != Some("deprecated") {
          BodyOfSet(s, k, RetireBody(body), t.did);
          assert e.s.entries == SetBody(s, k, RetireBody(body)).entries;
          RetireShape(body);
        }
      }
    }
  }

  lemma AmendStepSettlesIff(s: Sections, t: Target, today: string, k: nat, e: Edit)
    requires k < |s.entries| && k == EntryIndex(s.entries, t.did) && s.entries[k].id == t.did && ValidId(t.did)
    requires IsEntry(t.did, s.entries[k].body) && IsServiceOwned(s.entries[k].body)
    requires t.decision == Accepted && AmendS(s, t, today, k) == Ok(e)
    ensures Settled(BodyOf(e.s, t.did), t) <==> Stable(Some(s.entries[k].body), t, today)
  {
    hide EntryIndex, OwnedAdded, RenderEntry, RenderIndexRow, TextLength, NewAddedLine, SetRow, DropRows, FirstStatus, AddedAgain,
      SameLines, IsTemplate, ReplaceBody, RowIndex, RowId, IsEntry, FirstAdded;
    var body := s.entries[k].body;
    OwnedHasAdded(body);
    var entry := RenderEntry(t.did, t.proposal, FirstAdded(body).value);
    RenderNotEmpty(t.did, t.proposal, FirstAdded(body).value);
    if !SameLines(entry, body) {
      BodyOfSet(s, k, ReplaceBody(body, entry), t.did);
      assert e.s.entries == SetBody(s, k, ReplaceBody(body, entry)).entries;
      AmendSettlesIff(t, body);
    }
  }

  // ------------------------------------------------------------------
  // Whole runs
  // ------------------------------------------------------------------

  lemma {:induction false} RunSettlesIff(s: Sections, targets: seq<Target>, today: string, e: Edit)
    requires Valid(s) && ValidTargets(targets) && StepsS(s, targets, today) == Ok(e) && |today| <= 10
    ensures forall d :: (forall t <- targets :: t.did != d) ==> BodyOf(e.s, d) == BodyOf(s, d)
    ensures forall t <- targets :: Settled(BodyOf(e.s, t.did), t) <==> Stable(BodyOf(s, t.did), t, today)
  {
    hide Valid, StepS, ValidId, BodyOf, Settled, Stable;
    if targets != [] {
      var n := |targets| - 1;
      var t := targets[n];
      assert t in targets;
      ValidPrefix(targets, n);
      StepsRefine(s, targets[..n], today);
      var before := StepsS(s, targets[..n], today).value;
      RunSettlesIff(s, targets[..n], today, before);
      var last := StepS(before.s, t, today).value;
      assert forall u <- targets[..n] :: u in targets && u.did != t.did;
      assert BodyOf(before.s, t.did) == BodyOf(s, t.did);
      StepSettlesIff(before.s, t, today, last);
      forall d | d != t.did
        ensures BodyOf(last.s, d) == BodyOf(before.s, d)
      {
        OtherBodies(before.s, t, today, last, d);
      }
      assert forall u <- targets :: u == t || u in targets[..n];
    }
  }

  /**
   * Exporting any of the same decisions again, in any order and on any day, takes no action and
   * leaves the text as it is exactly when their entries were stable before the first export.
   */
  lemma RepeatIsQuietIff(doc: Doc, targets: seq<Target>, today: string, again: seq<Target>, later: string)
    requires WellFormed(doc) && ValidTargets(targets) && |today| <= 10
    requires Apply(doc, targets, today).Ok?
    requires ValidTargets(again) && forall t <- again :: t in targets
    ensures var first := Apply(doc, targets, today).value;
            var second := Apply(first.doc, again, later);
            (second.Ok? && second.value.doc == first.doc && NoAction(second.value.events)) <==>
              forall t <- again :: Stable(EntryText(doc, t.did), t, today)
  {
    hide Valid, Flat, EntryText, StepsS, BodyOf, Settled, CheckPreservation, FindTable, Stable, ValidId, Steps;
    var s :| Valid(s) && Flat(s) == doc;
    Tables(s);
    StepsRefine(s, targets, today);
    var e := StepsS(s, targets, today).value;
    forall t | t in again
      ensures EntryText(doc, t.did) == BodyOf(s, t.did)
    {
      TextOfBody(s, t.did);
    }
    RunSettlesIff(s, targets, today, e);
    Tables(e.s);
    StepsRefine(e.s, again, later);
    if forall t <- again :: Settled(BodyOf(e.s, t.did), t) {
      SettledRun(e.s, again, later);
    } else {
      UnsettledRunActs(e.s, again, later);
    }
  }

  /** A recorded time begins with a digit, and so does the exporter's day: a new entry is always stable. */
  lemma RecordedDateIsStable(t: Target, today: string)
    requires if t.proposal.decidedAt == "" then today != "" && IsDigit(today[0]) else IsDigit(t.proposal.decidedAt[0])
    ensures Stable(None, t, today)
  {
    assert !IsBlank(DateOf(t.proposal, today)[0]);
  }

  /** A decision time that begins with a blank: the entry it adds is amended by the next export. */
  lemma BlankDateRepeats(doc: Doc, t: Target, today: string)
    requires WellFormed(doc) && ValidTargets([t]) && |today| <= 10 && EntryText(doc, t.did).None?
    requires t.decision == Accepted && t.proposal.decidedAt == " 2026-10-02" && Apply(doc, [t], today).Ok?
    ensures var first := Apply(doc, [t], today).value;
            var second := Apply(first.doc, [t], today);
            !(second.Ok? && second.value.doc == first.doc && NoAction(second.value.events))
  {
    hide WellFormed, Apply, EntryText, ValidTargets;
    RepeatIsQuietIff(doc, [t], today, [t], today);
    assert DateOf(t.proposal, today)[0] == ' ';
    assert t in [t];
  }
}
