/** A document whose second export is refused: an entry at the length limit that ends in white space. */
module DirectiveRefused {
  import opened Options
  import opened Text
  import opened DirectiveLines
  import opened DirectiveEntries
  import opened DirectiveDoc
  import opened DirectiveSections
  import opened DirectiveRefine
  import opened DirectiveStep
  import opened DirectivePreservation
  import opened DirectiveDecisions
  import opened DirectiveIdempotence
  import opened DirectiveInverse
  import opened DirectiveRepeat

  const DID := "DIR-1"
  const RULE_LENGTH := 1319

  /** A no-break space: white space, but no blank of the Added pattern. */
  const NBSP := "\U{00A0}"
  const DATE := "2026-10-02"

  function Rule(n: nat): string {
    seq(n, i => 'x')
  }

  function Wanted(): Proposal {
    Proposal("t", "a", Rule(RULE_LENGTH), "r", "c", "", DATE)
  }

  function OldProposal(): Proposal {
    Wanted().(rule := "y")
  }

  /** The Added text as the file has it; a hand put the space behind it. */
  function AddedText(): string {
    NewAddedLine(DATE, "—" + NBSP)
  }

  function OldBody(): seq<string> {
    RenderEntry(DID, OldProposal(), AddedText()) + [""]
  }

  function Document(): Sections {
    Sections([INDEX_TITLES, "|--|"], [], [], [Entry(DID, OldBody(), [])], [RETIRED_HEADING, RETIRED_TITLES, "|--|"], [], [""])
  }

  function Accept(): Target {
    Target(DID, Accepted, Wanted(), "")
  }

  // ------------------------------------------------------------------
  // Lengths
  // ------------------------------------------------------------------

  lemma CleanWord(s: string)
    requires s != "" && forall c <- s :: !IsSpace(c)
    ensures Clean(s) == s
  {
    assert s[0] in s && LStrip(s) == s;
    var n := WordLen(s);
    WordLenAll(s);
    assert s[n..] == "" && s[..n] == s;
    NothingIsClean();
  }

  lemma NothingIsClean()
    ensures Clean("") == ""
  {}

  lemma {:induction false} WordLenAll(s: string)
    requires forall c <- s :: !IsSpace(c)
    ensures WordLen(s) == |s|
  {
    if s != "" {
      assert s[0] in s && forall c <- s[1..] :: c in s;
      WordLenAll(s[1..]);
    }
  }

  lemma FieldsAreClean()
    ensures Clean("t") == "t" && Clean("a") == "a" && Clean("r") == "r" && Clean("c") == "c" && Clean("y") == "y" && Clean("") == ""
    ensures Clean(Rule(RULE_LENGTH)) == Rule(RULE_LENGTH)
  {
    hide Clean;
    CleanWord("t");
    CleanWord("a");
    CleanWord("r");
    CleanWord("c");
    CleanWord("y");
    NothingIsClean();
    CleanWord(Rule(RULE_LENGTH));
  }

  /** The lines of an entry without an example. */
  lemma EntryLines(p: Proposal, added: string)
    requires p.title == "t" && p.appliesWhen == "a" && p.rationale == "r" && p.reviewerCheck == "c" && p.example == "" && Clean(p.rule) == p.rule
    ensures RenderEntry(DID, p, added) ==
              ["### DIR-1 — t", "- **Applies when:** a", "- **Status:** active", "- **Rule:** " + p.rule, "- **Rationale:** r",
               "- **Reviewer check:** c", ADDED + " " + added]
  {
    hide Clean;
    FieldsAreClean();
    assert "### " + DID + " — " + "t" == "### DIR-1 — t";
    assert "- **Applies when:** " + "a" == "- **Applies when:** a";
    assert "- **Rationale:** " + "r" == "- **Rationale:** r";
    assert "- **Reviewer check:** " + "c" == "- **Reviewer check:** c";
    assert ExampleLines(p) == [];
  }

  lemma EntryLength(p: Proposal, added: string)
    requires p.title == "t" && p.appliesWhen == "a" && p.rationale == "r" && p.reviewerCheck == "c" && p.example == "" && Clean(p.rule) == p.rule
    ensures TextLength(RenderEntry(DID, p, added)) == 127 + |p.rule| + |added|
  {
    EntryLines(p, added);
    hide Clean, TextLength, RenderEntry;
    var front := ["### DIR-1 — t", "- **Applies when:** a", "- **Status:** active"];
    var rule, back, last := "- **Rule:** " + p.rule, ["- **Rationale:** r", "- **Reviewer check:** c"], ADDED + " " + added;
    assert RenderEntry(DID, p, added) == front + ([rule] + (back + [last]));
    TextLengthSplit(front, [rule] + (back + [last]));
    TextLengthSplit([rule], back + [last]);
    TextLengthSplit(back, [last]);
    OneLineLength(rule);
    OneLineLength(last);
    FixedLengths();
  }

  lemma FixedLengths()
    ensures TextLength(["### DIR-1 — t", "- **Applies when:** a", "- **Status:** active"]) == 57
    ensures TextLength(["- **Rationale:** r", "- **Reviewer check:** c"]) == 43
  {
    var a, b, c := "### DIR-1 — t", "- **Applies when:** a", "- **Status:** active";
    assert [a, b, c][1..] == [b, c] && [b, c][1..] == [c];
    OneLineLength(c);
    var d, e := "- **Rationale:** r", "- **Reviewer check:** c";
    assert [d, e][1..] == [e];
    OneLineLength(e);
  }

  lemma AddedLength()
    ensures |AddedText()| == 64 && AddedText()[63] == NBSP[0] && CleanStart(AddedText()) && IsSpace(NBSP[0]) && !IsBlank(NBSP[0])
  {}

  /** The entry the first export writes is as long as it may be. */
  lemma FirstFits()
    ensures TextLength(RenderEntry(DID, Wanted(), AddedText())) == MAX_ENTRY_CHARS
    ensures TextLength(RenderEntry(DID, Wanted(), AddedText() + NBSP)) > MAX_ENTRY_CHARS
  {
    hide TextLength, RenderEntry, Clean, AddedText;
    FieldsAreClean();
    AddedLength();
    EntryLength(Wanted(), AddedText());
    EntryLength(Wanted(), AddedText() + NBSP);
  }

  // ------------------------------------------------------------------
  // The document
  // ------------------------------------------------------------------

  lemma IsDid()
    ensures ValidId(DID)
  {
    assert DID[4..] == "1";
  }

  lemma RuleIsRule()
    ensures IsRule("|--|", "-| ") && IsRule(RTrimBlanks("|--|"), "-| :")
  {
    assert RTrimBlanks("|--|") == "|--|";
    assert forall c <- "|--|" :: c == '|' || c == '-';
  }

  lemma HeadersAreHeaders()
    ensures IsIndexHeader(INDEX_TITLES, "|--|") && IsRetiredHeader(RETIRED_TITLES, "|--|")
  {
    hide IsRule, RTrimBlanks;
    RuleIsRule();
    NothingToTrim();
  }

  lemma NothingToTrim()
    ensures RTrimBlanks(RETIRED_TITLES) == RETIRED_TITLES
  {
    assert RETIRED_TITLES[|RETIRED_TITLES| - 1] == '|';
  }

  lemma BodyIsWritten()
    ensures Written(DID, OldProposal(), AddedText(), "", [""], OldBody())
    ensures IsEntry(DID, OldBody()) && IsTemplate(OldBody()) && FirstStatus(OldBody()) == Some("active")
    ensures FirstAdded(OldBody()) == Some(AddedText()) && IsServiceOwned(OldBody())
  {
    hide RenderEntry, Written, IsEntry, IsTemplate, FirstStatus, FirstAdded, OwnedAdded, NewAddedLine, RTrimBlanks, TrimBlanks;
    IsDid();
    NewBodyIsWritten(DID, OldProposal(), AddedText());
    WrittenShape(DID, OldProposal(), AddedText(), "", [""], OldBody());
    WrittenAdded(DID, OldProposal(), AddedText(), "", [""], OldBody());
    AddedLength();
    assert AddedText() + "" == AddedText();
    AddedIsItself();
    NewOwned(DATE, "—" + NBSP);
  }

  lemma AddedIsItself()
    ensures RTrimBlanks(AddedText()) == AddedText()
  {
    hide AddedText;
    AddedLength();
  }

  lemma NoHash(line: string)
    requires line != "" ==> line[0] != '#' || (|line| >= 3 && line[2] != '#')
    ensures DirId(line).None?
  {
    hide IdLen;
    assert "### "[0] == '#' && "### "[2] == '#';
  }

  const HEAD := [INDEX_TITLES, "|--|"]
  const RET := [RETIRED_HEADING, RETIRED_TITLES, "|--|"]

  lemma TitlesStart()
    ensures INDEX_TITLES[0] == '|' && RETIRED_TITLES[0] == '|' && RETIRED_HEADING[0] == '#' && RETIRED_HEADING[2] == ' '
  {
    assert "| ID |"[0] == '|';
  }

  lemma HeadIsValid()
    ensures EndsInHeader(HEAD, Index, 0) && NoHeading(HEAD) && NoRetired(HEAD)
  {
    hide DirId, IsIndexHeader, IsRetiredHeader;
    HeadersAreHeaders();
    TitlesStart();
    NoHash(INDEX_TITLES);
    NoHash("|--|");
  }

  lemma RetIsValid()
    ensures IsRetired(RET[0]) && EndsInHeader(RET, Retired, 1) && NoHeading(RET) && NoHeading([""]) && NotRowFirst([""])
  {
    hide DirId, IsIndexHeader, IsRetiredHeader;
    HeadersAreHeaders();
    TitlesStart();
    NoHash(RETIRED_HEADING);
    NoHash(RETIRED_TITLES);
    NoHash("|--|");
    NoHash("");
  }

  lemma EntriesAreValid()
    ensures ValidEntries(Document().entries)
  {
    hide OldBody, IsEntry;
    BodyIsWritten();
    assert ValidEntry(Document().entries[0]);
  }

  lemma BlankIsThere()
    ensures BlankBeforeRetired(Document())
  {
    hide OldBody;
    BodyEndsBlank();
    var e := Document().entries[0];
    assert Document().entries[1..] == [];
    assert FlatEntries(Document().entries) == e.body + e.tail + [];
    assert [] + (e.body + e.tail + []) == e.body;
  }

  lemma DocumentIsValid()
    ensures Valid(Document())
  {
    hide EndsInHeader, NoHeading, NoRetired, ValidEntries, BlankBeforeRetired, IsRetired, OldBody;
    HeadIsValid();
    RetIsValid();
    EntriesAreValid();
    BlankIsThere();
    NothingIsPlain();
  }

  lemma NothingIsPlain()
    ensures NoHeading([]) && NoRetired([]) && AllRows([]) && NotRowFirst([])
  {}

  lemma BodyEndsBlank()
    ensures |OldBody()| >= 2 && OldBody()[|OldBody()| - 1] == "" && IsEntry(DID, OldBody())
  {
    hide RenderEntry, IsEntry;
    BodyIsWritten();
    RenderSplits(DID, OldProposal(), AddedText());
  }

  // ------------------------------------------------------------------
  // Two exports
  // ------------------------------------------------------------------

  lemma RulesDiffer()
    ensures !SameLines(RenderEntry(DID, Wanted(), AddedText()), OldBody())
  {
    hide AddedText, SameLines, RenderEntry, Clean, IsBlankLine, Rule, RStripLines;
    FieldsAreClean();
    var a, b := RenderEntry(DID, Wanted(), AddedText()), RenderEntry(DID, OldProposal(), AddedText());
    EntryLines(Wanted(), AddedText());
    EntryLines(OldProposal(), AddedText());
    AddedIsVisible();
    RuleLinesDiffer();
    SameLinesAt(a, b, 3);
    EmptyIsBlank();
    WithoutBlank(a, b);
  }

  lemma AddedIsVisible()
    ensures !IsBlankLine(ADDED + " " + AddedText())
  {
    hide AddedText;
    NotBlank(ADDED + " " + AddedText(), 0);
  }

  lemma WithoutBlank(a: seq<string>, b: seq<string>)
    ensures SameLines(a, b + [""]) ==> SameLines(a, b)
  {
    hide RStripLines;
    EmptyIsBlank();
    RStripLinesDropsBlanks(b, [""]);
  }

  lemma RuleLinesDiffer()
    ensures RStrip("- **Rule:** " + Rule(RULE_LENGTH)) != RStrip("- **Rule:** " + "y")
  {
    hide RStrip;
    var a, b := "- **Rule:** " + Rule(RULE_LENGTH), "- **Rule:** " + "y";
    assert a[|a| - 1] == 'x' && b[|b| - 1] == 'y';
    RStripUnique(a, "");
    RStripUnique(b, "");
    assert a + "" == a && b + "" == b;
  }

  /** What is left at the end of the entry's last line, and how the next export reads it. */
  lemma ReadAgain()
    ensures AddedAgain(OldBody()) == AddedText() + NBSP
  {
    hide RenderEntry, AddedText, RTrimBlanks, RStrip, Trail, FirstAdded, IsBlankLine, ContentLen;
    BodyIsWritten();
    var entry := RenderEntry(DID, OldProposal(), AddedText());
    RenderSplits(DID, OldProposal(), AddedText());
    AddedIsVisible();
    EmptyIsBlank();
    ContentLenIs(entry, [""]);
    LastTrail();
    NbspStays();
    assert OldBody()[|entry| - 1] == ADDED + " " + AddedText();
  }

  lemma LastTrail()
    ensures Trail(ADDED + " " + AddedText()) == NBSP
  {
    hide RStrip, NewAddedLine;
    var line := ADDED + " " + AddedText();
    var before := ADDED + " " + NewAddedLine(DATE, "—");
    SpaceBehind();
    assert line == before + NBSP;
    RStripUnique(before, NBSP);
    assert line == RStrip(line) + Trail(line);
  }

  lemma SpaceBehind()
    ensures AddedText() == NewAddedLine(DATE, "—") + NBSP
    ensures var before := ADDED + " " + NewAddedLine(DATE, "—"); !IsSpace(before[|before| - 1]) && AllSpace(NBSP)
  {}

  lemma NbspStays()
    ensures RTrimBlanks(AddedText() + NBSP) == AddedText() + NBSP
  {
    hide AddedText;
    AddedLength();
  }

  /** The first export changes the rule and keeps the white space, which stands twice then. */
  lemma FirstExport() returns (e: Edit)
    ensures StepsS(Document(), [Accept()], DATE) == Ok(e) && Valid(e.s)
    ensures e.events == [Action(DID, Amended)]
    ensures e.s.entries == [Entry(DID, ReplaceBody(OldBody(), RenderEntry(DID, Wanted(), AddedText())), [])]
  {
    hide RenderEntry, AddedText, OldBody, IsTemplate, SameLines, TextLength, FirstStatus, FirstAdded, OwnedAdded, ReplaceBody, SetRow, RenderIndexRow, Valid;
    DocumentIsValid();
    BodyIsWritten();
    FirstFits();
    RulesDiffer();
    IsDid();
    var s, t := Document(), Accept();
    RenderNotEmpty(DID, Wanted(), AddedText());
    assert s.entries[0].id == DID;
    assert EntryIndex(s.entries, DID) == 0;
    e := AmendS(s, t, DATE, 0).value;
    OneStep(s, t, DATE);
    StepsRefine(s, [t], DATE);
  }

  lemma OneStep(s: Sections, t: Target, today: string)
    ensures StepsS(s, [t], today) ==
              match StepS(s, t, today) { case Err(r) => Err(r) case Ok(e) => Ok(Edit(e.s, e.events)) }
  {
    hide StepS;
    assert [t][..0] == [];
    assert StepsS(s, [], today) == Ok(Edit(s, []));
    var r := StepS(s, t, today);
    assert r.Ok? ==> [] + r.value.events == r.value.events;
  }

  /**
   * The first export amends the entry and passes every check; the second, of the same decision,
   * is refused because the entry it renders no longer fits.
   */
  lemma SecondExportIsRefused()
    ensures WellFormed(Flat(Document()))
    ensures var first := Apply(Flat(Document()), [Accept()], DATE);
            && first.Ok? && first.value.events == [Action(DID, Amended)]
            && Apply(first.value.doc, [Accept()], DATE) == Err(OverBudget)
  {
    hide Valid, Flat, RenderEntry, AddedText, OldBody, TextLength, FirstAdded, FirstStatus, ReplaceBody, StepsS, Steps, CheckPreservation, FindTable,
      AddedAgain, OwnedAdded;
    var s, t := Document(), Accept();
    IsDid();
    DocumentIsValid();
    var e := FirstExport();
    Tables(s);
    StepsRefine(s, [t], DATE);
    CheckPasses(s, [t], DATE, e);
    SecondStep(e.s);
    Tables(e.s);
    StepsRefine(e.s, [t], DATE);
  }

  /** The body the first export left: owned, active, and one character too long when read again. */
  lemma BodyNow()
    ensures var now := ReplaceBody(OldBody(), RenderEntry(DID, Wanted(), AddedText()));
            && IsServiceOwned(now) && FirstStatus(now) == Some("active") && FirstAdded(now) == Some(AddedText() + NBSP)
  {
    hide RenderEntry, AddedText, OldBody, FirstAdded, FirstStatus, ReplaceBody, Written, OwnedAdded, RTrimBlanks, TrimBlanks, ContentLen, Trail, IsEntry,
      IsTemplate, IsBlankLine, DirId;
    BodyIsWritten();
    IsDid();
    AddedLength();
    ReadAgain();
    var body := OldBody();
    var n := ContentLen(body);
    IsEntryHeading(DID, body);
    ReplaceIsWritten(DID, Wanted(), AddedText(), body);
    RenderNotEmpty(DID, Wanted(), AddedText());
    var ws, blanks, now := Trail(body[n - 1]), body[n..], ReplaceBody(body, RenderEntry(DID, Wanted(), AddedText()));
    WrittenShape(DID, Wanted(), AddedText(), ws, blanks, now);
    WrittenAdded(DID, Wanted(), AddedText(), ws, blanks, now);
    ReplacedOwned(DID, Wanted(), body);
  }

  lemma IsEntryHeading(did: string, body: seq<string>)
    requires IsEntry(did, body)
    ensures body != [] && !IsBlankLine(body[0])
  {
    hide DirId, IsBlankLine;
    DirIdIsSection(body[0]);
  }

  lemma SecondStep(s: Sections)
    requires s.entries == [Entry(DID, ReplaceBody(OldBody(), RenderEntry(DID, Wanted(), AddedText())), [])]
    ensures StepsS(s, [Accept()], DATE) == Err(OverBudget)
  {
    hide RenderEntry, AddedText, OldBody, FirstAdded, FirstStatus, ReplaceBody, OwnedAdded, TextLength;
    BodyNow();
    FirstFits();
    assert s.entries[0].id == DID;
    assert EntryIndex(s.entries, DID) == 0;
    OneStep(s, Accept(), DATE);
  }
}
