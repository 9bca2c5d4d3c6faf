/** Exactly which rewritten entries keep their natural key, and entries that do not. */
module FindingsKeyCases {
  import opened Options
  import opened Text
  import opened ReconcileText
  import opened FindingsBlocks
  import opened FindingsFields
  import opened FindingsExport
  import opened FindingsKeys
  import opened FindingsLines
  import opened FindingsRepeat

  // ------------------------------------------------------------------
  // A text continued on a new line
  // ------------------------------------------------------------------

  lemma NoSpaceInPlaceholders(s: string, i: nat)
    requires i < |s| && IsSpace(s[i])
    ensures s !in PLACEHOLDERS
  {}

  lemma StripOfStart(s: string)
    requires s != "" && !IsSpace(s[0])
    ensures Strip(s) == RStrip(s) != ""
  {
    RStripAtLeast(s[..1], s[1..]);
    assert s == s[..1] + s[1..];
  }

  lemma StripContinued(j: string, d: string) returns (t: string)
    requires j != "" && !IsSpace(j[0]) && d != "" && !IsSpace(d[0])
    ensures t != "" && IsSpace(t[0]) && Strip(j + "\n" + d) == Strip(j) + t
  {
    hide Strip, RStrip, Trail;
    var r, e := RStrip(j), RStrip(d);
    StripOfStart(j);
    StripOfStart(d);
    StripOfStart(j + "\n" + d);
    t := Trail(j) + "\n" + e;
    assert j == r + Trail(j) && d == e + Trail(d);
    assert j + "\n" + d == (r + t) + Trail(d);
    RStripUnique(r + t, Trail(d));
    assert Trail(j) != "" ==> t[0] == Trail(j)[0] && Trail(j)[0] in Trail(j);
  }

  /** What is cleaned of a text continued on a new line starts with what is cleaned of the text, then has white space. */
  lemma CleanContinued(j: string, d: string) returns (w: string)
    requires j != "" && !IsSpace(j[0]) && CleanValue(j) != "" && d != "" && !IsSpace(d[0])
    ensures w != "" && CleanValue(j + "\n" + d) == CleanValue(j) + w
  {
    hide UnescapePipes, Strip;
    var t := StripContinued(j, d);
    assert t[0] != '|';
    UnescapeConcat(Strip(j), t);
    UnescapeTrimmed(t);
    w := UnescapePipes(t);
    NoSpaceInPlaceholders(UnescapePipes(Strip(j)) + w, |UnescapePipes(Strip(j))|);
  }

  lemma JoinOneMore(lines: seq<string>, line: string)
    requires lines != []
    ensures Join(lines + [line]) == Join(lines) + "\n" + line
  {
    assert (lines + [line])[..|lines|] == lines;
  }

  lemma LinesContinued(first: string, rest: seq<string>, d: string) returns (w: string)
    requires first != "" && !IsSpace(first[0]) && CleanValue(Join([first] + rest)) != "" && DISPOSITION <= d
    ensures w != "" && CleanValue(Join([first] + (rest + [d]))) == CleanValue(Join([first] + rest)) + w
  {
    hide CleanValue, Join;
    var lines := [first] + rest;
    assert [first] + (rest + [d]) == lines + [d];
    JoinOneMore(lines, d);
    JoinStarts(lines);
    assert d[0] == DISPOSITION[0] == '*';
    w := CleanContinued(Join(lines), d);
  }

  lemma SuggestionIsTrimmed(entry: seq<string>)
    ensures Trimmed(Suggestion(entry))
  {
    hide CleanValue, AfterMarker, Join;
    var m := MarkedLine(entry);
    if m.Some? {
      CleanIsTrimmed(Join(ValueLines(AfterMarker(entry[m.value]), entry[m.value + 1..])));
    }
  }

  lemma ExtendedKey(b: Block, f: Finding, w: string)
    requires b != [] && HasText(Body(b)) && Suggestion(Body(b)) != "" && Trimmed(Suggestion(Body(b))) && w != ""
    requires CleanValue(Join([NewFirst(Body(b), f)] + NewFurther(Body(b), f))) == Suggestion(Body(b)) + w
    ensures KeyAfter(b, f) == BlockKey(b) <==> Hidden(Suggestion(Body(b)))
  {
    hide Body, Truncate, Suggestion, HasText, NewFirst, NewFurther, CleanValue, Join;
    TruncateExtended(Suggestion(Body(b)), w, MAX_SUGGESTION);
  }

  /** The shortening cuts the suggestion where it would show that something follows it. */
  predicate Hidden(suggestion: string) {
    || |suggestion| > MAX_SUGGESTION
    || (|suggestion| == MAX_SUGGESTION && suggestion[MAX_SUGGESTION - 1] == '…' && !IsSpace(suggestion[MAX_SUGGESTION - 2]))
  }

  // ------------------------------------------------------------------
  // An entry that ends in its suggestion
  // ------------------------------------------------------------------

  lemma FirstStarts(entry: seq<string>)
    requires HasText(entry)
    ensures !IsSpace(First(entry)[0])
  {
    hide LStrip, FirstText, AfterMarker;
    LStripShrinks(AfterMarker(entry[Named(entry)]));
    LStripShrinks(entry[Start(entry)]);
  }

  /** Without a disposition line in the entry, only the appended one can reach the suggestion. */
  lemma AppendedFurther(entry: seq<string>, f: Finding)
    requires HasText(entry) && IsStatus(f.status) && Appends(entry, f)
    ensures NewFurther(entry, f) == Further(entry) + if End(entry) == |entry| then [Disposition(f)] else []
  {
    hide LStrip, HasMarker, AfterMarker, MarkedLine, FirstText, NewLine, Disposition, IsField, HasText, Named, Start, FirstAt;
    var s := Start(entry);
    forall j | 0 <= j < |Further(entry)|
      ensures NewLine(entry, f, s + 1 + j) == Further(entry)[j]
    {
      assert Further(entry)[j] == entry[s + 1..][j] == entry[s + 1 + j] && Further(entry)[j] in Further(entry);
      NewLineKind(entry, f, s + 1 + j);
    }
  }

  /**
   * For an entry that is given its first disposition line: the natural key is kept exactly when
   * a field follows the suggestion or the shortening hides what is added to it.
   */
  lemma NewDispositionKeepsKey(b: Block, f: Finding, last: bool)
    requires IsBlock(b) && IsStatus(f.status) && BlockKey(b).Some? && HasText(Body(b)) && MarkerStays(Body(b), f)
    requires Appends(Body(b), f) && !FirstChanges(Body(b), f)
    ensures BlockKey(Rewrite(b, f, last)) == BlockKey(b) <==> End(Body(b)) < |Body(b)| || Hidden(Suggestion(Body(b)))
  {
    hide HasText, MarkerStays, Body, Suggestion, Truncate, CleanValue, Join, NewFirst, NewFurther, First, Further, FirstChanges, Rewrite, End,
      Hidden, BlockKey, Disposition, IsBlock, FirstAt;
    var entry := Body(b);
    BlockIsNotEmpty(b);
    KeyHasText(b);
    KeyAfterIs(b, f, last);
    UnchangedReading(entry, f);
    AppendedFurther(entry, f);
    SuggestionReads(entry);
    if End(entry) == |entry| {
      LinesHavePrefixes(f);
      FirstStarts(entry);
      var w := LinesContinued(First(entry), Further(entry), Disposition(f));
      SuggestionIsTrimmed(entry);
      ExtendedKey(b, f, w);
    } else {
      assert Further(entry) + [] == Further(entry);
      KeyReads(b);
    }
  }

  // ------------------------------------------------------------------
  // A suggestion that starts on the Status line
  // ------------------------------------------------------------------

  lemma {:induction false} JoinPrefix(lines: seq<string>)
    requires lines != []
    ensures lines[0] <= Join(lines)
  {
    if |lines| > 1 {
      JoinPrefix(lines[..|lines| - 1]);
    }
  }

  lemma {:induction false} UnescapePlain(a: string, t: string)
    requires '\\' !in a
    ensures UnescapePipes(a + t) == a + UnescapePipes(t)
  {
    hide UnescapePipes;
    if a == "" {
      assert a + t == t;
    } else {
      assert (a + t)[1..] == a[1..] + t;
      assert a[0] in a && forall c <- a[1..] :: c in a;
      UnescapePlain(a[1..], t);
      UnescapeFirst(a + t);
      assert a == [a[0]] + a[1..];
    }
  }

  lemma UnescapeFirst(s: string)
    requires s != "" && s[0] != '\\'
    ensures UnescapePipes(s) == [s[0]] + UnescapePipes(s[1..])
  {
    assert |s| == 1 ==> s[1..] == "";
  }

  /** Cleaning keeps a plain start that is longer than any placeholder and ends in a visible character. */
  lemma CleanKeepsStart(a: string, j: string)
    requires a <= j && |a| > 4 && '\\' !in a && !IsSpace(a[0]) && !IsSpace(a[|a| - 1])
    ensures a <= CleanValue(j)
  {
    hide UnescapePipes, RStrip, Strip;
    StripOfStart(j);
    assert j == a + j[|a|..];
    RStripAtLeast(a, j[|a|..]);
    var r := RStrip(j);
    assert a <= r by {
      assert r == j[..|r|];
    }
    assert r == a + r[|a|..];
    UnescapePlain(a, r[|a|..]);
  }

  /** Shortening keeps a short start. */
  lemma TruncateKeepsStart(a: string, t: string, limit: nat)
    requires a <= t && a != "" && |a| < limit && !IsSpace(a[|a| - 1])
    ensures a <= Truncate(t, limit)
  {
    hide RStrip;
    if |t| > limit {
      var cut := t[..limit - 1];
      assert cut == a + cut[|a|..];
      RStripAtLeast(a, cut[|a|..]);
    }
  }

  /** A character of a shortened text is that of the text, or the ellipsis. */
  lemma TruncateAt(t: string, limit: nat, i: nat)
    requires limit >= 1 && i < |Truncate(t, limit)|
    ensures i < |t| && (Truncate(t, limit)[i] == t[i] || Truncate(t, limit)[i] == '…')
    ensures i + 1 < |Truncate(t, limit)| ==> Truncate(t, limit)[i] == t[i]
  {
    hide RStrip;
  }

  lemma ProposedSplit(x: string) returns (ws: string, rest: string)
    requires Strip(x) == PROPOSED
    ensures AllSpace(ws) && x == ws + (PROPOSED + rest)
  {
    hide RStrip, LStrip;
    LStripShape(x);
    var y := LStrip(x);
    ws := x[..|x| - |y|];
    rest := y[|PROPOSED|..];
    assert y == PROPOSED + rest;
    assert x == ws + y;
  }

  lemma Assoc3(a: string, b: string, c: string, d: string)
    ensures a + (b + (c + d)) == a + b + c + d
  {}

  /** The status line of an undecided entry: `proposed` between white space. */
  lemma ProposedLine(line: string) returns (a: string)
    requires STATUS <= line && Strip(line[|STATUS|..]) == PROPOSED
    ensures a <= line && |a| >= 19 && '\\' !in a && a[0] == '*' && !IsSpace(a[|a| - 1])
    ensures a[11] == ' ' ==> IsSpace(a[12]) || a[12] == 'p'
  {
    hide Strip;
    var ws, rest := ProposedSplit(line[|STATUS|..]);
    a := STATUS + ws + PROPOSED;
    Assoc3(STATUS, ws, PROPOSED, rest);
    assert line == STATUS + line[|STATUS|..];
    BetweenSpaces(ws);
  }

  lemma BetweenSpaces(ws: string)
    requires AllSpace(ws)
    ensures var a := STATUS + ws + PROPOSED;
            && |a| >= 19 && '\\' !in a && a[0] == '*' && !IsSpace(a[|a| - 1]) && (a[11] == ' ' ==> IsSpace(a[12]) || a[12] == 'p')
  {
    StatusIsPlain();
    var a := STATUS + ws + PROPOSED;
    assert a[|a| - 1] == PROPOSED[|PROPOSED| - 1] == 'd';
    assert |ws| > 0 ==> ws[0] in ws;
    assert |ws| > 1 ==> a[12] == ws[1] && ws[1] in ws;
  }

  lemma StatusIsPlain()
    ensures '\\' !in STATUS && '\\' !in PROPOSED && STATUS[0] == '*' && |STATUS| == 11 && |PROPOSED| == 8
  {}

  lemma {:induction false} LStripShape(s: string)
    ensures |LStrip(s)| <= |s| && s[|s| - |LStrip(s)|..] == LStrip(s) && AllSpace(s[..|s| - |LStrip(s)|])
  {
    if s != "" && IsSpace(s[0]) {
      LStripShape(s[1..]);
      var n := |LStrip(s)|;
      assert s[|s| - n..] == s[1..][|s| - 1 - n..];
      assert s[..|s| - n] == [s[0]] + s[1..][..|s| - 1 - n];
    } else {
      assert s[|s| - |s|..] == s && s[..0] == "";
    }
  }

  lemma DecidedLine(f: Finding)
    requires IsStatus(f.status)
    ensures var a := StatusLine(f);
            && 4 < |a| < MAX_SUGGESTION && |a| > 12 && '\\' !in a && a[0] == '*' && !IsSpace(a[|a| - 1])
            && a[11] == ' ' && !IsSpace(a[12]) && a[12] != 'p' && a[12] != '…'
  {
    StatusIsPlain();
    assert f.status[|f.status| - 1] == 'd';
    assert '\\' !in f.status;
    assert StatusLine(f)[12] == f.status[0];
  }

  /** Texts that start with an undecided and a decided status line differ, however they are shortened. */
  lemma StatusTextsDiffer(was: string, f: Finding, j: string, k: string)
    requires STATUS <= was && Strip(was[|STATUS|..]) == PROPOSED && IsStatus(f.status) && was <= j && StatusLine(f) <= k
    ensures Truncate(CleanValue(j), MAX_SUGGESTION) != Truncate(CleanValue(k), MAX_SUGGESTION)
  {
    hide CleanValue, Truncate, Strip, StatusLine;
    var a := ProposedLine(was);
    var c := StatusLine(f);
    DecidedLine(f);
    CleanKeepsStart(a, j);
    CleanKeepsStart(c, k);
    var t, u := CleanValue(j), CleanValue(k);
    TruncateKeepsStart(c, u, MAX_SUGGESTION);
    if |Truncate(t, MAX_SUGGESTION)| > 12 {
      TruncateAt(t, MAX_SUGGESTION, 11);
      TruncateAt(t, MAX_SUGGESTION, 12);
    }
  }

  /** Then the key is lost, with or without a disposition line. */
  lemma StatusFirstLosesKey(b: Block, f: Finding, last: bool)
    requires IsBlock(b) && IsStatus(f.status) && BlockKey(b).Some? && HasText(Body(b)) && MarkerStays(Body(b), f)
    requires Start(Body(b)) > Named(Body(b)) && FirstAt(Body(b), STATUS) == Some(Start(Body(b))) && MdStatus(b) == PROPOSED
    ensures BlockKey(Rewrite(b, f, last)) != BlockKey(b)
  {
    hide HasText, MarkerStays, Body, Suggestion, Truncate, CleanValue, Join, NewFurther, Further, Rewrite, BlockKey, Disposition, IsBlock, FirstAt,
      Strip, Start, Named, StatusLine;
    var entry := Body(b);
    var s := Start(entry);
    BlockIsNotEmpty(b);
    KeyHasText(b);
    KeyReads(b);
    KeyAfterIs(b, f, last);
    SuggestionReads(entry);
    LinesHavePrefixes(f);
    SubBody(b, STATUS, "x");
    assert entry[s] == b[s];
    StarStays(entry[s]);
    StarStays(StatusLine(f));
    JoinPrefix([First(entry)] + Further(entry));
    JoinPrefix([NewFirst(entry, f)] + NewFurther(entry, f));
    StatusTextsDiffer(entry[s], f, Join([First(entry)] + Further(entry)), Join([NewFirst(entry, f)] + NewFurther(entry, f)));
  }

  // ------------------------------------------------------------------
  // All cases
  // ------------------------------------------------------------------

  /** The suggestion's lines as they are, and as the rewritten entry has them. */
  function Reading(entry: seq<string>): seq<string>
    requires HasText(entry)
  {
    [First(entry)] + Further(entry)
  }

  function NewReading(entry: seq<string>, f: Finding): seq<string>
    requires HasText(entry)
  {
    [NewFirst(entry, f)] + NewFurther(entry, f)
  }

  /**
   * What keeps the key of an undecided entry. Not: a suggestion that starts on the Status line.
   * Else, if no other decision line is in its way: a field between it and an appended
   * disposition line, or a cut that hides that. Else, with an approver, date or disposition line
   * in the suggestion: its lines are the same once cleaned, white space behind them aside, or
   * they differ only where the cut hides it.
   */
  predicate KeepsKey(entry: seq<string>, f: Finding)
    requires HasText(entry)
  {
    if Start(entry) > Named(entry) && FirstAt(entry, STATUS) == Some(Start(entry)) then false
    else if !FirstChanges(entry, f) && Appends(entry, f) then End(entry) < |entry| || Hidden(Suggestion(entry))
    else if !FirstChanges(entry, f) && !Swallowed(entry, f) then true
    else
      || SameCleaned(Reading(entry), NewReading(entry, f))
      || HiddenByCut(CleanValue(Join(Reading(entry))), CleanValue(Join(NewReading(entry, f))), MAX_SUGGESTION)
  }

  lemma ReadingsStart(entry: seq<string>, f: Finding)
    requires HasText(entry) && IsStatus(f.status)
    ensures StartsVisibly(Reading(entry)) && StartsVisibly(NewReading(entry, f))
  {
    hide HasText, Start, Named, Further, NewFurther, NewLine, LStrip, First, IsField, Disposition;
    FirstStarts(entry);
    NewLineKind(entry, f, Start(entry));
    LStripShrinks(entry[Start(entry)]);
    LStripShrinks(NewLine(entry, f, Start(entry)));
    StartHasText(entry);
  }

  lemma StartHasText(entry: seq<string>)
    requires HasText(entry)
    ensures Start(entry) > Named(entry) ==> LStrip(entry[Start(entry)]) != ""
  {
    hide MarkedLine, AfterMarker, LStrip;
  }

  /** With other decision lines in the suggestion. */
  lemma OtherLinesKeepKeyIff(b: Block, f: Finding, last: bool)
    requires IsBlock(b) && IsStatus(f.status) && BlockKey(b).Some? && HasText(Body(b)) && MarkerStays(Body(b), f)
    ensures BlockKey(Rewrite(b, f, last)) == BlockKey(b) <==>
              || SameCleaned(Reading(Body(b)), NewReading(Body(b), f))
              || HiddenByCut(CleanValue(Join(Reading(Body(b)))), CleanValue(Join(NewReading(Body(b), f))), MAX_SUGGESTION)
  {
    hide HasText, MarkerStays, Body, Suggestion, Truncate, CleanValue, Join, NewFirst, NewFurther, First, Further, Rewrite, BlockKey, IsBlock,
      SameCleaned, HiddenByCut, StartsVisibly;
    var entry := Body(b);
    BlockIsNotEmpty(b);
    KeyAfterIs(b, f, last);
    KeyHasText(b);
    KeyReads(b);
    SuggestionReads(entry);
    ShortOfNothing(Suggestion(entry));
    ReadingsStart(entry, f);
    SameTextIff(Reading(entry), NewReading(entry, f));
    TruncateSameIff(Suggestion(entry), CleanValue(Join(NewReading(entry, f))), MAX_SUGGESTION);
  }

  /** The exact condition, on the entry and the finding before the rewrite. */
  lemma RewriteKeepsKeyIff(b: Block, f: Finding, last: bool)
    requires IsBlock(b) && IsStatus(f.status) && BlockKey(b).Some? && MdStatus(b) == PROPOSED
    requires HasText(Body(b)) && MarkerStays(Body(b), f)
    ensures BlockKey(Rewrite(b, f, last)) == BlockKey(b) <==> KeepsKey(Body(b), f)
  {
    hide HasText, MarkerStays, Body, Suggestion, Truncate, CleanValue, Join, NewFirst, NewFurther, First, Further, FirstChanges, Swallowed, Rewrite, End,
      Hidden, BlockKey, Disposition, IsBlock, FirstAt, MdStatus, Appends, Start, Named, SameCleaned, HiddenByCut;
    var entry := Body(b);
    if Start(entry) > Named(entry) && FirstAt(entry, STATUS) == Some(Start(entry)) {
      StatusFirstLosesKey(b, f, last);
    } else if !FirstChanges(entry, f) && Appends(entry, f) {
      NewDispositionKeepsKey(b, f, last);
    } else if !FirstChanges(entry, f) && !Swallowed(entry, f) {
      RewriteKeepsKey(b, f, last);
    } else {
      OtherLinesKeepKeyIff(b, f, last);
    }
  }

  lemma ShortOfNothing(s: string)
    ensures Truncate("", MAX_SUGGESTION) == "" && (Truncate(s, MAX_SUGGESTION) == "" ==> s == "")
  {
    hide RStrip;
  }

  /** When every rewritten entry without a Status line keeps its key, a second export changes nothing. */
  lemma SafeLedgerConverges(doc: seq<string>, decided: Decided)
    requires forall k :: decided(k).Some? ==> IsStatus(decided(k).value.status)
    requires forall b <- Split(doc).blocks ::
               FindingOf(b, decided).Some? && MdStatus(b) == PROPOSED && FirstAt(b, STATUS).None? ==>
                 && HasText(Body(b)) && MarkerStays(Body(b), FindingOf(b, decided).value)
                 && KeepsKey(Body(b), FindingOf(b, decided).value)
    ensures Export(Export(doc, decided), decided) == Export(doc, decided)
  {
    hide Split, Rewrite, BlockKey, FirstAt, HasText, MarkerStays, KeepsKey, AgreeOn, IsBlock, Body, NextKey, SaysAll;
    SplitJoins(doc);
    forall b | b in Split(doc).blocks
      ensures Steady(b, decided)
    {
      if FindingOf(b, decided).Some? && FirstAt(b, STATUS).None? {
        var f := FindingOf(b, decided).value;
        assert decided(BlockKey(b).value).Some?;
        RewriteKeepsKeyIff(b, f, false);
        NextKeyIs(b, f, false);
        AgreesWithItself(b, f);
      }
    }
    SecondExportIff(doc, decided);
  }

  lemma AgreesWithItself(b: Block, f: Finding)
    ensures AgreeOn(b, f, f)
  {
    hide FirstAt, Disposition, ApproverLine, DateLine;
  }

  // ------------------------------------------------------------------
  // Entries that lose their key
  // ------------------------------------------------------------------

  /** A heading and a suggestion on one line. */
  const BARE: Block := ["### x", "**Suggestion**: y"]
  const NOTED := Finding("approved", "", "", "n")

  /** A suggestion with nothing on its line, and the Status line below it. */
  const EMPTY: Block := ["### x", "**Suggestion**:", "**Status**: proposed"]
  const APPROVED := Finding("approved", "", "", "")

  lemma NoMarkerInShort(line: string)
    requires |line| < |MARKER|
    ensures !HasMarker(line)
  {}

  lemma NotDecision(entry: seq<string>, f: Finding, i: nat)
    requires i < |entry| && IsStatus(f.status) && (entry[i] == "" || entry[i][0] != '*')
    ensures NewLine(entry, f, i) == entry[i]
  {
    hide FirstAt, Disposition, IsField, LStrip;
    NewLineKind(entry, f, i);
  }

  /** A line that names the suggestion is no decision line. */
  lemma NamedIsNoDecision(line: string)
    requires MARKER <= line
    ensures !(STATUS <= line) && !(APPROVER <= line) && !(DATE <= line) && !(DISPOSITION <= line)
  {
    assert MARKER[3] == 'u' && STATUS[3] == 't' && APPROVER[2] == 'A' && DATE[2] == 'D' && DISPOSITION[2] == 'D' && MARKER[2] == 'S';
  }

  lemma MarkerFirst(line: string)
    requires MARKER <= line
    ensures HasMarker(line) && AfterMarker(line) == line[|MARKER|..]
  {
    assert line[0..|MARKER|] == MARKER;
    assert MarkedAt(line, 0);
  }

  /** In an entry of a short heading and a marker at the start of the next line, the marker is there. */
  lemma SecondLineMarked(entry: seq<string>)
    requires |entry| >= 2 && |entry[0]| < |MARKER| && MARKER <= entry[1]
    ensures MarkedLine(entry) == Some(1) && HasMarker(entry[1]) && AfterMarker(entry[1]) == entry[1][|MARKER|..]
  {
    hide HasMarker, AfterMarker, MarkedLine;
    MarkerFirst(entry[1]);
    NoMarkerInShort(entry[0]);
    MarkedIs(entry, 1);
  }

  /** And it stays there. */
  lemma SecondLineMarker(entry: seq<string>, f: Finding)
    requires |entry| >= 2 && IsStatus(f.status) && entry[0] == "### x" && MARKER <= entry[1] && HasText(entry)
    ensures MarkerStays(entry, f) && Named(entry) == 1
  {
    hide HasText, LStrip, FirstText, HasMarker, AfterMarker, NewLine, MarkedLine;
    SecondLineMarked(entry);
    NoMarkerInShort(entry[0]);
    NotDecision(entry, f, 0);
    NamedIsKept(entry, f, 1);
  }

  lemma NamedIsKept(entry: seq<string>, f: Finding, i: nat)
    requires i < |entry| && MARKER <= entry[i]
    ensures NewLine(entry, f, i) == entry[i]
  {
    hide FirstAt, Disposition, StatusLine, ApproverLine, DateLine;
    NamedIsNoDecision(entry[i]);
  }

  lemma HeadingFirst(b: Block)
    requires |b| >= 2 && b[0] == "### x" && forall i :: 1 <= i < |b| ==> b[i] != "" && b[i][0] == '*'
    ensures IsBlock(b) && Body(b) == b
  {
    assert b[0][0] == '#';
    assert b[|b| - 1] != "";
  }

  lemma SingleIsClean(t: string)
    requires |t| > 4 || t == "y"
    requires t != "" && Trimmed(t) && '\\' !in t
    ensures CleanValue(Join([t])) == t
  {
    UnescapePlain(t, "");
    assert t + "" == t;
  }

  lemma NothingFurther()
    ensures UpToField([]) == []
  {}

  lemma BareReads()
    ensures IsBlock(BARE) && Body(BARE) == BARE && HasText(BARE) && MarkerStays(BARE, NOTED) && Named(BARE) == Start(BARE) == 1
    ensures End(BARE) == |BARE| && Suggestion(BARE) == "y" && BlockKey(BARE).Some?
  {
    hide MarkedLine, AfterMarker, UpToField, CleanValue, Join, LStrip, FirstText, MarkerStays;
    HeadingFirst(BARE);
    SecondLineMarked(BARE);
    assert BARE[1][|MARKER|..] == " y";
    BlankBeforeY();
    SecondLineMarker(BARE, NOTED);
    assert BARE[2..] == [];
    NothingFurther();
    SuggestionReads(BARE);
    assert ["y"] + [] == ["y"];
    SingleIsClean("y");
    ShortOfNothing("y");
  }

  lemma BlankBeforeY()
    ensures LStrip(" y") == "y"
  {
    assert " y"[1..] == "y";
  }

  lemma BareAppends()
    ensures Appends(BARE, NOTED) && FirstAt(BARE, STATUS).None? && MdStatus(BARE) == PROPOSED
  {
    NamedIsNoDecision(BARE[1]);
    assert BARE[0][0] == '#';
    NotThere(BARE, STATUS);
    NotThere(BARE, DISPOSITION);
    assert Disposition(NOTED) == DISPOSITION + " n";
  }

  /** The smallest entry that loses its key: the note becomes part of the suggestion. */
  lemma KeyCanBeLost()
    ensures IsBlock(BARE) && BlockKey(BARE).Some? && BlockKey(Rewrite(BARE, NOTED, false)) != BlockKey(BARE)
  {
    hide Rewrite, HasText, MarkerStays, Start, Named, End, Suggestion, Appends, BlockKey, MdStatus, Body, FirstAt;
    BareReads();
    BareAppends();
    NewDispositionKeepsKey(BARE, NOTED, false);
  }

  lemma EmptyReads()
    ensures IsBlock(EMPTY) && Body(EMPTY) == EMPTY && HasText(EMPTY) && MarkerStays(EMPTY, APPROVED) && Named(EMPTY) == 1 && Start(EMPTY) == 2
    ensures Suggestion(EMPTY) == "**Status**: proposed" && BlockKey(EMPTY).Some?
  {
    hide MarkedLine, AfterMarker, UpToField, CleanValue, Join, LStrip, MarkerStays;
    HeadingFirst(EMPTY);
    SecondLineMarked(EMPTY);
    assert EMPTY[1][|MARKER|..] == "";
    NothingStripped();
    StarStays(EMPTY[2]);
    assert EMPTY[2..] == [EMPTY[2]];
    FirstTextIs(EMPTY[2..], 0);
    SecondLineMarker(EMPTY, APPROVED);
    assert EMPTY[3..] == [];
    NothingFurther();
    SuggestionReads(EMPTY);
    assert [EMPTY[2]] + [] == [EMPTY[2]];
    SingleIsClean(EMPTY[2]);
    ShortOfNothing(EMPTY[2]);
  }

  lemma NothingStripped()
    ensures LStrip("") == ""
  {}

  lemma EmptyIsProposed()
    ensures FirstAt(EMPTY, STATUS) == Some(2) && MdStatus(EMPTY) == PROPOSED
  {
    NamedIsNoDecision(EMPTY[1]);
    assert EMPTY[0][0] == '#';
    FirstIs(EMPTY, STATUS, 2);
    assert EMPTY[2][|STATUS|..] == " proposed";
    assert " proposed"[1..] == PROPOSED;
    assert !IsSpace('p') && !IsSpace('d');
  }

  /** An entry that loses its key without any disposition line: its Status line was its suggestion. */
  lemma StatusKeyIsLost()
    ensures IsBlock(EMPTY) && BlockKey(EMPTY).Some? && Disposition(APPROVED) == ""
    ensures BlockKey(Rewrite(EMPTY, APPROVED, false)) != BlockKey(EMPTY)
  {
    hide Rewrite, HasText, MarkerStays, Start, Named, End, Suggestion, Appends, BlockKey, MdStatus, Body, FirstAt;
    EmptyReads();
    EmptyIsProposed();
    StatusFirstLosesKey(EMPTY, APPROVED, false);
  }

  // ------------------------------------------------------------------
  // A second export that rewrites
  // ------------------------------------------------------------------

  const OTHER := Finding("approved", "", "", "m")

  /**
   * A ledger of one entry without a Status line. After the first export the entry has the key of
   * another decided finding, so the second rewrites it again.
   */
  lemma SecondExportCanRewrite() returns (decided: Decided)
    ensures forall k :: decided(k).Some? ==> IsStatus(decided(k).value.status)
    ensures Export(Export(BARE, decided), decided) != Export(BARE, decided)
  {
    hide Rewrite, HasText, MarkerStays, Start, Named, End, Suggestion, Appends, BlockKey, MdStatus, Body, FirstAt, Split, Disposition, Export, NextKey;
    BareReads();
    BareAppends();
    NewDispositionKeepsKey(BARE, NOTED, true);
    var key, next := BlockKey(BARE).value, BlockKey(Rewrite(BARE, NOTED, true));
    BareKeyAfter();
    decided := k => if k == key then Some(NOTED) else if k == next.value then Some(OTHER) else None;
    BareSplits();
    DifferentNotes();
    NextKeyIs(BARE, NOTED, true);
    assert !Steady(BARE, decided);
    SecondExportIff(BARE, decided);
    assert BARE in Split(BARE).blocks;
  }

  lemma BareSplits()
    ensures Split(BARE) == Parts([], [BARE])
  {
    hide Split;
    HeadingFirst(BARE);
    SplitIsUnique([], [BARE]);
    FlatOne([], BARE);
    NoBlocks();
    assert [] + BARE == BARE && [] + [BARE] == [BARE];
  }

  lemma DifferentNotes()
    ensures Disposition(NOTED) == DISPOSITION + " n" && Disposition(OTHER) == DISPOSITION + " m"
    ensures !AgreeOn(BARE, NOTED, OTHER) && !SaysAll(BARE, NOTED)
  {
    hide FirstAt;
    BareAppends();
    assert (DISPOSITION + " n")[|DISPOSITION| + 1] == 'n' && (DISPOSITION + " m")[|DISPOSITION| + 1] == 'm';
  }

  lemma BareKeyAfter()
    ensures BlockKey(Rewrite(BARE, NOTED, true)).Some?
  {
    hide Rewrite, HasText, MarkerStays, Start, Named, End, Suggestion, Appends, Body, FirstAt, Disposition, First, Further, Truncate, CleanValue, Join,
      NewFirst, NewFurther, FirstChanges, IsBlock;
    BareReads();
    BareAppends();
    KeyAfterIs(BARE, NOTED, true);
    BareUnchanged();
    UnchangedReading(BARE, NOTED);
    AppendedFurther(BARE, NOTED);
    SuggestionReads(BARE);
    LinesHavePrefixes(NOTED);
    FirstStarts(BARE);
    var w := LinesContinued(First(BARE), Further(BARE), Disposition(NOTED));
  }

  lemma BareUnchanged()
    requires HasText(BARE) && Start(BARE) == Named(BARE)
    ensures !FirstChanges(BARE, NOTED)
  {}
}
