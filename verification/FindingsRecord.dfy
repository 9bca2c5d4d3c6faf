/** What the exporter writes into an entry of the ledger, line by line. */
module FindingsRecord {
  import opened Options
  import opened Text
  import opened FindingsBlocks
  import opened FindingsFields
  import opened FindingsExport
  import opened FindingsRepeat

  // ------------------------------------------------------------------
  // The record of a decision
  // ------------------------------------------------------------------

  /** The first line that begins with the prefix, if there is one, stays the first and reads so. */
  ghost predicate FirstReads(before: Block, after: Block, prefix: string, line: string) {
    forall i :: IsFirst(before, prefix, i) ==> IsFirst(after, prefix, i) && after[i] == line
  }

  predicate IsFirst(lines: seq<string>, prefix: string, i: int) {
    0 <= i < |lines| && prefix <= lines[i] && forall j :: 0 <= j < i ==> !(prefix <= lines[j])
  }

  function Named(s: string): string {
    if s == "" then "—" else s
  }

  /** Only an approval names who approved, and when. */
  ghost predicate DecisionReads(before: Block, after: Block, f: Finding) {
    var approval := f.status in {"approved", "applied"};
    && FirstReads(before, after, "**Status**:", "**Status**: " + f.status)
    && FirstReads(before, after, "**Approver**:", "**Approver**: " + if approval then Named(f.approver) else "—")
    && FirstReads(before, after, "**Date approved**:", "**Date approved**: " + if approval then Named(f.date) else "—")
  }

  function Sentence(f: Finding): string {
    "**Disposition (triage):** " + f.status + " by " + Named(f.approver) + " on " + f.date + " — " + f.note
  }

  /** The sentence of a finding that was not approved; dashes and blanks at its end are dropped. */
  predicate ClosedReads(line: string, f: Finding) {
    var sentence := Sentence(f);
    && line <= sentence && (forall c <- sentence[|line|..] :: c == ' ' || c == '—')
    && line != "" && line[|line| - 1] != ' ' && line[|line| - 1] != '—'
  }

  /** The disposition line a finding asks for. An approval without a note asks for none. */
  predicate DispositionReads(line: string, f: Finding) {
    if f.status in {"approved", "applied"} then f.note != "" && line == "**Disposition (triage):** " + f.note
    else ClosedReads(line, f)
  }

  ghost predicate HasFirst(lines: seq<string>, prefix: string) {
    exists i :: IsFirst(lines, prefix, i)
  }

  /** No line changes but the first of each prefix. */
  predicate OthersStay(before: Block, after: Block, n: nat, prefixes: set<string>) {
    && n <= |before| && n <= |after|
    && forall i :: 0 <= i < n && (forall p <- prefixes :: !IsFirst(before, p, i)) ==> after[i] == before[i]
  }

  const DECISION := {"**Status**:", "**Approver**:", "**Date approved**:"}

  /**
   * The first disposition line is replaced; where there is none the line goes behind the last
   * line that is not empty, with a newline if that is where the file ends.
   */
  ghost predicate DispositionPlaced(before: Block, after: Block, line: string, last: bool) {
    if HasFirst(before, "**Disposition (triage):**") then
      && |after| == |before| && OthersStay(before, after, |before|, DECISION + {"**Disposition (triage):**"})
      && FirstReads(before, after, "**Disposition (triage):**", line)
    else
      exists n ::
        && 0 <= n <= |before| && (forall l <- before[n..] :: l == "") && (n > 0 ==> before[n - 1] != "")
        && OthersStay(before, after, n, DECISION) && n < |after| && after[n] == line
        && after[n + 1..] == if last && n == |before| then [""] else before[n..]
  }

  /** The entry after the export of finding f, for the entry before. */
  ghost predicate Recorded(before: Block, after: Block, f: Finding, last: bool) {
    && DecisionReads(before, after, f)
    && if f.status in {"approved", "applied"} && f.note == "" then |after| == |before| && OthersStay(before, after, |before|, DECISION)
       else exists line :: DispositionReads(line, f) && DispositionPlaced(before, after, line, last)
  }

  // ------------------------------------------------------------------
  // A rewrite records the decision
  // ------------------------------------------------------------------

  lemma FirstIff(lines: seq<string>, prefix: string)
    ensures forall i :: IsFirst(lines, prefix, i) <==> FirstAt(lines, prefix) == Some(i)
    ensures HasFirst(lines, prefix) <==> FirstAt(lines, prefix).Some?
  {
    hide FirstAt;
    var r := FirstAt(lines, prefix);
    if r.Some? {
      assert IsFirst(lines, prefix, r.value);
    }
  }

  lemma SaidIsFirst(before: Block, after: Block, prefix: string, line: string)
    requires FirstAt(after, prefix) == FirstAt(before, prefix) && Says(after, prefix, line)
    ensures FirstReads(before, after, prefix, line)
  {
    hide FirstAt, IsFirst;
    FirstIff(before, prefix);
    FirstIff(after, prefix);
  }

  lemma LinesRead(f: Finding)
    requires IsStatus(f.status)
    ensures var approval := f.status in {"approved", "applied"};
            && StatusLine(f) == "**Status**: " + f.status
            && ApproverLine(f) == "**Approver**: " + (if approval then Named(f.approver) else "—")
            && DateLine(f) == "**Date approved**: " + (if approval then Named(f.date) else "—")
  {
    assert STATUS + " " == "**Status**: " && APPROVER + " " == "**Approver**: " && DATE + " " == "**Date approved**: ";
  }

  lemma RewriteReads(b: Block, f: Finding, last: bool)
    requires IsStatus(f.status)
    ensures DecisionReads(b, Rewrite(b, f, last), f)
  {
    hide FirstAt, Says, Disposition, Rewrite, StatusLine, ApproverLine, DateLine, FirstReads, Named, OrDash;
    var r := Rewrite(b, f, last);
    RewriteSaysAll(b, f, last);
    RewriteKeepsFirsts(b, f, last, "");
    LinesRead(f);
    SaidIsFirst(b, r, STATUS, StatusLine(f));
    SaidIsFirst(b, r, APPROVER, ApproverLine(f));
    SaidIsFirst(b, r, DATE, DateLine(f));
  }

  lemma {:induction false} DroppedDashes(s: string)
    ensures forall c <- s[|DropDashes(s)|..] :: c == ' ' || c == '—'
    ensures DropDashes(s) != "" ==> DropDashes(s)[|DropDashes(s)| - 1] != ' ' && DropDashes(s)[|DropDashes(s)| - 1] != '—'
  {
    if s != "" && (s[|s| - 1] == ' ' || s[|s| - 1] == '—') {
      DroppedDashes(s[..|s| - 1]);
      var n := |DropDashes(s)|;
      assert s[n..] == s[..|s| - 1][n..] + [s[|s| - 1]];
    } else {
      assert s[|s|..] == "";
    }
  }

  lemma DispositionText()
    ensures DISPOSITION + " " == "**Disposition (triage):** "
  {}

  lemma SentenceIs(f: Finding)
    requires IsStatus(f.status) && !Approves(f)
    ensures Disposition(f) == DropDashes(Sentence(f))
  {
    hide DropDashes;
    DispositionText();
  }

  lemma ClosedIs(f: Finding)
    requires IsStatus(f.status) && !Approves(f)
    ensures ClosedReads(Disposition(f), f)
  {
    hide DropDashes, Sentence, Disposition;
    SentenceIs(f);
    ClosedNotEmpty(f);
    DroppedDashes(Sentence(f));
  }

  lemma DispositionIs(f: Finding)
    requires IsStatus(f.status)
    ensures Disposition(f) == "" <==> f.status in {"approved", "applied"} && f.note == ""
    ensures Disposition(f) != "" ==> DispositionReads(Disposition(f), f)
  {
    hide DropDashes, ClosedReads, OrDash;
    DispositionText();
    if !Approves(f) {
      ClosedIs(f);
      ClosedNotEmpty(f);
    }
  }

  lemma ClosedNotEmpty(f: Finding)
    requires IsStatus(f.status) && !Approves(f)
    ensures Disposition(f) != ""
  {
    hide DropDashes;
    var tail := " by " + OrDash(f.approver) + " on " + f.date + " — " + f.note;
    var head := DISPOSITION + " " + f.status;
    assert f.status[|f.status| - 1] == 'd';
    DropDashesKeeps(head, tail);
    assert DISPOSITION + " " + f.status + " by " + OrDash(f.approver) + " on " + f.date + " — " + f.note == head + tail;
  }

  lemma SubAt(lines: seq<string>, prefix: string, line: string, i: nat)
    requires i < |lines|
    ensures SubFirst(lines, prefix, line)[i] == if FirstAt(lines, prefix) == Some(i) then line else lines[i]
  {
    hide FirstAt;
  }

  lemma DecisionStays(b: Block, f: Finding)
    requires IsStatus(f.status)
    ensures OthersStay(b, DecisionLines(b, f), |b|, DECISION)
    ensures |DecisionLines(b, f)| == |b|
    ensures FirstAt(DecisionLines(b, f), DISPOSITION) == FirstAt(b, DISPOSITION)
  {
    hide FirstAt, SubFirst, StatusLine, ApproverLine, DateLine, IsFirst, Says, Apart;
    LinesHavePrefixes(f);
    PrefixesApart();
    DecisionLinesKeep(b, f, "");
    var s := SubFirst(b, STATUS, StatusLine(f));
    var a := SubFirst(s, APPROVER, ApproverLine(f));
    SubKeepsSays(b, APPROVER, "", STATUS, StatusLine(f));
    SubKeepsSays(b, DATE, "", STATUS, StatusLine(f));
    SubKeepsSays(s, DATE, "", APPROVER, ApproverLine(f));
    FirstIff(b, STATUS);
    FirstIff(b, APPROVER);
    FirstIff(b, DATE);
    forall i | 0 <= i < |b| && (forall p <- DECISION :: !IsFirst(b, p, i))
      ensures DecisionLines(b, f)[i] == b[i]
    {
      assert "**Status**:" in DECISION && "**Approver**:" in DECISION && "**Date approved**:" in DECISION;
      SubAt(b, STATUS, StatusLine(f), i);
      SubAt(s, APPROVER, ApproverLine(f), i);
      SubAt(a, DATE, DateLine(f), i);
    }
  }

  lemma SubEmpty(lines: seq<string>, prefix: string, line: string, i: nat)
    requires i < |lines| && prefix != "" && prefix <= line
    ensures SubFirst(lines, prefix, line)[i] == "" <==> lines[i] == ""
  {
    hide FirstAt;
    SubAt(lines, prefix, line, i);
  }

  lemma BodyLength(a: Block, b: Block)
    requires |a| == |b| && forall i :: 0 <= i < |a| ==> (a[i] == "" <==> b[i] == "")
    ensures |Body(a)| == |Body(b)|
  {
    hide Body;
    var x, y := Body(a), Body(b);
    assert x != [] ==> a[|x| - 1] != "";
    assert y != [] ==> b[|y| - 1] != "";
  }

  lemma DecisionBody(b: Block, f: Finding)
    requires IsStatus(f.status)
    ensures |Body(DecisionLines(b, f))| == |Body(b)|
  {
    hide FirstAt, SubFirst, StatusLine, ApproverLine, DateLine, Body, Disposition;
    LinesHavePrefixes(f);
    var s := SubFirst(b, STATUS, StatusLine(f));
    var a := SubFirst(s, APPROVER, ApproverLine(f));
    forall i | 0 <= i < |b|
      ensures DecisionLines(b, f)[i] == "" <==> b[i] == ""
    {
      SubEmpty(b, STATUS, StatusLine(f), i);
      SubEmpty(s, APPROVER, ApproverLine(f), i);
      SubEmpty(a, DATE, DateLine(f), i);
    }
    BodyLength(DecisionLines(b, f), b);
  }

  lemma Replaced(b: Block, d: Block, line: string)
    requires |d| == |b| && OthersStay(b, d, |b|, DECISION) && FirstAt(d, DISPOSITION) == FirstAt(b, DISPOSITION) && DISPOSITION <= line
    ensures var after := SubFirst(d, DISPOSITION, line);
            OthersStay(b, after, |b|, DECISION + {DISPOSITION}) && FirstReads(b, after, DISPOSITION, line)
  {
    hide FirstAt, SubFirst, IsFirst, Says;
    var after := SubFirst(d, DISPOSITION, line);
    SubSays(d, DISPOSITION, line);
    SaidIsFirst(b, after, DISPOSITION, line);
    FirstIff(b, DISPOSITION);
    forall i | 0 <= i < |b| && (forall p <- DECISION + {DISPOSITION} :: !IsFirst(b, p, i))
      ensures after[i] == b[i]
    {
      assert DISPOSITION in DECISION + {DISPOSITION};
      assert forall p <- DECISION :: p in DECISION + {DISPOSITION};
      SubAt(d, DISPOSITION, line, i);
    }
  }

  lemma Placed(b: Block, d: Block, line: string, last: bool)
    requires |d| == |b| && OthersStay(b, d, |b|, DECISION) && |Body(d)| == |Body(b)|
    ensures var n, after := |Body(b)|, Append(d, line, last);
            && n <= |b| && (forall l <- b[n..] :: l == "") && (n > 0 ==> b[n - 1] != "")
            && OthersStay(b, after, n, DECISION) && n < |after| && after[n] == line
            && after[n + 1..] == if last && n == |b| then [""] else b[n..]
  {
    hide Body, IsFirst;
    var n := |Body(b)|;
    var after := Append(d, line, last);
    assert d[n..] == b[n..];
    assert forall i :: 0 <= i < n ==> after[i] == d[i];
    assert after[n + 1..] == if last && d[n..] == [] then [""] else d[n..];
  }

  lemma DispositionIsPlaced(b: Block, f: Finding, last: bool)
    requires IsStatus(f.status) && Disposition(f) != ""
    ensures DispositionPlaced(b, Rewrite(b, f, last), Disposition(f), last)
  {
    hide FirstAt, SubFirst, IsFirst, Says, Disposition, Append, Body, OthersStay, FirstReads, DecisionLines, StatusLine, ApproverLine, DateLine;
    var d := DecisionLines(b, f);
    var line := Disposition(f);
    LinesHavePrefixes(f);
    DecisionStays(b, f);
    DecisionBody(b, f);
    FirstIff(b, DISPOSITION);
    Placed(b, d, line, last);
    Replaced(b, d, line);
  }

  /** A rewritten entry is the record of its finding, and nothing else in it changes. */
  lemma RewriteRecords(b: Block, f: Finding, last: bool)
    requires IsStatus(f.status)
    ensures Recorded(b, Rewrite(b, f, last), f, last)
  {
    hide Disposition, DecisionLines, Rewrite, DecisionReads, DispositionReads, DispositionPlaced, OthersStay;
    RewriteReads(b, f, last);
    DispositionIs(f);
    if Disposition(f) == "" {
      DecisionStays(b, f);
      NoDisposition(b, f, last);
    } else {
      DispositionIsPlaced(b, f, last);
    }
  }

  lemma NoDisposition(b: Block, f: Finding, last: bool)
    requires Disposition(f) == ""
    ensures Rewrite(b, f, last) == DecisionLines(b, f)
  {
    hide DecisionLines;
  }

  // ------------------------------------------------------------------
  // The exported text
  // ------------------------------------------------------------------

  /** The entry's status: what stands behind the first Status mark, or "proposed" without one. */
  ghost predicate Stands(b: Block, status: string) {
    if HasFirst(b, "**Status**:") then exists i :: IsFirst(b, "**Status**:", i) && status == Strip(b[i][11..])
    else status == "proposed"
  }

  /** What the export does to one entry. */
  ghost predicate Exported(b: Block, after: Block, f: Option<Finding>, last: bool) {
    if f.None? || Stands(b, f.value.status) || !Stands(b, "proposed") then after == b
    else Recorded(b, after, f.value, last)
  }

  lemma StandsIs(b: Block, status: string)
    ensures Stands(b, status) <==> status == MdStatus(b)
  {
    hide FirstAt, Strip;
    FirstIff(b, STATUS);
  }

  lemma BlockExported(b: Block, decided: Decided, last: bool)
    requires FindingOf(b, decided).Some? ==> IsStatus(FindingOf(b, decided).value.status)
    ensures Exported(b, NewBlock(b, decided, last), FindingOf(b, decided), last)
  {
    hide Stands, MdStatus, Recorded, Rewrite, FindingOf;
    var f := FindingOf(b, decided);
    if f.Some? {
      StandsIs(b, f.value.status);
      StandsIs(b, "proposed");
      RewriteRecords(b, f.value, last);
    }
  }

  /**
   * In the exported text, read back entry by entry: an entry whose finding is decided and that
   * still stands as proposed carries the record of the decision, and every other is as it was.
   */
  lemma ExportRecords(doc: seq<string>, decided: Decided)
    requires forall k :: decided(k).Some? ==> IsStatus(decided(k).value.status)
    ensures var before, after := Split(doc), Split(Export(doc, decided));
            && after.preamble == before.preamble && |after.blocks| == |before.blocks|
            && forall i :: 0 <= i < |before.blocks| ==>
                 Exported(before.blocks[i], after.blocks[i], FindingOf(before.blocks[i], decided), i == |before.blocks| - 1)
  {
    hide Split, NewBlock, Exported, BlockKey;
    NewBlocksSplit(doc, decided);
    var blocks := Split(doc).blocks;
    forall i | 0 <= i < |blocks|
      ensures Exported(blocks[i], NewBlocks(blocks, decided)[i], FindingOf(blocks[i], decided), i == |blocks| - 1)
    {
      BlockExported(blocks[i], decided, i == |blocks| - 1);
    }
  }

  // ------------------------------------------------------------------
  // The counts
  // ------------------------------------------------------------------

  /** The entries that were changed, and those whose status is neither the finding's nor "proposed". */
  ghost predicate IsConflict(b: Block, decided: Decided) {
    var f := FindingOf(b, decided);
    f.Some? && !Stands(b, f.value.status) && !Stands(b, "proposed")
  }

  /** The places below upto where the verdict is v. */
  ghost function PlacesOf(blocks: seq<Block>, decided: Decided, v: Verdict, upto: nat): set<int>
    requires upto <= |blocks|
  {
    set i | 0 <= i < upto && VerdictOn(blocks[i], decided, i == |blocks| - 1) == v
  }

  lemma OneMorePlace(blocks: seq<Block>, decided: Decided, v: Verdict, upto: nat)
    requires 0 < upto <= |blocks|
    ensures |PlacesOf(blocks, decided, v, upto)|
              == |PlacesOf(blocks, decided, v, upto - 1)| + (if VerdictOn(blocks[upto - 1], decided, upto == |blocks|) == v then 1 else 0)
  {
    hide VerdictOn;
    var front := PlacesOf(blocks, decided, v, upto - 1);
    assert upto - 1 !in front;
    assert PlacesOf(blocks, decided, v, upto)
        == if VerdictOn(blocks[upto - 1], decided, upto == |blocks|) == v then front + {upto - 1} else front;
  }

  lemma {:induction false} CountIs(blocks: seq<Block>, decided: Decided, v: Verdict, upto: nat)
    requires upto <= |blocks|
    ensures Count(blocks, decided, v, upto) == |PlacesOf(blocks, decided, v, upto)|
  {
    hide VerdictOn, PlacesOf;
    if upto > 0 {
      CountIs(blocks, decided, v, upto - 1);
      OneMorePlace(blocks, decided, v, upto);
    } else {
      NoPlace(blocks, decided, v);
    }
  }

  lemma NoPlace(blocks: seq<Block>, decided: Decided, v: Verdict)
    ensures PlacesOf(blocks, decided, v, 0) == {}
  {}

  /** The exporter counts the entries that differ in the written text, and the conflicts. */
  lemma CountsAreExact(doc: seq<string>, decided: Decided)
    requires forall k :: decided(k).Some? ==> IsStatus(decided(k).value.status)
    ensures var before, after := Split(doc).blocks, Split(Export(doc, decided)).blocks;
            && |after| == |before|
            && Count(before, decided, Rewritten, |before|) == |set i | 0 <= i < |before| && after[i] != before[i]|
            && Count(before, decided, Conflict, |before|) == |set i | 0 <= i < |before| && IsConflict(before[i], decided)|
  {
    hide Split, VerdictOn, FindingOf, Stands, IsConflict, Export;
    OnlyRewrittenDiffer(doc, decided);
    var before, after := Split(doc).blocks, Split(Export(doc, decided)).blocks;
    CountIs(before, decided, Rewritten, |before|);
    CountIs(before, decided, Conflict, |before|);
    assert (set i | 0 <= i < |before| && after[i] != before[i])
        == (set i | 0 <= i < |before| && VerdictOn(before[i], decided, i == |before| - 1) == Rewritten);
    forall i | 0 <= i < |before|
      ensures VerdictOn(before[i], decided, i == |before| - 1) == Conflict <==> IsConflict(before[i], decided)
    {
      ConflictIff(before[i], decided, i == |before| - 1);
    }
    assert (set i | 0 <= i < |before| && IsConflict(before[i], decided))
        == (set i | 0 <= i < |before| && VerdictOn(before[i], decided, i == |before| - 1) == Conflict);
  }

  lemma ConflictIff(b: Block, decided: Decided, last: bool)
    ensures VerdictOn(b, decided, last) == Conflict <==> IsConflict(b, decided)
  {
    hide Stands, FindingOf, Rewrite, MdStatus;
    var f := FindingOf(b, decided);
    if f.Some? {
      StandsIs(b, f.value.status);
      StandsIs(b, "proposed");
    }
  }
}
