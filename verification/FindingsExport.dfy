/** Writing the operator's decisions into the entries of the findings ledger. */
module FindingsExport {
  import opened Options
  import opened Text
  import opened ReconcileText
  import opened FindingsBlocks
  import opened FindingsFields

  /** A decided finding; `date` as it is printed. */
  datatype Finding = Finding(status: string, approver: string, date: string, note: string)

  const STATUS := "**Status**:"
  const APPROVER := "**Approver**:"
  const DATE := "**Date approved**:"
  const DISPOSITION := "**Disposition (triage):**"
  const PROPOSED := "proposed"
  const DASH := "—"

  // ------------------------------------------------------------------
  // Decision lines
  // ------------------------------------------------------------------

  predicate IsStatus(s: string) {
    s in {"approved", "applied", "rejected", "retired", "superseded"}
  }

  function OrDash(s: string): string {
    if s == "" then DASH else s
  }

  function StatusLine(f: Finding): string {
    STATUS + " " + f.status
  }

  predicate Approves(f: Finding) {
    f.status == "approved" || f.status == "applied"
  }

  function ApproverLine(f: Finding): string {
    APPROVER + " " + if Approves(f) then OrDash(f.approver) else DASH
  }

  function DateLine(f: Finding): string {
    DATE + " " + if Approves(f) then OrDash(f.date) else DASH
  }

  /** `s.rstrip(" —")`. */
  function DropDashes(s: string): (r: string)
    ensures r <= s
  {
    if s != "" && (s[|s| - 1] == ' ' || s[|s| - 1] == '—') then DropDashes(s[..|s| - 1]) else s
  }

  /** The disposition line, or nothing. */
  function Disposition(f: Finding): string {
    if f.status in {"rejected", "retired", "superseded"} then
      DropDashes(DISPOSITION + " " + f.status + " by " + OrDash(f.approver) + " on " + f.date + " — " + f.note)
    else if f.note != "" then DISPOSITION + " " + f.note
    else ""
  }

  /** The first line with a prefix. */
  function FirstAt(lines: seq<string>, prefix: string): (r: Option<nat>)
    ensures r.Some? ==> r.value < |lines| && prefix <= lines[r.value] && forall i :: 0 <= i < r.value ==> !(prefix <= lines[i])
    ensures r.None? ==> forall i :: 0 <= i < |lines| ==> !(prefix <= lines[i])
  {
    if lines == [] then None
    else
      var front := FirstAt(lines[..|lines| - 1], prefix);
      if front.Some? then front
      else if prefix <= lines[|lines| - 1] then Some(|lines| - 1)
      else None
  }

  /** `PATTERN.sub(line, text, count=1)` for a pattern that matches whole lines with the prefix. */
  function SubFirst(lines: seq<string>, prefix: string, line: string): (r: seq<string>)
    ensures |r| == |lines|
  {
    var i := FirstAt(lines, prefix);
    if i.Some? then lines[i.value := line] else lines
  }

  /**
   * The line put after the last line that is not empty. The text of the last entry ends where
   * the file does, so there a final newline is added when it has none.
   */
  function Append(lines: seq<string>, line: string, last: bool): seq<string> {
    var body := Body(lines);
    var blanks := lines[|body|..];
    body + [line] + if last && blanks == [] then [""] else blanks
  }

  function DecisionLines(b: Block, f: Finding): Block {
    SubFirst(SubFirst(SubFirst(b, STATUS, StatusLine(f)), APPROVER, ApproverLine(f)), DATE, DateLine(f))
  }

  function WithDisposition(b: Block, f: Finding, last: bool): Block {
    if Disposition(f) == "" then b
    else if FirstAt(b, DISPOSITION).Some? then SubFirst(b, DISPOSITION, Disposition(f))
    else Append(b, Disposition(f), last)
  }

  function Rewrite(b: Block, f: Finding, last: bool): Block {
    WithDisposition(DecisionLines(b, f), f, last)
  }

  // ------------------------------------------------------------------
  // Rewriting twice
  // ------------------------------------------------------------------

  /** The first line with the prefix, if any, is the given one. */
  predicate Says(lines: seq<string>, prefix: string, line: string) {
    var i := FirstAt(lines, prefix);
    i.Some? ==> lines[i.value] == line
  }

  lemma FirstIs(lines: seq<string>, prefix: string, i: nat)
    requires i < |lines| && prefix <= lines[i] && forall j :: 0 <= j < i ==> !(prefix <= lines[j])
    ensures FirstAt(lines, prefix) == Some(i)
  {}

  lemma SubSays(lines: seq<string>, prefix: string, line: string)
    requires prefix <= line
    ensures Says(SubFirst(lines, prefix, line), prefix, line)
    ensures FirstAt(SubFirst(lines, prefix, line), prefix) == FirstAt(lines, prefix)
  {
    var i := FirstAt(lines, prefix);
    if i.Some? {
      FirstIs(lines[i.value := line], prefix, i.value);
    }
  }

  /** A line with another prefix leaves what the first one with this prefix says. */
  lemma SubKeeps(lines: seq<string>, prefix: string, other: string, line: string)
    requires other <= line && !(prefix <= line)
    requires forall l <- lines :: other <= l ==> !(prefix <= l)
    ensures FirstAt(SubFirst(lines, other, line), prefix) == FirstAt(lines, prefix)
    ensures FirstAt(lines, prefix).Some? ==> SubFirst(lines, other, line)[FirstAt(lines, prefix).value] == lines[FirstAt(lines, prefix).value]
  {
    var i, k := FirstAt(lines, prefix), FirstAt(lines, other);
    if i.Some? && k.Some? {
      assert lines[k.value] in lines;
      FirstIs(lines[k.value := line], prefix, i.value);
    }
  }

  lemma AppendShape(lines: seq<string>, line: string, last: bool)
    ensures var body, more := Body(lines), Append(lines, line, last);
            && |body| < |more| && more[|body|] == line
            && (forall j :: 0 <= j < |body| ==> more[j] == lines[j])
            && (forall j :: |body| < j < |more| ==> more[j] == "")
            && (forall j :: |body| <= j < |lines| ==> lines[j] == "")
  {}

  lemma AppendKeeps(lines: seq<string>, prefix: string, line: string, last: bool)
    requires prefix != "" && !(prefix <= line)
    ensures FirstAt(Append(lines, line, last), prefix) == FirstAt(lines, prefix)
    ensures FirstAt(lines, prefix).Some? ==> Append(lines, line, last)[FirstAt(lines, prefix).value] == lines[FirstAt(lines, prefix).value]
  {
    hide Append, Body;
    AppendShape(lines, line, last);
    var i := FirstAt(lines, prefix);
    var more := Append(lines, line, last);
    assert !(prefix <= "");
    if i.Some? {
      FirstIs(more, prefix, i.value);
    } else {
      NotThere(more, prefix);
    }
  }

  lemma NotThere(lines: seq<string>, prefix: string)
    requires forall i :: 0 <= i < |lines| ==> !(prefix <= lines[i])
    ensures FirstAt(lines, prefix).None?
  {}

  lemma AppendSays(lines: seq<string>, prefix: string, line: string, last: bool)
    requires prefix <= line && FirstAt(lines, prefix).None?
    ensures FirstAt(Append(lines, line, last), prefix) == Some(|Body(lines)|)
    ensures Says(Append(lines, line, last), prefix, line)
  {
    var body := Body(lines);
    var more := Append(lines, line, last);
    assert forall j :: 0 <= j < |body| ==> more[j] == lines[j];
    FirstIs(more, prefix, |body|);
  }

  lemma SaysStays(lines: seq<string>, prefix: string, line: string)
    requires Says(lines, prefix, line)
    ensures SubFirst(lines, prefix, line) == lines
  {}

  /** The four prefixes are told apart by a character. */
  predicate Apart(a: string, b: string) {
    exists i :: 0 <= i < |a| && i < |b| && a[i] != b[i]
  }

  lemma ApartLines(a: string, b: string, line: string)
    requires Apart(a, b) && a <= line
    ensures !(b <= line)
  {}

  lemma PrefixesApart()
    ensures Apart(STATUS, APPROVER) && Apart(STATUS, DATE) && Apart(STATUS, DISPOSITION)
    ensures Apart(APPROVER, STATUS) && Apart(DATE, STATUS) && Apart(DISPOSITION, STATUS)
    ensures Apart(APPROVER, DATE) && Apart(APPROVER, DISPOSITION) && Apart(DATE, APPROVER) && Apart(DISPOSITION, APPROVER)
    ensures Apart(DATE, DISPOSITION) && Apart(DISPOSITION, DATE)
  {
    assert STATUS[2] == 'S' && APPROVER[2] == 'A' && DATE[2] == 'D' && DISPOSITION[2] == 'D' && DATE[3] == 'a' && DISPOSITION[3] == 'i';
  }

  lemma LinesHavePrefixes(f: Finding)
    requires IsStatus(f.status)
    ensures STATUS <= StatusLine(f) && APPROVER <= ApproverLine(f) && DATE <= DateLine(f)
    ensures Disposition(f) != "" ==> DISPOSITION <= Disposition(f)
  {
    if !Approves(f) {
      var tail := " by " + OrDash(f.approver) + " on " + f.date + " — " + f.note;
      var head := DISPOSITION + " " + f.status;
      assert f.status[|f.status| - 1] == 'd';
      DropDashesKeeps(head, tail);
      assert DISPOSITION + " " + f.status + " by " + OrDash(f.approver) + " on " + f.date + " — " + f.note == head + tail;
    }
  }

  lemma {:induction false} DropDashesKeeps(head: string, tail: string)
    requires head != "" && head[|head| - 1] != ' ' && head[|head| - 1] != '—'
    ensures head <= DropDashes(head + tail)
    decreases |tail|
  {
    if tail == "" {
      assert head + tail == head;
    } else {
      assert (head + tail)[..|head + tail| - 1] == head + tail[..|tail| - 1];
      DropDashesKeeps(head, tail[..|tail| - 1]);
    }
  }

  lemma SubKeepsSays(lines: seq<string>, prefix: string, said: string, other: string, line: string)
    requires Apart(other, prefix) && other <= line
    ensures Says(SubFirst(lines, other, line), prefix, said) == Says(lines, prefix, said)
    ensures FirstAt(SubFirst(lines, other, line), prefix) == FirstAt(lines, prefix)
  {
    ApartLines(other, prefix, line);
    forall l | l in lines && other <= l
      ensures !(prefix <= l)
    {
      ApartLines(other, prefix, l);
    }
    SubKeeps(lines, prefix, other, line);
  }

  predicate SaysDecision(b: Block, f: Finding) {
    Says(b, STATUS, StatusLine(f)) && Says(b, APPROVER, ApproverLine(f)) && Says(b, DATE, DateLine(f))
  }

  lemma DecisionLinesSay(b: Block, f: Finding)
    requires IsStatus(f.status)
    ensures SaysDecision(DecisionLines(b, f), f)
    ensures FirstAt(DecisionLines(b, f), DISPOSITION) == FirstAt(b, DISPOSITION)
    ensures FirstAt(DecisionLines(b, f), STATUS) == FirstAt(b, STATUS)
  {
    hide FirstAt, Says, Apart, Disposition, StatusLine, ApproverLine, DateLine, SubFirst;
    LinesHavePrefixes(f);
    PrefixesApart();
    var s := SubFirst(b, STATUS, StatusLine(f));
    var a := SubFirst(s, APPROVER, ApproverLine(f));
    SubSays(b, STATUS, StatusLine(f));
    SubSays(s, APPROVER, ApproverLine(f));
    SubSays(a, DATE, DateLine(f));
    SubKeepsSays(s, STATUS, StatusLine(f), APPROVER, ApproverLine(f));
    SubKeepsSays(a, STATUS, StatusLine(f), DATE, DateLine(f));
    SubKeepsSays(a, APPROVER, ApproverLine(f), DATE, DateLine(f));
    SubKeepsSays(b, DISPOSITION, "", STATUS, StatusLine(f));
    SubKeepsSays(s, DISPOSITION, "", APPROVER, ApproverLine(f));
    SubKeepsSays(a, DISPOSITION, "", DATE, DateLine(f));
  }

  lemma SaidIsFixed(b: Block, f: Finding)
    requires SaysDecision(b, f)
    ensures DecisionLines(b, f) == b
  {
    hide FirstAt, Says, SubFirst;
    SaysStays(b, STATUS, StatusLine(f));
    SaysStays(b, APPROVER, ApproverLine(f));
    SaysStays(b, DATE, DateLine(f));
  }

  lemma AppendKeepsSays(lines: seq<string>, prefix: string, said: string, line: string, last: bool)
    requires prefix != "" && !(prefix <= line)
    ensures Says(Append(lines, line, last), prefix, said) == Says(lines, prefix, said)
    ensures FirstAt(Append(lines, line, last), prefix) == FirstAt(lines, prefix)
  {
    AppendKeeps(lines, prefix, line, last);
  }

  lemma DispositionSays(b: Block, f: Finding, last: bool)
    requires IsStatus(f.status) && SaysDecision(b, f)
    ensures SaysDecision(WithDisposition(b, f, last), f)
    ensures FirstAt(WithDisposition(b, f, last), STATUS) == FirstAt(b, STATUS)
    ensures Disposition(f) != "" ==>
              FirstAt(WithDisposition(b, f, last), DISPOSITION).Some? && Says(WithDisposition(b, f, last), DISPOSITION, Disposition(f))
  {
    hide FirstAt, Says, Apart, Disposition, StatusLine, ApproverLine, DateLine, SubFirst, Append;
    LinesHavePrefixes(f);
    PrefixesApart();
    var d := Disposition(f);
    if d != "" {
      ApartLines(DISPOSITION, STATUS, d);
      ApartLines(DISPOSITION, APPROVER, d);
      ApartLines(DISPOSITION, DATE, d);
      if FirstAt(b, DISPOSITION).Some? {
        SubSays(b, DISPOSITION, d);
        SubKeepsSays(b, STATUS, StatusLine(f), DISPOSITION, d);
        SubKeepsSays(b, APPROVER, ApproverLine(f), DISPOSITION, d);
        SubKeepsSays(b, DATE, DateLine(f), DISPOSITION, d);
      } else {
        AppendSays(b, DISPOSITION, d, last);
        AppendKeepsSays(b, STATUS, StatusLine(f), d, last);
        AppendKeepsSays(b, APPROVER, ApproverLine(f), d, last);
        AppendKeepsSays(b, DATE, DateLine(f), d, last);
      }
    }
  }

  /** Rewriting a rewritten entry changes nothing. */
  lemma RewriteTwice(b: Block, f: Finding, last: bool)
    requires IsStatus(f.status)
    ensures Rewrite(Rewrite(b, f, last), f, last) == Rewrite(b, f, last)
    ensures FirstAt(Rewrite(b, f, last), STATUS) == FirstAt(b, STATUS)
    ensures Says(Rewrite(b, f, last), STATUS, StatusLine(f))
  {
    hide FirstAt, Says, Disposition, SubFirst, Append, DecisionLines, StatusLine;
    var d := DecisionLines(b, f);
    var r := Rewrite(b, f, last);
    DecisionLinesSay(b, f);
    DispositionSays(d, f, last);
    SaidIsFixed(r, f);
    if Disposition(f) != "" {
      SaysStays(r, DISPOSITION, Disposition(f));
    }
  }

  // ------------------------------------------------------------------
  // The export
  // ------------------------------------------------------------------

  /** The decided finding of each natural key. */
  type Decided = Key -> Option<Finding>

  function FindingOf(b: Block, decided: Decided): Option<Finding> {
    var key := BlockKey(b);
    if key.Some? then decided(key.value) else None
  }

  function MdStatus(b: Block): string {
    var i := FirstAt(b, STATUS);
    if i.Some? then Strip(b[i.value][|STATUS|..]) else PROPOSED
  }

  datatype Verdict = Undecided | Current | Conflict | Same | Rewritten

  function VerdictOn(b: Block, decided: Decided, last: bool): Verdict {
    var f := FindingOf(b, decided);
    if f.None? then Undecided
    else if MdStatus(b) == f.value.status then Current
    else if MdStatus(b) != PROPOSED then Conflict
    else if Rewrite(b, f.value, last) == b then Same
    else Rewritten
  }

  function NewBlock(b: Block, decided: Decided, last: bool): Block {
    if VerdictOn(b, decided, last) == Rewritten then Rewrite(b, FindingOf(b, decided).value, last) else b
  }

  function NewBlocks(blocks: seq<Block>, decided: Decided): seq<Block> {
    seq(|blocks|, i requires 0 <= i < |blocks| => NewBlock(blocks[i], decided, i == |blocks| - 1))
  }

  function Export(doc: seq<string>, decided: Decided): seq<string> {
    Split(doc).preamble + Flat(NewBlocks(Split(doc).blocks, decided))
  }

  function Count(blocks: seq<Block>, decided: Decided, v: Verdict, upto: nat): nat
    requires upto <= |blocks|
  {
    if upto == 0 then 0
    else Count(blocks, decided, v, upto - 1) + (if VerdictOn(blocks[upto - 1], decided, upto == |blocks|) == v then 1 else 0)
  }

  /** The block loop. The file is written only when some entry was rewritten. */
  method ExportFindings(doc: seq<string>, decided: Decided) returns (after: seq<string>, changed: nat, conflicts: nat)
    ensures after == Export(doc, decided)
    ensures var blocks := Split(doc).blocks;
            changed == Count(blocks, decided, Rewritten, |blocks|) && conflicts == Count(blocks, decided, Conflict, |blocks|)
    ensures changed == 0 ==> after == doc
  {
    hide Rewrite, BlockKey, MdStatus, Split;
    SplitJoins(doc);
    var preamble, blocks := SplitEntries(doc);
    var out: seq<Block> := [];
    changed, conflicts := 0, 0;
    for i := 0 to |blocks|
      invariant |out| == i && forall k :: 0 <= k < i ==> out[k] == NewBlock(blocks[k], decided, k == |blocks| - 1)
      invariant changed == Count(blocks, decided, Rewritten, i) && conflicts == Count(blocks, decided, Conflict, i)
      invariant changed == 0 ==> out == blocks[..i]
    {
      var b := blocks[i];
      var next := b;
      var f := FindingOf(b, decided);
      if f.Some? && MdStatus(b) != f.value.status {
        if MdStatus(b) != PROPOSED {
          conflicts := conflicts + 1;
        } else {
          next := Rewrite(b, f.value, i == |blocks| - 1);
          if next != b {
            changed := changed + 1;
          }
        }
      }
      out := out + [next];
    }
    assert out == NewBlocks(blocks, decided);
    assert blocks[..|blocks|] == blocks;
    if changed == 0 {
      return doc, 0, conflicts;
    }
    after := preamble + Flat(out);
  }

  // ------------------------------------------------------------------
  // Exporting twice
  // ------------------------------------------------------------------

  lemma DecisionLinesAreNotHeadings(f: Finding)
    requires IsStatus(f.status)
    ensures !IsHeading(StatusLine(f)) && !IsHeading(ApproverLine(f)) && !IsHeading(DateLine(f)) && !IsHeading(Disposition(f))
  {
    LinesHavePrefixes(f);
    assert STATUS[0] == '*' && APPROVER[0] == '*' && DATE[0] == '*' && DISPOSITION[0] == '*';
  }

  lemma SubKeepsBlock(b: Block, prefix: string, line: string)
    requires IsBlock(b) && prefix != "" && prefix[0] == '*' && !IsHeading(line)
    ensures IsBlock(SubFirst(b, prefix, line)) && SubFirst(b, prefix, line)[0] == b[0]
  {
    assert b[0][0] == '#';
  }

  lemma AppendKeepsBlock(b: Block, line: string, last: bool)
    requires IsBlock(b) && !IsHeading(line)
    ensures IsBlock(Append(b, line, last)) && Append(b, line, last)[0] == b[0]
  {
    AppendShape(b, line, last);
    assert b[0] != "";
    assert |Body(b)| > 0;
    assert !IsHeading("");
  }

  lemma RewriteKeepsBlock(b: Block, f: Finding, last: bool)
    requires IsBlock(b) && IsStatus(f.status)
    ensures IsBlock(Rewrite(b, f, last)) && Rewrite(b, f, last)[0] == b[0]
  {
    hide SubFirst, Append, Disposition, IsBlock, IsHeading, FirstAt;
    DecisionLinesAreNotHeadings(f);
    SubKeepsBlock(b, STATUS, StatusLine(f));
    var s := SubFirst(b, STATUS, StatusLine(f));
    SubKeepsBlock(s, APPROVER, ApproverLine(f));
    var a := SubFirst(s, APPROVER, ApproverLine(f));
    SubKeepsBlock(a, DATE, DateLine(f));
    var d := DecisionLines(b, f);
    SubKeepsBlock(d, DISPOSITION, Disposition(f));
    AppendKeepsBlock(d, Disposition(f), last);
  }

  lemma StatusReadsBack(b: Block, f: Finding)
    requires IsStatus(f.status) && Says(b, STATUS, StatusLine(f)) && FirstAt(b, STATUS).Some?
    ensures MdStatus(b) == f.status
  {
    var i := FirstAt(b, STATUS).value;
    assert b[i][|STATUS|..] == " " + f.status;
    assert LStrip(" " + f.status) == LStrip(f.status) == f.status;
    assert !IsSpace(f.status[|f.status| - 1]);
  }

  lemma NewBlocksSplit(doc: seq<string>, decided: Decided)
    requires forall k :: decided(k).Some? ==> IsStatus(decided(k).value.status)
    ensures Split(Export(doc, decided)) == Parts(Split(doc).preamble, NewBlocks(Split(doc).blocks, decided))
  {
    hide Split, IsBlock, Rewrite, BlockKey, MdStatus;
    SplitJoins(doc);
    var p := Split(doc);
    forall b | b in NewBlocks(p.blocks, decided)
      ensures IsBlock(b)
    {
      var i :| 0 <= i < |p.blocks| && b == NewBlock(p.blocks[i], decided, i == |p.blocks| - 1);
      assert p.blocks[i] in p.blocks;
      if VerdictOn(p.blocks[i], decided, i == |p.blocks| - 1) == Rewritten {
        RewriteKeepsBlock(p.blocks[i], FindingOf(p.blocks[i], decided).value, i == |p.blocks| - 1);
      }
    }
    SplitIsUnique(p.preamble, NewBlocks(p.blocks, decided));
  }

  /** An entry keeps its heading, and differs exactly when it was rewritten. */
  predicate DiffersOnlyRewritten(b: Block, now: Block, v: Verdict) {
    IsBlock(b) && IsBlock(now) && now[0] == b[0] && (now != b <==> v == Rewritten)
  }

  lemma NewBlockDiffers(b: Block, decided: Decided, last: bool)
    requires IsBlock(b) && forall k :: decided(k).Some? ==> IsStatus(decided(k).value.status)
    ensures DiffersOnlyRewritten(b, NewBlock(b, decided, last), VerdictOn(b, decided, last))
  {
    hide IsBlock, Rewrite, BlockKey, MdStatus;
    if VerdictOn(b, decided, last) == Rewritten {
      RewriteKeepsBlock(b, FindingOf(b, decided).value, last);
    }
  }

  /**
   * Only rewritten entries differ: the preamble, and every entry that is undecided, current or
   * in conflict, is the same in the text that is written, at the same place.
   */
  lemma OnlyRewrittenDiffer(doc: seq<string>, decided: Decided)
    requires forall k :: decided(k).Some? ==> IsStatus(decided(k).value.status)
    ensures var before, after := Split(doc), Split(Export(doc, decided));
            && after.preamble == before.preamble && |after.blocks| == |before.blocks|
            && forall i :: 0 <= i < |before.blocks| ==>
                 DiffersOnlyRewritten(before.blocks[i], after.blocks[i], VerdictOn(before.blocks[i], decided, i == |before.blocks| - 1))
  {
    hide Split, NewBlock, VerdictOn, DiffersOnlyRewritten;
    NewBlocksSplit(doc, decided);
    SplitJoins(doc);
    var blocks := Split(doc).blocks;
    forall i | 0 <= i < |blocks|
      ensures DiffersOnlyRewritten(blocks[i], NewBlocks(blocks, decided)[i], VerdictOn(blocks[i], decided, i == |blocks| - 1))
    {
      assert blocks[i] in blocks;
      NewBlockDiffers(blocks[i], decided, i == |blocks| - 1);
    }
  }
}
