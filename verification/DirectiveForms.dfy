/** The exact forms of the lines the exporter reads in DIRECTIVES.md. */
module DirectiveForms {
  import opened Options
  import opened Text
  import opened TextWords
  import opened DirectiveLines
  import opened DirectiveCells
  import opened DirectiveEntries

  function Hashes(n: nat): string {
    if n == 0 then "" else "#" + Hashes(n - 1)
  }

  /** An entry ends at a heading of level one, two or three. */
  lemma SectionIff(line: string)
    ensures IsSection(line) <==> exists n :: 1 <= n <= 3 && Hashes(n) + " " <= line
  {
    assert Hashes(1) + " " == "# " && Hashes(2) + " " == "## " && Hashes(3) + " " == "### ";
    assert IsSection(line) ==> Hashes(1) + " " <= line || Hashes(2) + " " <= line || Hashes(3) + " " <= line;
  }

  /** A directive's heading is its id and a title around a dash. */
  lemma DirIdIff(line: string, did: string)
    ensures DirId(line) == Some(did) <==> ValidId(did) && "### " + did + " — " <= line
  {
    hide ValidId;
    if DirId(line) == Some(did) {
      var title := HeadingParts(line, did);
    }
    if ValidId(did) && "### " + did + " — " <= line {
      var front := "### " + did + " — ";
      assert line == front + line[|front|..];
      HeadingId(did, line[|front|..]);
    }
  }

  lemma {:induction false} DigitsToTheEnd(s: string)
    requires forall i :: 0 <= i < |s| ==> IsDigit(s[i])
    ensures DigitsLen(s) == |s|
  {
    if s != "" {
      DigitsToTheEnd(s[1..]);
    }
  }

  /** An id is "DIR-" and decimal digits. */
  lemma ValidIdIff(did: string)
    ensures ValidId(did) <==> |did| > 4 && did[..4] == "DIR-" && forall i :: 4 <= i < |did| ==> IsDigit(did[i])
  {
    if |did| > 4 && did[..4] == "DIR-" && forall i :: 4 <= i < |did| ==> IsDigit(did[i]) {
      DigitsToTheEnd(did[4..]);
    }
    if ValidId(did) {
      assert forall i :: 4 <= i < |did| ==> did[i] == did[4..][i - 4] && IsDigit(did[4..][i - 4]);
    }
  }

  /** A row belongs to the id that stands alone in its first cell. */
  ghost predicate InFirstCell(row: string, did: string) {
    exists a, b, rest :: AllSpace(a) && AllSpace(b) && row == "|" + a + did + b + "|" + rest
  }

  lemma RowIdIff(row: string, did: string)
    ensures RowId(row) == Some(did) <==> ValidId(did) && InFirstCell(row, did)
  {
    hide ValidId, LStrip;
    if RowId(row) == Some(did) {
      RowIdParts(row, did);
    }
    if ValidId(did) && InFirstCell(row, did) {
      var a, b, rest :| AllSpace(a) && AllSpace(b) && row == "|" + a + did + b + "|" + rest;
      RowIdIs(a, did, b, rest);
    }
  }

  lemma RowIdParts(row: string, did: string)
    requires RowId(row) == Some(did)
    ensures ValidId(did) && InFirstCell(row, did)
  {
    hide ValidId, LStrip, IdLen;
    var line := row[1..];
    var r := LStrip(line);
    var n := IdLen(r);
    var rest := LStrip(r[n..]);
    IdLenOfPrefix(r);
    var a := FirstGapOf(line);
    var b := FirstGapOf(r[n..]);
    Pieces(row, a, r, n, b, rest);
  }

  lemma FirstGapOf(s: string) returns (gap: string)
    ensures AllSpace(gap) && s == gap + LStrip(s)
  {
    LStripCut(s);
    gap := s[..|s| - |LStrip(s)|];
  }

  lemma Pieces(row: string, a: string, r: string, n: nat, b: string, rest: string)
    requires row != "" && row[0] == '|' && row[1..] == a + r && n <= |r| && r[n..] == b + rest && rest != "" && rest[0] == '|'
    requires AllSpace(a) && AllSpace(b)
    ensures InFirstCell(row, r[..n])
  {
    var tail := rest[1..];
    assert rest == "|" + tail;
    assert r == r[..n] + (b + ("|" + tail));
    assert row == "|" + (a + r);
    assert row == "|" + a + r[..n] + b + "|" + tail;
  }

  lemma RowIdIs(a: string, did: string, b: string, rest: string)
    requires AllSpace(a) && AllSpace(b) && ValidId(did)
    ensures RowId("|" + a + did + b + "|" + rest) == Some(did)
  {
    hide LStrip, ValidId;
    var row := "|" + a + did + b + "|" + rest;
    var tail := b + ("|" + rest);
    assert row[1..] == a + (did + tail);
    IdStarts(did);
    LStripGap(a, did + tail);
    assert tail[0] == (if b == "" then '|' else b[0]) && (b != "" ==> b[0] in b);
    assert !IsDigit(tail[0]);
    IdLenAppend(did, tail);
    assert (did + tail)[|did|..] == tail;
    LStripGap(b, "|" + rest);
  }

  lemma IdStarts(did: string)
    requires ValidId(did)
    ensures |did| > 4 && did[0] == 'D'
  {}

  // ------------------------------------------------------------------
  // Bullets
  // ------------------------------------------------------------------

  /** A Status bullet has one word between blanks; everything else on the line is kept apart. */
  lemma StatusIff(line: string, pre: string, value: string, post: string)
    ensures StatusOf(line) == Some(StatusLine(pre, value, post)) <==>
              && "- **Status:**" <= pre && AllBlank(pre[13..]) && AllBlank(post)
              && value != "" && (forall c <- value :: !IsSpace(c)) && line == pre + value + post
  {
    hide WordLen, DropBlanks;
    assert "- **Status:**" == STATUS;
    if StatusOf(line) == Some(StatusLine(pre, value, post)) {
      StatusParts(line);
      StatusWord(line);
    }
    if STATUS <= pre && AllBlank(pre[13..]) && AllBlank(post) && value != "" && (forall c <- value :: !IsSpace(c)) && line == pre + value + post {
      assert pre == STATUS + pre[13..];
      StatusReadsBack(pre[13..], value, post);
    }
  }

  lemma StatusWord(line: string)
    requires StatusOf(line).Some?
    ensures StatusOf(line).value.value != "" && forall c <- StatusOf(line).value.value :: !IsSpace(c)
  {
    hide DropBlanks;
  }

  /** An Added bullet, up to the blanks around its text. */
  lemma AddedIff(line: string, added: string)
    ensures AddedOf(line) == Some(added) <==>
              && (added != "" ==> !IsBlank(added[0]) && !IsBlank(added[|added| - 1]))
              && exists a, b :: AllBlank(a) && AllBlank(b) && line == "- **Added:**" + a + added + b
  {
    hide DropBlanks, RTrimBlanks;
    assert "- **Added:**" == ADDED;
    if AddedOf(line) == Some(added) {
      AddedParts(line);
    }
    if added != "" ==> !IsBlank(added[0]) && !IsBlank(added[|added| - 1]) {
      if a, b :| AllBlank(a) && AllBlank(b) && line == ADDED + a + added + b {
        AddedIs(a, added, b);
      }
    }
  }

  lemma AddedParts(line: string)
    requires AddedOf(line).Some?
    ensures var added := AddedOf(line).value;
            && (added != "" ==> !IsBlank(added[0]) && !IsBlank(added[|added| - 1]))
            && exists a, b :: AllBlank(a) && AllBlank(b) && line == ADDED + a + added + b
  {
    hide DropBlanks, RTrimBlanks;
    var text := line[|ADDED|..];
    DropBlanksShape(text);
    var d := DropBlanks(text);
    var added := RTrimBlanks(d);
    var a, b := text[..|text| - |d|], d[|added|..];
    assert text == a + d && d == added + b;
    assert line == ADDED + a + added + b;
  }

  lemma AddedIs(a: string, added: string, b: string)
    requires AllBlank(a) && AllBlank(b) && (added != "" ==> !IsBlank(added[0]) && !IsBlank(added[|added| - 1]))
    ensures AddedOf(ADDED + a + added + b) == Some(added)
  {
    hide DropBlanks, RTrimBlanks;
    var line := ADDED + a + added + b;
    if added == "" {
      var blanks := a + b;
      assert line[|ADDED|..] == blanks + "";
      DropBlanksUnique(blanks, "");
      RTrimUnique("", "");
    } else {
      assert line[|ADDED|..] == a + (added + b);
      DropBlanksUnique(a, added + b);
      RTrimUnique(added, b);
    }
  }

  // ------------------------------------------------------------------
  // Who owns an entry
  // ------------------------------------------------------------------

  /** Blanks, a middle dot and a blank; or nothing but blanks. */
  ghost predicate EndsField(r: string) {
    AllBlank(r) || exists b, c, rest :: b != "" && AllBlank(b) && IsBlank(c) && r == b + "·" + [c] + rest
  }

  lemma BlanksInFront(r: string)
    requires r != "" && IsBlank(r[0])
    ensures |DropBlanks(r)| < |r|
  {
    DropBlanksShape(r[1..]);
  }

  lemma EndsIff(r: string)
    ensures EndsField(r) <==> AllBlank(r) || SepAt(r)
  {
    hide DropBlanks;
    DropBlanksShape(r);
    var d := DropBlanks(r);
    if SepAt(r) {
      var b := r[..|r| - |d|];
      assert d == "·" + [d[1]] + d[2..];
      assert r == b + "·" + [d[1]] + d[2..];
      BlanksInFront(r);
    }
    if b, c, rest :| b != "" && AllBlank(b) && IsBlank(c) && r == b + "·" + [c] + rest {
      assert r == b + ("·" + [c] + rest);
      DropBlanksUnique(b, "·" + [c] + rest);
    }
  }

  lemma {:induction false} TokenStops(r: string)
    ensures Token(r) <= r && EndsField(r[|Token(r)|..])
    ensures forall i :: 0 <= i < |Token(r)| ==> !EndsField(r[i..])
  {
    hide SepAt, EndsField;
    EndsIff(r);
    var t := Token(r);
    if AllBlank(r) || SepAt(r) {
      assert r[0..] == r;
    } else {
      TokenStops(r[1..]);
      assert r[|t|..] == r[1..][|t| - 1..];
      forall i | 0 <= i < |t|
        ensures !EndsField(r[i..])
      {
        if i == 0 {
          assert r[0..] == r;
        } else {
          assert r[i..] == r[1..][i - 1..];
        }
      }
    }
  }

  /** The text up to x, the first Source mark, blanks, a field, and what ends it. */
  ghost predicate FieldAt(added: string, x: string, b: string, t: string, rest: string) {
    && added == x + "**Source:**" + b + t + rest
    && (forall i :: 0 <= i < |x| ==> !OccursAt(added, "**Source:**", i))
    && AllBlank(b) && (t + rest != "" ==> !IsBlank((t + rest)[0]))
    && EndsField(rest) && (forall i :: 0 <= i < |t| ==> !EndsField((t + rest)[i..]))
  }

  /** What the first Source field of an Added text names. */
  ghost predicate Names(added: string, source: string) {
    exists x, b, t, rest :: FieldAt(added, x, b, t, rest) && source == Strip(t)
  }

  lemma FieldIs(added: string, x: string, b: string, t: string, rest: string)
    requires FieldAt(added, x, b, t, rest)
    ensures Find(added, SOURCE, 0) == |x| && Token(DropBlanks(added[|x| + |SOURCE|..])) == t
  {
    hide Token, DropBlanks, Find, EndsField;
    var r := t + rest;
    assert added == x + SOURCE + (b + r);
    assert added[|x|..|x| + |SOURCE|] == SOURCE;
    FindFirst(added, SOURCE, 0, |x|);
    assert added[|x| + |SOURCE|..] == b + r;
    DropBlanksUnique(b, r);
    TokenStops(r);
    var n := |Token(r)|;
    assert r[|t|..] == rest;
    assert n == |t|;
    assert r[..n] == t;
  }

  lemma FieldFound(added: string) returns (x: string, b: string, t: string, rest: string)
    requires Find(added, SOURCE, 0) >= 0
    ensures FieldAt(added, x, b, t, rest)
    ensures t == Token(DropBlanks(added[Find(added, SOURCE, 0) + |SOURCE|..]))
  {
    hide Token, DropBlanks, Find, EndsField;
    var at := Find(added, SOURCE, 0);
    var text := added[at + |SOURCE|..];
    DropBlanksShape(text);
    var d := DropBlanks(text);
    TokenStops(d);
    t := Token(d);
    x, b, rest := added[..at], text[..|text| - |d|], d[|t|..];
    FieldPieces(added, x, text, b, d, t, rest);
  }

  lemma FieldPieces(added: string, x: string, text: string, b: string, d: string, t: string, rest: string)
    requires OccursAt(added, SOURCE, |x|) && added[..|x|] == x && added[|x| + |SOURCE|..] == text
    requires forall i :: 0 <= i < |x| ==> !OccursAt(added, SOURCE, i)
    requires text == b + d && d == t + rest && AllBlank(b) && (d != "" ==> !IsBlank(d[0]))
    requires EndsField(rest) && forall i :: 0 <= i < |t| ==> !EndsField(d[i..])
    ensures FieldAt(added, x, b, t, rest)
  {
    hide EndsField, OccursAt, IsBlank;
    Whole(added, x, text);
    assert x + SOURCE + (b + (t + rest)) == x + SOURCE + b + t + rest;
  }

  lemma Whole(added: string, x: string, text: string)
    requires OccursAt(added, SOURCE, |x|) && added[..|x|] == x && added[|x| + |SOURCE|..] == text
    ensures added == x + SOURCE + text
  {
    assert added == added[..|x|] + added[|x|..|x| + |SOURCE|] + added[|x| + |SOURCE|..];
  }

  /** The service owns an entry exactly when the first Source field of its first Added bullet names it. */
  lemma OwnedIff(added: string)
    ensures OwnedAdded(added) <==> Names(added, "bishop-memory triage")
  {
    hide Token, DropBlanks, Find, FieldAt, Strip;
    assert "bishop-memory triage" == SERVICE_SOURCE;
    if OwnedAdded(added) {
      var x, b, t, rest := FieldFound(added);
    }
    if Names(added, SERVICE_SOURCE) {
      var x, b, t, rest :| FieldAt(added, x, b, t, rest) && SERVICE_SOURCE == Strip(t);
      FieldIs(added, x, b, t, rest);
    }
  }

  // ------------------------------------------------------------------
  // The tables
  // ------------------------------------------------------------------

  /** A bar, at least one of the allowed characters, a bar. */
  ghost predicate Ruled(line: string, allowed: string) {
    exists mid: string :: mid != "" && (forall c <- mid :: c in allowed) && line == "|" + mid + "|"
  }

  lemma RuleIff(line: string, allowed: string)
    requires '|' in allowed
    ensures IsRule(line, allowed) <==> Ruled(line, allowed)
  {
    if IsRule(line, allowed) {
      var mid := line[1..|line| - 1];
      assert line == "|" + mid + "|";
      assert forall c <- mid :: c in line;
    }
  }

  /** The two tables are known by the titles of their columns. */
  lemma HeadersAre(titles: string, rule: string)
    ensures IsIndexHeader(titles, rule) <==>
              titles == "| ID |" + " Title | Applies when (short) | Status |" && Ruled(rule, "-| ")
    ensures IsRetiredHeader(titles, rule) <==>
              && RTrimBlanks(titles) == "| ID |" + " Title (as ratified) | Status | Successor |"
              && Ruled(RTrimBlanks(rule), "-| :")
  {
    hide RTrimBlanks, IsRule, Ruled;
    IndexTitles();
    RetiredTitles();
    RuleIff(rule, "-| ");
    RuleIff(RTrimBlanks(rule), "-| :");
  }

  lemma IndexTitles()
    ensures INDEX_TITLES == "| ID |" + " Title | Applies when (short) | Status |"
  {}

  lemma RetiredTitles()
    ensures RETIRED_TITLES == "| ID |" + " Title (as ratified) | Status | Successor |"
  {}

  lemma RetiredHeadingIs(line: string)
    ensures IsRetired(line) <==> "## Retired Entries" <= line
  {}
}
