/** What the exporter's edits of one entry keep: its id, its owner, its status, its shape. */
module DirectiveEntries {
  import opened Options
  import opened Text
  import opened DirectiveLines

  /** A heading for `did`, then only lines that do not end the entry. */
  predicate IsEntry(did: string, body: seq<string>) {
    && body != []
    && DirId(body[0]) == Some(did)
    && forall i :: 1 <= i < |body| ==> !IsSection(body[i])
  }

  /** Every line after the heading is a template bullet or blank. */
  predicate IsTemplate(body: seq<string>) {
    forall i :: 1 <= i < |body| ==> IsBullet(body[i]) || IsBlankLine(body[i])
  }

  /** An Added body the re-read of which gives the same text up to trailing white space. */
  predicate CleanStart(added: string) {
    added != "" && !IsBlank(added[0])
  }

  // ------------------------------------------------------------------
  // First matches
  // ------------------------------------------------------------------

  lemma {:induction false} FirstAddedIs(body: seq<string>, i: nat)
    requires i < |body| && AddedOf(body[i]).Some?
    requires forall j :: 0 <= j < i ==> AddedOf(body[j]).None?
    ensures FirstAdded(body) == AddedOf(body[i])
  {
    hide AddedOf;
    if i > 0 {
      FirstAddedIs(body[1..], i - 1);
    }
  }

  lemma {:induction false} FirstStatusIs(body: seq<string>, i: nat)
    requires i < |body| && StatusOf(body[i]).Some?
    requires forall j :: 0 <= j < i ==> StatusOf(body[j]).None?
    ensures FirstStatus(body) == Some(StatusOf(body[i]).value.value)
  {
    hide StatusOf;
    if i > 0 {
      FirstStatusIs(body[1..], i - 1);
    }
  }

  // ------------------------------------------------------------------
  // Ownership survives trailing white space
  // ------------------------------------------------------------------

  lemma {:induction false} TokenOfDot(b: string)
    requires AllBlank(b)
    ensures Token(b + "·") == b + "·"
    decreases |b|
  {
    var r := b + "·";
    DropBlanksUnique(b, "·");
    assert r[|b|] == '·';
    assert !AllBlank(r) by {
      assert '·' in r && !IsBlank('·');
    }
    assert !SepAt(r);
    if b == "" {
      assert r[1..] == "";
    } else {
      assert r[1..] == b[1..] + "·";
      TokenOfDot(b[1..]);
    }
  }

  lemma NotAllBlankAppend(r: string, ws: string)
    requires !AllBlank(r)
    ensures !AllBlank(r + ws)
  {
    var i :| 0 <= i < |r| && !IsBlank(r[i]);
    assert (r + ws)[i] == r[i];
  }

  /** Appended white space makes no new separator in a text whose token has no dot. */
  lemma SepAppend(r: string, ws: string)
    requires !AllBlank(r) && '·' !in Token(r)
    ensures SepAt(r + ws) == SepAt(r)
  {
    hide Token;
    var d := DropBlanks(r);
    DropBlanksAppend(r, ws);
    DropBlanksShape(r);
    assert r != "" && (r + ws)[0] == r[0];
    if d == "·" {
      var b := r[..|r| - 1];
      assert r == b + "·";
      TokenOfDot(b);
      assert false;
    }
    if |d| > 1 {
      assert (d + ws)[0] == d[0] && (d + ws)[1] == d[1];
    } else {
      assert (d + ws)[0] == d[0];
    }
  }

  /** White space appended to the text only lengthens its token by white space. */
  lemma {:induction false} TokenAppend(r: string, ws: string)
    requires AllSpace(ws) && '·' !in Token(r)
    ensures Token(r) <= Token(r + ws)
    ensures AllSpace(Token(r + ws)[|Token(r)|..])
    decreases |r|
  {
    hide SepAt;
    var x := r + ws;
    if AllBlank(r) {
      assert AllSpace(x);
      assert forall c <- Token(x) :: c in x;
    } else {
      NotAllBlankAppend(r, ws);
      SepAppend(r, ws);
      if !SepAt(r) {
        assert x[1..] == r[1..] + ws;
        assert Token(r) == [r[0]] + Token(r[1..]);
        TokenAppend(r[1..], ws);
        assert Token(x) == [x[0]] + Token(x[1..]);
        assert Token(x)[|Token(r)|..] == Token(x[1..])[|Token(r[1..])|..];
      }
    }
  }

  lemma StrippedTokenHasNoDot(t: string)
    requires Strip(t) == SERVICE_SOURCE
    ensures '·' !in t
  {
    if '·' in t {
      StripKeeps(t, '·');
      assert false;
    }
  }

  lemma FindAppend(s: string, p: string, ws: string)
    requires Find(s, p, 0) >= 0
    ensures Find(s + ws, p, 0) == Find(s, p, 0)
  {
    var at := Find(s, p, 0);
    var x := s + ws;
    forall i | 0 <= i < at
      ensures !OccursAt(x, p, i)
    {
      assert x[i..i + |p|] == s[i..i + |p|];
      assert !OccursAt(s, p, i);
    }
    assert x[at..at + |p|] == s[at..at + |p|];
    FindFirst(x, p, 0, at);
  }

  lemma OwnedTokenAppend(rest: string, ws: string)
    requires Strip(Token(DropBlanks(rest))) == SERVICE_SOURCE && AllSpace(ws)
    ensures Strip(Token(DropBlanks(rest + ws))) == SERVICE_SOURCE
  {
    hide SepAt, DropBlanks, Token, Strip;
    AllBlankStrips(rest);
    var d := DropBlanks(rest);
    var t := Token(d);
    NothingHasNoToken();
    DropBlanksAppend(rest, ws);
    StrippedTokenHasNoDot(t);
    TokenAppend(d, ws);
    var t' := Token(d + ws);
    assert t' == t + t'[|t|..];
    LStripAppend(t, t'[|t|..]);
  }

  /** White space at the end of the Added bullet does not change who owns the entry. */
  lemma OwnedAppend(added: string, ws: string)
    requires OwnedAdded(added) && AllSpace(ws)
    ensures OwnedAdded(added + ws)
  {
    hide Token, Strip, DropBlanks, Find;
    FindAppend(added, SOURCE, ws);
    var at := Find(added, SOURCE, 0);
    var rest := added[at + |SOURCE|..];
    assert (added + ws)[at + |SOURCE|..] == rest + ws;
    OwnedTokenAppend(rest, ws);
  }

  /** A token ends at the first separator. */
  lemma {:induction false} TokenBeforeSep(t: string, y: string)
    requires '·' !in t
    requires t != "" ==> !IsBlank(t[|t| - 1])
    ensures Token(t + " · " + y) == t
  {
    hide SepAt;
    var r := t + " · " + y;
    if t == "" {
      assert r == " · " + y;
      SepStart(y);
    } else {
      assert r[1..] == t[1..] + " · " + y;
      TokenBeforeSep(t[1..], y);
      assert r == t + (" · " + y);
      NoSepYet(t, " · " + y);
      assert r[0] == t[0];
    }
  }

  lemma SepStart(y: string)
    ensures SepAt(" · " + y)
  {
    assert " · " + y == " " + ("· " + y);
    DropBlanksUnique(" ", "· " + y);
  }

  lemma NoSepYet(t: string, z: string)
    requires t != "" && '·' !in t && !IsBlank(t[|t| - 1])
    ensures !AllBlank(t + z) && !SepAt(t + z)
  {
    assert t[|t| - 1] in t;
    NotAllBlankAppend(t, z);
    DropBlanksAppend(t, z);
    DropBlanksShape(t);
    var d := DropBlanks(t);
    assert d[0] == t[|t| - |d|];
    assert (d + z)[0] == d[0];
  }

  lemma NoMatch(s: string, p: string, i: nat, k: nat)
    requires k < |p| && i + k < |s| && s[i + k] != p[k]
    ensures !OccursAt(s, p, i)
  {
    if i + |p| <= |s| {
      assert s[i..i + |p|][k] == s[i + k];
    }
  }

  lemma SourceFollowsDate(date: string, z: string)
    requires |date| <= 10
    ensures Find(date + " · " + SOURCE + z, SOURCE, 0) == |date| + 3
  {
    var added := date + " · " + SOURCE + z;
    var at := |date| + 3;
    assert added[at..at + |SOURCE|] == SOURCE;
    forall i | 0 <= i < at
      ensures !OccursAt(added, SOURCE, i)
    {
      NoMatch(added, SOURCE, i, if i <= |date| then |date| - i else 0);
    }
    FindFirst(added, SOURCE, 0, at);
  }

  lemma NothingHasNoToken()
    ensures Strip(Token("")) != SERVICE_SOURCE
  {}

  lemma ServiceToken(y: string)
    ensures Strip(Token(DropBlanks(" " + SERVICE_SOURCE + " · " + y))) == SERVICE_SOURCE
  {
    hide Token, DropBlanks, RStrip;
    var rest := SERVICE_SOURCE + " · " + y;
    assert " " + SERVICE_SOURCE + " · " + y == " " + rest;
    DropBlanksUnique(" ", rest);
    TokenBeforeSep(SERVICE_SOURCE, y);
    RStripUnique(SERVICE_SOURCE, "");
  }

  // ------------------------------------------------------------------
  // The rendered entry
  // ------------------------------------------------------------------

  /** The lines before the Added bullet. */
  function RenderFront(did: string, p: Proposal): seq<string> {
    RenderEntry(did, p, "")[..|RenderEntry(did, p, "")| - 1]
  }

  lemma RenderSplits(did: string, p: Proposal, added: string)
    ensures RenderEntry(did, p, added) == RenderFront(did, p) + [ADDED + " " + added]
    ensures |RenderFront(did, p)| >= 6
  {}

  lemma RenderFrontShape(did: string, p: Proposal)
    requires ValidId(did)
    ensures DirId(RenderFront(did, p)[0]) == Some(did)
    ensures forall i :: 1 <= i < |RenderFront(did, p)| ==> IsBullet(RenderFront(did, p)[i])
    ensures forall i :: 0 <= i < |RenderFront(did, p)| ==> AddedOf(RenderFront(did, p)[i]).None?
    ensures StatusOf(RenderFront(did, p)[0]).None? && StatusOf(RenderFront(did, p)[1]).None?
    ensures RenderFront(did, p)[2] == "- **Status:** active"
  {
    hide DirId, IdLen, Clean, EscapePipes;
    HeadingId(did, Clean(p.title));
    var f := RenderFront(did, p);
    assert f[0][0] == '#' && f[1][5] == 'p';
    forall i | 1 <= i < |f|
      ensures IsBullet(f[i]) && AddedOf(f[i]).None?
    {
      if i == 1 { assert f[1] == "- **Applies when:** " + Clean(p.appliesWhen); assert !(ADDED <= f[1]) by { assert f[1][5] == 'p'; } }
      if i == 2 { assert f[2] == "- **Status:** active"; assert f[2][4] == 'S'; }
      if i == 3 { assert f[3] == "- **Rule:** " + Clean(p.rule); assert f[3][4] == 'R'; }
      if i == 4 { assert f[4] == "- **Rationale:** " + Clean(p.rationale); assert f[4][4] == 'R'; }
      if i == 5 { assert f[5] == "- **Reviewer check:** " + Clean(p.reviewerCheck); assert f[5][4] == 'R'; }
      if i == 6 { assert f[6] == ExampleLines(p)[0]; assert f[6][4] == 'E'; }
    }
  }

  lemma {:induction false} WordLenAppend(v: string, t: string)
    requires forall c <- v :: !IsSpace(c)
    requires AllBlank(t)
    ensures WordLen(v + t) == |v|
  {
    if v == "" {
      assert v + t == t;
      assert t != "" ==> t[0] in t;
    } else {
      assert v[0] in v;
      assert (v + t)[1..] == v[1..] + t;
      WordLenAppend(v[1..], t);
    }
  }

  lemma StatusReadsBack(b: string, v: string, t: string)
    requires AllBlank(b) && AllBlank(t)
    requires v != "" && forall c <- v :: !IsSpace(c)
    ensures StatusOf(STATUS + b + v + t) == Some(StatusLine(STATUS + b, v, t))
  {
    hide WordLen, DropBlanks;
    var line := STATUS + b + v + t;
    assert line[|STATUS|..] == b + (v + t);
    assert v[0] in v;
    DropBlanksUnique(b, v + t);
    WordLenAppend(v, t);
    assert (v + t)[|v|..] == t;
    assert line[..|line| - |v + t|] == STATUS + b;
  }

  lemma ActiveLine()
    ensures StatusOf("- **Status:** active") == Some(StatusLine("- **Status:** ", "active", ""))
  {
    hide StatusOf;
    StatusReadsBack(" ", "active", "");
    assert "- **Status:** active" == STATUS + " " + "active" + "";
    assert "- **Status:** " == STATUS + " ";
  }

  /** The Added bullet of a rendered entry reads back as what was rendered, up to trailing blanks. */
  lemma AddedReadsBack(added: string, t: string)
    ensures AddedOf(ADDED + " " + added + t) == Some(TrimBlanks(" " + (added + t)))
    ensures CleanStart(added) ==> AddedOf(ADDED + " " + added + t) == Some(RTrimBlanks(added + t))
  {
    var line := ADDED + " " + added + t;
    assert line[|ADDED|..] == " " + (added + t);
    if CleanStart(added) {
      DropBlanksUnique(" ", added + t);
    }
  }

  /** The lines of an entry the exporter has just written over an old one. */
  predicate Written(did: string, p: Proposal, added: string, t: string, blanks: seq<string>, body: seq<string>) {
    && AllSpace(t)
    && (forall l <- blanks :: IsBlankLine(l))
    && body == RenderFront(did, p) + [ADDED + " " + added + t] + blanks
  }

  lemma BlankLineIsPlain(line: string)
    requires IsBlankLine(line)
    ensures !IsSection(line) && DirId(line).None? && !IsRetired(line) && !IsRow(line)
    ensures AddedOf(line).None? && StatusOf(line).None?
  {
    assert line == RStrip(line) + Trail(line);
    assert line == "" || IsSpace(line[0]);
  }

  lemma WrittenShape(did: string, p: Proposal, added: string, t: string, blanks: seq<string>, body: seq<string>)
    requires ValidId(did) && Written(did, p, added, t, blanks, body)
    ensures IsEntry(did, body) && IsTemplate(body)
    ensures FirstStatus(body) == Some("active")
  {
    hide DirId, StatusOf, AddedOf, IsBullet, IsSection, IsRetired, IsRow, RenderFront;
    var f := RenderFront(did, p);
    RenderSplits(did, p, added);
    RenderFrontShape(did, p);
    ActiveLine();
    assert forall i :: 0 <= i < |f| ==> body[i] == f[i];
    FirstStatusIs(body, 2);
    AddedLineIsBullet(added, t);
    forall i | 1 <= i < |body|
      ensures !IsSection(body[i]) && (IsBullet(body[i]) || IsBlankLine(body[i]))
    {
      if i <= |f| {
        assert IsBullet(body[i]);
        BulletIsPlain(body[i]);
      } else {
        assert body[i] == blanks[i - |f| - 1];
        BlankLineIsPlain(body[i]);
      }
    }
  }

  /** The Added bullet of a written entry is the last line the exporter rendered. */
  lemma WrittenAdded(did: string, p: Proposal, added: string, t: string, blanks: seq<string>, body: seq<string>)
    requires ValidId(did) && Written(did, p, added, t, blanks, body)
    ensures FirstAdded(body) == Some(TrimBlanks(" " + (added + t)))
    ensures CleanStart(added) ==> FirstAdded(body) == Some(RTrimBlanks(added + t))
  {
    hide DirId, AddedOf, IsBullet, IsBlankLine, RenderFront, RTrimBlanks, TrimBlanks;
    var f := RenderFront(did, p);
    RenderSplits(did, p, added);
    RenderFrontShape(did, p);
    AddedReadsBack(added, t);
    assert forall i :: 0 <= i < |f| ==> body[i] == f[i];
    FirstAddedIs(body, |f|);
  }

  lemma AddedLineIsBullet(added: string, t: string)
    ensures IsBullet(ADDED + " " + added + t)
  {
    assert ADDED <= ADDED + " " + added + t;
  }

  // ------------------------------------------------------------------
  // Amend, then read back
  // ------------------------------------------------------------------

  lemma ReplaceIsWritten(did: string, p: Proposal, added: string, body: seq<string>)
    requires body != [] && !IsBlankLine(body[0])
    ensures var n := ContentLen(body);
            n > 0 && Written(did, p, added, Trail(body[n - 1]), body[n..], ReplaceBody(body, RenderEntry(did, p, added)))
  {
    hide RenderFront, RenderEntry, RStrip, IsBlankLine, Trail, ContentLen;
    var n := ContentLen(body);
    assert n > 0;
    RenderSplits(did, p, added);
    var entry := RenderEntry(did, p, added);
    assert entry[..|entry| - 1] == RenderFront(did, p);
    assert entry[|entry| - 1] == ADDED + " " + added;
    BlanksBehind(body);
  }

  lemma BlanksBehind(body: seq<string>)
    ensures forall l <- body[ContentLen(body)..] :: IsBlankLine(l)
  {
    hide IsBlankLine, ContentLen;
    var n := ContentLen(body);
    forall l | l in body[n..]
      ensures IsBlankLine(l)
    {
      var i :| n <= i < |body| && body[i] == l;
    }
  }

  lemma {:induction false} RStripLinesDropsBlanks(lines: seq<string>, blanks: seq<string>)
    requires forall l <- blanks :: IsBlankLine(l)
    ensures RStripLines(lines + blanks) == RStripLines(lines)
    decreases |blanks|
  {
    hide IsBlankLine;
    if blanks == [] {
      assert lines + blanks == lines;
    } else {
      var x := lines + blanks;
      assert x[|x| - 1] == blanks[|blanks| - 1] && blanks[|blanks| - 1] in blanks;
      assert x[..|x| - 1] == lines + blanks[..|blanks| - 1];
      RStripLinesDropsBlanks(lines, blanks[..|blanks| - 1]);
    }
  }

  lemma RStripLinesLast(front: seq<string>, a: string, b: string)
    requires RStrip(a) == RStrip(b) && RStrip(a) != ""
    ensures RStripLines(front + [a]) == RStripLines(front + [b])
  {
    hide RStrip;
    var x, y := front + [a], front + [b];
    assert x[|x| - 1] == a && y[|y| - 1] == b;
    assert RStripLines(x) == RStripLines(y);
  }

  /** What the exporter writes, it leaves alone when it reads it again with the same proposal. */
  lemma WrittenIsSettled(did: string, p: Proposal, added: string, t: string, blanks: seq<string>, body: seq<string>)
    requires ValidId(did) && CleanStart(added) && Written(did, p, added, t, blanks, body)
    ensures SameLines(RenderEntry(did, p, RTrimBlanks(added + t)), body)
  {
    hide RenderFront, RenderEntry, RStripLines, RTrimBlanks, RStrip, IsBlankLine;
    var again := RTrimBlanks(added + t);
    RenderSplits(did, p, again);
    var a, b := ADDED + " " + again, ADDED + " " + added + t;
    AddedLineTail(added, t);
    AddedLineIsNotBlank(again);
    RStripLinesLast(RenderFront(did, p), a, b);
    RStripLinesDropsBlanks(RenderFront(did, p) + [b], blanks);
  }

  lemma AddedLineIsNotBlank(added: string)
    ensures RStrip(ADDED + " " + added) != ""
  {
    NotBlank(ADDED + " " + added, 0);
  }

  lemma Assoc(x: string, y: string, z: string)
    ensures x + y + z == x + (y + z)
  {}

  lemma AddedLineTail(added: string, t: string)
    requires AllSpace(t)
    ensures RStrip(ADDED + " " + RTrimBlanks(added + t)) == RStrip(ADDED + " " + added + t)
  {
    hide RTrimBlanks, RStrip;
    var again := RTrimBlanks(added + t);
    var pre := ADDED + " ";
    var rest := (added + t)[|again|..];
    assert added + t == again + rest;
    Assoc(pre, added, t);
    Assoc(pre, again, rest);
    assert pre + added + t == (pre + again) + rest;
    RStripAppend(pre + again, rest);
  }

  lemma {:induction false} RTrimKeeps(a: string, t: string)
    requires a != "" ==> !IsBlank(a[|a| - 1])
    ensures |RTrimBlanks(a + t)| >= |a|
    decreases |t|
  {
    if t == "" {
      assert a + t == a;
    } else {
      assert (a + t)[..|a + t| - 1] == a + t[..|t| - 1];
      RTrimKeeps(a, t[..|t| - 1]);
    }
  }

  /** The entry keeps its owner when its Added bullet is written back. */
  lemma WrittenOwned(added: string, t: string)
    requires OwnedAdded(added) && AllSpace(t)
    requires added != "" ==> !IsBlank(added[|added| - 1])
    ensures OwnedAdded(RTrimBlanks(added + t))
  {
    hide OwnedAdded;
    var w := added + t;
    var r := RTrimBlanks(w);
    RTrimKeeps(added, t);
    assert r == added + t[..|r| - |added|];
    OwnedAppend(added, t[..|r| - |added|]);
  }

  lemma TrimmedOwned(pre: string, x: string, y: string)
    requires pre == x + SOURCE + " " + SERVICE_SOURCE + " · "
    requires x == "· " || (|x| <= 13 && |x| >= 3 && x == x[..|x| - 3] + " · ")
    ensures OwnedAdded(pre + y)
  {
    hide OwnedAdded, Find, Strip, Token, DropBlanks;
    var z := " " + SERVICE_SOURCE + " · " + y;
    assert pre + y == x + SOURCE + z;
    if x == "· " {
      forall i | 0 <= i < 2
        ensures !OccursAt(x + SOURCE + z, SOURCE, i)
      {
        NoMatch(x + SOURCE + z, SOURCE, i, 0);
      }
      assert (x + SOURCE + z)[2..2 + |SOURCE|] == SOURCE;
      FindFirst(x + SOURCE + z, SOURCE, 0, 2);
    } else {
      SourceFollowsDate(x[..|x| - 3], z);
    }
    assert (pre + y)[|x| + |SOURCE|..] == z;
    ServiceToken(y);
    RevealOwned(pre + y, |x|, z);
  }

  lemma RevealOwned(added: string, at: nat, rest: string)
    requires Find(added, SOURCE, 0) == at && added[at + |SOURCE|..] == rest
    requires Strip(Token(DropBlanks(rest))) == SERVICE_SOURCE
    ensures OwnedAdded(added)
  {}

  /** What is left of the date once leading blanks are gone. */
  function DatePart(date: string): string {
    if DropBlanks(date) == "" then "· " else DropBlanks(date) + " · "
  }

  lemma DropDate(date: string, z: string)
    ensures DropBlanks(" " + (date + " · " + z)) == DatePart(date) + z
  {
    hide DropBlanks;
    DropBlanksShape(date);
    var d := DropBlanks(date);
    var b := date[..|date| - |d|];
    BlanksAround(b);
    assert date == b + d;
    if d == "" {
      assert b == date;
      OnlyBlanksFirst(b, z);
    } else {
      BlanksFirst(b, d, " · " + z);
      assert date + " · " + z == b + d + (" · " + z);
    }
  }

  lemma OnlyBlanksFirst(b: string, z: string)
    requires AllBlank(" " + b + " ")
    ensures DropBlanks(" " + (b + " · " + z)) == "· " + z
  {
    hide DropBlanks;
    assert " " + (b + " · " + z) == (" " + b + " ") + ("· " + z);
    DropBlanksUnique(" " + b + " ", "· " + z);
  }

  lemma BlanksFirst(b: string, d: string, z: string)
    requires AllBlank(" " + b) && d != "" && !IsBlank(d[0])
    ensures DropBlanks(" " + (b + d + z)) == d + z
  {
    hide DropBlanks;
    assert " " + (b + d + z) == (" " + b) + (d + z);
    DropBlanksUnique(" " + b, d + z);
  }

  lemma BlanksAround(b: string)
    requires AllBlank(b)
    ensures AllBlank(" " + b) && AllBlank(" " + b + " ")
  {
    forall c | c in " " + b + " "
      ensures IsBlank(c)
    {
      assert c in b || c == ' ';
    }
  }

  /** A new entry is service-owned, whatever its date and evidence. */
  lemma NewOwned(date: string, evidence: string)
    requires |date| <= 10
    ensures OwnedAdded(TrimBlanks(" " + NewAddedLine(date, evidence)))
  {
    hide OwnedAdded, RTrimBlanks, DropBlanks;
    DropBlanksShape(date);
    var x := DatePart(date);
    var mark := SOURCE + " " + SERVICE_SOURCE + " · ";
    var pre := x + mark;
    var tag, rest := "**Evidence:**", " " + evidence;
    assert NewAddedLine(date, evidence) == date + " · " + (mark + tag + rest);
    DropDate(date, mark + tag + rest);
    assert x + (mark + tag + rest) == pre + tag + rest;
    RTrimKeeps(pre + tag, rest);
    var r := RTrimBlanks(pre + tag + rest);
    var y := tag + rest[..|r| - |pre + tag|];
    assert r == pre + y;
    assert pre == x + SOURCE + " " + SERVICE_SOURCE + " · ";
    var d := DropBlanks(date);
    assert d != "" ==> x[..|x| - 3] == d;
    TrimmedOwned(pre, x, y);
  }

  // ------------------------------------------------------------------
  // Retire
  // ------------------------------------------------------------------

  lemma RetiredLine(line: string)
    requires StatusOf(line).Some?
    ensures var s := StatusOf(line).value;
            var r := s.pre + "deprecated" + s.post;
            && line == s.pre + s.value + s.post
            && StatusOf(r) == Some(StatusLine(s.pre, "deprecated", s.post))
            && IsBullet(r) && IsBullet(line) && AddedOf(r).None? && AddedOf(line).None?
  {
    hide WordLen, DropBlanks, AddedOf, IsBullet;
    var s := StatusOf(line).value;
    StatusParts(line);
    var b := s.pre[|STATUS|..];
    assert s.pre == STATUS + b;
    StatusReadsBack(b, "deprecated", s.post);
    var r := s.pre + "deprecated" + s.post;
    assert r == STATUS + b + "deprecated" + s.post;
    StatusIsNoAdded(line);
    StatusIsNoAdded(r);
  }

  /** A Status line is what it is read as, and its value is one word between blanks. */
  lemma StatusParts(line: string)
    requires StatusOf(line).Some?
    ensures var s := StatusOf(line).value;
            && STATUS <= line && STATUS <= s.pre && line == s.pre + s.value + s.post
            && AllBlank(s.pre[|STATUS|..]) && AllBlank(s.post)
  {
    hide WordLen, DropBlanks;
    DropBlanksShape(line[|STATUS|..]);
  }

  lemma StatusIsNoAdded(line: string)
    requires STATUS <= line
    ensures IsBullet(line) && AddedOf(line).None?
  {
    assert line[4] == 'S';
  }

  /** Retiring keeps the heading, the shape and the owner, and sets the status. */
  lemma {:induction false} RetireShape(body: seq<string>)
    ensures forall i :: 0 <= i < |body| && StatusOf(body[i]).None? ==> RetireBody(body)[i] == body[i]
    ensures forall i :: 0 <= i < |body| && RetireBody(body)[i] != body[i] ==> IsBullet(body[i]) && IsBullet(RetireBody(body)[i])
    ensures FirstAdded(RetireBody(body)) == FirstAdded(body)
    ensures FirstStatus(body).Some? ==> FirstStatus(RetireBody(body)) == Some("deprecated")
  {
    hide StatusOf, AddedOf, IsBullet;
    if body != [] {
      var r := RetireBody(body);
      if StatusOf(body[0]).Some? {
        RetiredLine(body[0]);
        assert r[1..] == body[1..];
      } else {
        RetireShape(body[1..]);
        assert r[1..] == RetireBody(body[1..]);
      }
    }
  }

  lemma RetireKeepsEntry(did: string, body: seq<string>)
    requires IsEntry(did, body)
    ensures IsEntry(did, RetireBody(body))
    ensures IsServiceOwned(body) ==> IsServiceOwned(RetireBody(body))
    ensures IsTemplate(body) ==> IsTemplate(RetireBody(body))
  {
    hide StatusOf, AddedOf, IsBullet, IsSection, DirId, OwnedAdded, IsBlankLine;
    RetireShape(body);
    var r := RetireBody(body);
    forall i | 0 <= i < |body| && r[i] != body[i]
      ensures i >= 1 && IsBullet(r[i]) && !IsSection(r[i])
    {
      BulletIsPlain(body[i]);
      BulletIsPlain(r[i]);
      DirIdIsSection(body[0]);
    }
  }
}
