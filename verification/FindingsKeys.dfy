/** How a rewritten entry's suggestion is read back, and when the entry keeps its natural key. */
module FindingsKeys {
  import opened Options
  import opened Text
  import opened ReconcileText
  import opened FindingsBlocks
  import opened FindingsFields
  import opened FindingsExport

  // ------------------------------------------------------------------
  // The rewritten entry, line by line
  // ------------------------------------------------------------------

  /** Line i of an entry after it was rewritten for f. */
  function NewLine(entry: seq<string>, f: Finding, i: nat): string
    requires i < |entry|
  {
    if FirstAt(entry, STATUS) == Some(i) then StatusLine(f)
    else if FirstAt(entry, APPROVER) == Some(i) then ApproverLine(f)
    else if FirstAt(entry, DATE) == Some(i) then DateLine(f)
    else if FirstAt(entry, DISPOSITION) == Some(i) && Disposition(f) != "" then Disposition(f)
    else entry[i]
  }

  /** A disposition line is put after the last line. */
  predicate Appends(entry: seq<string>, f: Finding) {
    Disposition(f) != "" && FirstAt(entry, DISPOSITION).None?
  }

  function NewLines(entry: seq<string>, f: Finding): seq<string> {
    seq(|entry|, i requires 0 <= i < |entry| => NewLine(entry, f, i)) + (if Appends(entry, f) then [Disposition(f)] else [])
  }

  lemma {:induction false} BodyIs(lines: seq<string>, n: nat)
    requires n <= |lines| && (forall i :: n <= i < |lines| ==> lines[i] == "") && (n > 0 ==> lines[n - 1] != "")
    ensures Body(lines) == lines[..n]
  {
    if n < |lines| {
      var front := lines[..|lines| - 1];
      BodyIs(front, n);
      assert front[..n] == lines[..n];
    } else {
      assert lines[..n] == lines;
    }
  }

  lemma SubBody(lines: seq<string>, prefix: string, line: string)
    requires prefix != "" && line != ""
    ensures Body(SubFirst(lines, prefix, line)) == SubFirst(Body(lines), prefix, line)
    ensures FirstAt(Body(lines), prefix) == FirstAt(lines, prefix)
  {
    hide FirstAt, Body;
    var body := Body(lines);
    var i := FirstAt(lines, prefix);
    assert body == lines[..|body|];
    if i.Some? {
      assert i.value < |body|;
      FirstIs(body, prefix, i.value);
      var now := lines[i.value := line];
      BodyIs(now, |body|);
      assert now[..|body|] == body[i.value := line];
    } else {
      NotThere(body, prefix);
    }
  }

  lemma AppendBody(lines: seq<string>, line: string, last: bool)
    requires line != ""
    ensures Body(Append(lines, line, last)) == Body(lines) + [line]
  {
    hide Body;
    var body := Body(lines);
    var more := Append(lines, line, last);
    AppendShape(lines, line, last);
    BodyIs(more, |body| + 1);
    assert more[..|body| + 1] == body + [line];
  }

  /** Substituting a line of one kind leaves the place of the first line of another. */
  lemma SubKeepsFirst(lines: seq<string>, prefix: string, other: string, line: string)
    requires Apart(other, prefix) && other <= line
    ensures FirstAt(SubFirst(lines, other, line), prefix) == FirstAt(lines, prefix)
  {
    SubKeepsSays(lines, prefix, "", other, line);
  }

  /** The decision lines of an entry without its final empty lines. */
  lemma DecisionLinesBody(b: Block, f: Finding)
    requires IsStatus(f.status)
    ensures var entry, d := Body(b), DecisionLines(b, f);
            && Body(d) == DecisionLines(entry, f) && FirstAt(d, DISPOSITION) == FirstAt(entry, DISPOSITION)
  {
    hide FirstAt, Body, SubFirst, Disposition, Apart;
    LinesHavePrefixes(f);
    PrefixesApart();
    var s := SubFirst(b, STATUS, StatusLine(f));
    var a := SubFirst(s, APPROVER, ApproverLine(f));
    SubBody(b, STATUS, StatusLine(f));
    SubBody(s, APPROVER, ApproverLine(f));
    SubBody(a, DATE, DateLine(f));
    SubBody(b, DISPOSITION, "x");
    SubKeepsFirst(b, DISPOSITION, STATUS, StatusLine(f));
    SubKeepsFirst(s, DISPOSITION, APPROVER, ApproverLine(f));
    SubKeepsFirst(a, DISPOSITION, DATE, DateLine(f));
  }

  lemma DecisionLinesPointwise(entry: seq<string>, f: Finding)
    requires IsStatus(f.status)
    ensures var d := DecisionLines(entry, f);
            && |d| == |entry| && FirstAt(d, DISPOSITION) == FirstAt(entry, DISPOSITION)
            && forall i :: 0 <= i < |entry| ==>
                 d[i] == if FirstAt(entry, STATUS) == Some(i) then StatusLine(f)
                         else if FirstAt(entry, APPROVER) == Some(i) then ApproverLine(f)
                         else if FirstAt(entry, DATE) == Some(i) then DateLine(f)
                         else entry[i]
  {
    hide FirstAt, Disposition, Apart, StatusLine, ApproverLine, DateLine;
    LinesHavePrefixes(f);
    PrefixesApart();
    var s := SubFirst(entry, STATUS, StatusLine(f));
    var a := SubFirst(s, APPROVER, ApproverLine(f));
    SubKeepsFirst(entry, APPROVER, STATUS, StatusLine(f));
    SubKeepsFirst(entry, DATE, STATUS, StatusLine(f));
    SubKeepsFirst(s, DATE, APPROVER, ApproverLine(f));
    SubKeepsFirst(entry, DISPOSITION, STATUS, StatusLine(f));
    SubKeepsFirst(s, DISPOSITION, APPROVER, ApproverLine(f));
    SubKeepsFirst(a, DISPOSITION, DATE, DateLine(f));
    FirstsDiffer(entry);
  }

  /** One line cannot be the first of two kinds. */
  lemma FirstsDiffer(entry: seq<string>)
    ensures forall i: nat :: FirstAt(entry, STATUS) == Some(i) ==>
              FirstAt(entry, APPROVER) != Some(i) && FirstAt(entry, DATE) != Some(i) && FirstAt(entry, DISPOSITION) != Some(i)
    ensures forall i: nat :: FirstAt(entry, APPROVER) == Some(i) ==> FirstAt(entry, DATE) != Some(i) && FirstAt(entry, DISPOSITION) != Some(i)
    ensures forall i: nat :: FirstAt(entry, DATE) == Some(i) ==> FirstAt(entry, DISPOSITION) != Some(i)
  {
    hide FirstAt, Apart;
    PrefixesApart();
    forall i: nat | i < |entry|
      ensures STATUS <= entry[i] ==> !(APPROVER <= entry[i]) && !(DATE <= entry[i]) && !(DISPOSITION <= entry[i])
      ensures APPROVER <= entry[i] ==> !(DATE <= entry[i]) && !(DISPOSITION <= entry[i])
      ensures DATE <= entry[i] ==> !(DISPOSITION <= entry[i])
    {
      KindsDiffer(entry[i]);
    }
  }

  lemma KindsDiffer(line: string)
    ensures STATUS <= line ==> !(APPROVER <= line) && !(DATE <= line) && !(DISPOSITION <= line)
    ensures APPROVER <= line ==> !(DATE <= line) && !(DISPOSITION <= line)
    ensures DATE <= line ==> !(DISPOSITION <= line)
  {
    hide Apart;
    PrefixesApart();
    if STATUS <= line {
      ApartLines(STATUS, APPROVER, line);
      ApartLines(STATUS, DATE, line);
      ApartLines(STATUS, DISPOSITION, line);
    } else if APPROVER <= line {
      ApartLines(APPROVER, DATE, line);
      ApartLines(APPROVER, DISPOSITION, line);
    } else if DATE <= line {
      ApartLines(DATE, DISPOSITION, line);
    }
  }

  /** The decision lines with the disposition line in its place, or behind, are the new lines. */
  lemma DispositionIsNewLine(entry: seq<string>, f: Finding)
    requires IsStatus(f.status)
    ensures var d := DecisionLines(entry, f);
            NewLines(entry, f) == if Disposition(f) == "" then d
                                  else if FirstAt(d, DISPOSITION).Some? then SubFirst(d, DISPOSITION, Disposition(f))
                                  else d + [Disposition(f)]
  {
    hide FirstAt, Disposition, DecisionLines, StatusLine, ApproverLine, DateLine;
    DecisionLinesPointwise(entry, f);
    FirstsDiffer(entry);
  }

  /** The rewritten entry, without its final empty lines, is its new lines. */
  lemma RewriteIsNewLines(b: Block, f: Finding, last: bool)
    requires IsStatus(f.status)
    ensures Body(Rewrite(b, f, last)) == NewLines(Body(b), f)
  {
    hide FirstAt, Body, Disposition, DecisionLines, Append, NewLines, SubFirst;
    var d := DecisionLines(b, f);
    DecisionLinesBody(b, f);
    DispositionIsNewLine(Body(b), f);
    DecisionLinesPointwise(Body(b), f);
    if Disposition(f) != "" {
      SubBody(d, DISPOSITION, Disposition(f));
      AppendBody(d, Disposition(f), last);
    }
  }

  // ------------------------------------------------------------------
  // Where the suggestion's text is
  // ------------------------------------------------------------------

  /** The first line that is not white space. */
  function FirstText(lines: seq<string>): (k: nat)
    ensures k <= |lines|
    ensures forall i :: 0 <= i < k ==> LStrip(lines[i]) == ""
    ensures k < |lines| ==> LStrip(lines[k]) != ""
  {
    if lines == [] || LStrip(lines[0]) != "" then 0 else 1 + FirstText(lines[1..])
  }

  /** The entry names a suggestion, and text follows the marker, on its line or on a later one. */
  predicate HasText(entry: seq<string>) {
    var m := MarkedLine(entry);
    m.Some? && (LStrip(AfterMarker(entry[m.value])) != "" || FirstText(entry[m.value + 1..]) < |entry| - m.value - 1)
  }

  /** The line of the marker. */
  function Named(entry: seq<string>): nat
    requires HasText(entry)
  {
    MarkedLine(entry).value
  }

  /** The line the text starts on. */
  function Start(entry: seq<string>): (s: nat)
    requires HasText(entry)
    ensures Named(entry) <= s < |entry|
  {
    var m := Named(entry);
    if LStrip(AfterMarker(entry[m])) != "" then m else m + 1 + FirstText(entry[m + 1..])
  }

  /** The text on that line. */
  function First(entry: seq<string>): (t: string)
    requires HasText(entry)
    ensures t != ""
  {
    if Start(entry) == Named(entry) then LStrip(AfterMarker(entry[Named(entry)])) else LStrip(entry[Start(entry)])
  }

  /** The further lines of the suggestion. */
  function Further(entry: seq<string>): seq<string>
    requires HasText(entry)
  {
    UpToField(entry[Start(entry) + 1..])
  }

  /** The line after the suggestion, or the end of the entry. */
  function End(entry: seq<string>): (e: nat)
    requires HasText(entry)
    ensures Start(entry) < e <= |entry|
  {
    Start(entry) + 1 + |Further(entry)|
  }

  lemma {:induction false} ValueFromText(rest: string, more: seq<string>)
    requires LStrip(rest) == ""
    ensures ValueLines(rest, more) ==
              var k := FirstText(more); if k < |more| then [LStrip(more[k])] + UpToField(more[k + 1..]) else [""]
    decreases |more|
  {
    hide LStrip, UpToField;
    if more != [] && LStrip(more[0]) == "" {
      ValueFromText(more[0], more[1..]);
      var k := FirstText(more[1..]);
      assert k < |more[1..]| ==> more[1..][k] == more[k + 1] && more[1..][k + 1..] == more[k + 2..];
    }
  }

  lemma SuggestionReads(entry: seq<string>)
    requires HasText(entry)
    ensures Suggestion(entry) == CleanValue(Join([First(entry)] + Further(entry)))
  {
    hide MarkedLine, AfterMarker, UpToField, CleanValue, Join, LStrip, HasMarker, FirstText, ValueLines;
    ValueReads(entry);
  }

  lemma ValueReads(entry: seq<string>)
    requires HasText(entry)
    ensures ValueLines(AfterMarker(entry[Named(entry)]), entry[Named(entry) + 1..]) == [First(entry)] + Further(entry)
  {
    hide MarkedLine, AfterMarker, UpToField, LStrip, HasMarker, FirstText, ValueLines, First, Further;
    var rest, more := AfterMarker(entry[Named(entry)]), entry[Named(entry) + 1..];
    if LStrip(rest) == "" {
      ValueFromText(rest, more);
      TextBelow(entry);
    } else {
      ValueOnLine(rest, more);
      TextOnLine(entry);
    }
  }

  lemma TextOnLine(entry: seq<string>)
    requires HasText(entry) && LStrip(AfterMarker(entry[Named(entry)])) != ""
    ensures First(entry) == LStrip(AfterMarker(entry[Named(entry)])) && Further(entry) == UpToField(entry[Named(entry) + 1..])
  {
    hide MarkedLine, AfterMarker, UpToField, LStrip, HasMarker, FirstText;
  }

  lemma TextBelow(entry: seq<string>)
    requires HasText(entry) && LStrip(AfterMarker(entry[Named(entry)])) == ""
    ensures var more := entry[Named(entry) + 1..];
            var k := FirstText(more);
            k < |more| && First(entry) == LStrip(more[k]) && Further(entry) == UpToField(more[k + 1..])
  {
    hide MarkedLine, AfterMarker, UpToField, LStrip, HasMarker, FirstText;
    TailOfTail(entry, Named(entry) + 1, FirstText(entry[Named(entry) + 1..]));
  }

  lemma ValueOnLine(rest: string, more: seq<string>)
    requires LStrip(rest) != ""
    ensures ValueLines(rest, more) == [LStrip(rest)] + UpToField(more)
  {
    hide LStrip, UpToField;
  }

  lemma TailOfTail(entry: seq<string>, i: nat, k: nat)
    requires i <= |entry| && k < |entry| - i
    ensures entry[i..][k] == entry[i + k] && entry[i..][k + 1..] == entry[i + k + 1..]
  {}

  /** An entry with a key has text. */
  lemma KeyHasText(b: Block)
    requires BlockKey(b).Some?
    ensures HasText(Body(b)) && Suggestion(Body(b)) != ""
  {
    hide MarkedLine, AfterMarker, UpToField, CleanValue, LStrip, HasMarker, FirstText, Body;
    var entry := Body(b);
    if MarkedLine(entry).Some? {
      var m := MarkedLine(entry).value;
      ValueOrNothing(AfterMarker(entry[m]), entry[m + 1..]);
    }
  }

  lemma ValueOrNothing(rest: string, more: seq<string>)
    ensures LStrip(rest) == "" && FirstText(more) == |more| ==> CleanValue(Join(ValueLines(rest, more))) == ""
  {
    hide LStrip, FirstText;
    if LStrip(rest) == "" {
      ValueFromText(rest, more);
      NothingIsClean();
    }
  }

  lemma NothingIsClean()
    ensures CleanValue(Join([""])) == ""
  {}

  // ------------------------------------------------------------------
  // Decision lines start fields, disposition lines do not
  // ------------------------------------------------------------------

  lemma {:induction false} UpToFieldIs(lines: seq<string>, n: nat)
    requires n <= |lines| && (forall i :: 0 <= i < n ==> !IsField(lines[i])) && (n < |lines| ==> IsField(lines[n]))
    ensures UpToField(lines) == lines[..n]
  {
    hide IsField;
    if n > 0 {
      UpToFieldIs(lines[1..], n - 1);
      assert lines[..n] == [lines[0]] + lines[1..][..n - 1];
    }
  }

  lemma {:induction false} LettersLenIs(s: string, n: nat)
    requires n <= |s| && (forall i :: 0 <= i < n ==> IsLetter(s[i])) && (n < |s| ==> !IsLetter(s[n]))
    ensures LettersLen(s) == n
  {
    if n > 0 {
      LettersLenIs(s[1..], n - 1);
    }
  }

  lemma PrefixIsField(prefix: string, n: nat, line: string)
    requires prefix <= line && |prefix| == n + 6 && "**" <= prefix && 'A' <= prefix[2] <= 'Z'
    requires forall i :: 3 <= i < 3 + n ==> IsLetter(prefix[i])
    requires prefix[3 + n..] == "**:"
    ensures IsField(line)
  {
    var s := line[3..];
    assert prefix[3 + n] == prefix[3 + n..][0] == '*';
    assert s[n] == '*';
    LettersLenIs(s, n);
    assert line[3 + n..][..3] == prefix[3 + n..];
  }

  lemma DecisionsAreFields(line: string)
    requires STATUS <= line || APPROVER <= line || DATE <= line
    ensures IsField(line)
  {
    hide IsField;
    if STATUS <= line {
      PrefixIsField(STATUS, 5, line);
    } else if APPROVER <= line {
      PrefixIsField(APPROVER, 7, line);
    } else {
      PrefixIsField(DATE, 12, line);
    }
  }

  lemma DispositionIsNoField(line: string)
    requires DISPOSITION <= line
    ensures !IsField(line)
  {
    assert DISPOSITION[14] == '(';
    assert forall i :: 3 <= i < 14 ==> IsLetter(DISPOSITION[i]);
    assert forall i :: 0 <= i < 11 ==> line[3..][i] == line[3 + i] == DISPOSITION[3 + i];
    assert line[3..][11] == '(';
    LettersLenIs(line[3..], 11);
    assert line[3 + 11..][0] == '(';
  }

  /** What a new line is: an old line, or a decision or disposition line in the place of one of its kind. */
  lemma NewLineKind(entry: seq<string>, f: Finding, i: nat)
    requires i < |entry| && IsStatus(f.status)
    ensures IsField(NewLine(entry, f, i)) == IsField(entry[i])
    ensures LStrip(entry[i]) == "" ==> NewLine(entry, f, i) == entry[i]
    ensures NewLine(entry, f, i) != entry[i] ==> LStrip(NewLine(entry, f, i)) == NewLine(entry, f, i) != "" && entry[i] != "" && entry[i][0] == '*'
    ensures !IsField(entry[i]) && NewLine(entry, f, i) != entry[i] ==>
              FirstAt(entry, DISPOSITION) == Some(i) && Disposition(f) != "" && NewLine(entry, f, i) == Disposition(f)
  {
    hide IsField, LStrip, Disposition, StatusLine, ApproverLine, DateLine, FirstAt;
    LinesHavePrefixes(f);
    var was, now := entry[i], NewLine(entry, f, i);
    StarStays(was);
    StarStays(now);
    if STATUS <= was || APPROVER <= was || DATE <= was {
      DecisionsAreFields(was);
    } else if DISPOSITION <= was {
      DispositionIsNoField(was);
    }
    if STATUS <= now || APPROVER <= now || DATE <= now {
      DecisionsAreFields(now);
    } else if DISPOSITION <= now {
      DispositionIsNoField(now);
    }
  }

  /** A line of a decision starts with a star, so there is nothing to strip in front of it. */
  lemma StarStays(line: string)
    ensures STATUS <= line || APPROVER <= line || DATE <= line || DISPOSITION <= line ==> line != "" && line[0] == '*' && LStrip(line) == line
  {
    assert STATUS[0] == '*' && APPROVER[0] == '*' && DATE[0] == '*' && DISPOSITION[0] == '*';
  }

  // ------------------------------------------------------------------
  // Reading the rewritten entry
  // ------------------------------------------------------------------

  /** The marker is found where it was: its line is kept, and no line written above it holds one. */
  predicate MarkerStays(entry: seq<string>, f: Finding)
    requires HasText(entry)
  {
    var m := Named(entry);
    NewLine(entry, f, m) == entry[m] && forall i :: 0 <= i < m ==> !HasMarker(NewLine(entry, f, i))
  }

  function NewFirst(entry: seq<string>, f: Finding): string
    requires HasText(entry)
  {
    if Start(entry) == Named(entry) then First(entry) else LStrip(NewLine(entry, f, Start(entry)))
  }

  function NewFurther(entry: seq<string>, f: Finding): seq<string>
    requires HasText(entry)
  {
    var s := Start(entry);
    seq(|Further(entry)|, j requires 0 <= j < |Further(entry)| => NewLine(entry, f, s + 1 + j))
    + if Appends(entry, f) && End(entry) == |entry| then [Disposition(f)] else []
  }

  lemma MarkedIs(lines: seq<string>, m: nat)
    requires m < |lines| && HasMarker(lines[m]) && forall i :: 0 <= i < m ==> !HasMarker(lines[i])
    ensures MarkedLine(lines) == Some(m)
  {}

  lemma FirstTextIs(lines: seq<string>, k: nat)
    requires k < |lines| && LStrip(lines[k]) != "" && forall i :: 0 <= i < k ==> LStrip(lines[i]) == ""
    ensures FirstText(lines) == k
  {
    hide LStrip;
  }

  /** The text starts where it did. */
  lemma StartStays(entry: seq<string>, f: Finding)
    requires HasText(entry) && MarkerStays(entry, f) && IsStatus(f.status)
    ensures var n := NewLines(entry, f);
            && HasText(n) && Named(n) == Named(entry) && Start(n) == Start(entry) && First(n) == NewFirst(entry, f)
  {
    hide LStrip, HasMarker, AfterMarker, MarkedLine, FirstText, NewLine, Appends, Disposition;
    var n, m, s := NewLines(entry, f), Named(entry), Start(entry);
    assert forall i :: 0 <= i < |entry| ==> n[i] == NewLine(entry, f, i);
    MarkedIs(n, m);
    if s > m {
      forall i | m < i <= s
        ensures i < s ==> LStrip(n[i]) == ""
        ensures i == s ==> LStrip(n[i]) != ""
      {
        assert entry[m + 1..][i - m - 1] == entry[i];
        NewLineKind(entry, f, i);
      }
      var below := n[m + 1..];
      assert forall j :: 0 <= j <= s - m - 1 ==> below[j] == n[m + 1 + j];
      FirstTextIs(below, s - m - 1);
    }
  }

  lemma NewLinesAt(entry: seq<string>, f: Finding)
    requires IsStatus(f.status)
    ensures var n := NewLines(entry, f);
            && |n| == |entry| + (if Appends(entry, f) then 1 else 0)
            && (forall i :: 0 <= i < |entry| ==> n[i] == NewLine(entry, f, i))
            && (Appends(entry, f) ==> n[|entry|] == Disposition(f) && !IsField(Disposition(f)))
  {
    hide NewLine, Disposition, IsField;
    LinesHavePrefixes(f);
    if Appends(entry, f) {
      DispositionIsNoField(Disposition(f));
    }
  }

  lemma NewFurtherAt(entry: seq<string>, f: Finding)
    requires HasText(entry)
    ensures var further, k := NewFurther(entry, f), |Further(entry)|;
            && |further| == k + (if Appends(entry, f) && End(entry) == |entry| then 1 else 0)
            && (forall j :: 0 <= j < k ==> further[j] == NewLine(entry, f, Start(entry) + 1 + j))
            && (Appends(entry, f) && End(entry) == |entry| ==> further[k] == Disposition(f))
  {
    hide NewLine, Disposition, UpToField, HasText, Start, Appends;
  }

  /** A further line is written as its new line, and starts no field. */
  lemma FurtherInside(entry: seq<string>, f: Finding, j: nat)
    requires HasText(entry) && IsStatus(f.status) && j < |Further(entry)|
    ensures var n, s := NewLines(entry, f), Start(entry);
            s + 1 + j < |n| && !IsField(n[s + 1 + j]) && j < |NewFurther(entry, f)| && NewFurther(entry, f)[j] == n[s + 1 + j]
  {
    hide NewLine, NewLines, NewFurther, Appends, IsField, HasText, Start, UpToField, Disposition, FirstAt;
    NewLinesAt(entry, f);
    NewFurtherAt(entry, f);
    var i := Start(entry) + 1 + j;
    assert i < End(entry);
    assert Further(entry)[j] == entry[Start(entry) + 1..][j] == entry[i] && Further(entry)[j] in Further(entry);
    NewLineKind(entry, f, i);
  }

  /** Behind the new further lines comes a field, or nothing. */
  lemma FurtherEnds(entry: seq<string>, f: Finding)
    requires HasText(entry) && IsStatus(f.status)
    ensures var n, s, k, more := NewLines(entry, f), Start(entry), |Further(entry)|, NewFurther(entry, f);
            && s + 1 + |more| <= |n| && |more| >= k
            && (s + 1 + |more| < |n| ==> IsField(n[s + 1 + |more|]))
            && (|more| > k ==> |more| == k + 1 && !IsField(more[k]) && more[k] == n[s + 1 + k])
  {
    hide NewLine, NewLines, NewFurther, Appends, IsField, HasText, Start, Disposition;
    NewLinesAt(entry, f);
    NewFurtherAt(entry, f);
    var e := End(entry);
    if e < |entry| {
      assert entry[Start(entry) + 1..][|Further(entry)|] == entry[e];
      NewLineKind(entry, f, e);
    }
  }

  /** And it ends at the same field, with the new lines and perhaps the appended one in between. */
  lemma FurtherIs(entry: seq<string>, f: Finding)
    requires HasText(entry) && MarkerStays(entry, f) && IsStatus(f.status)
    ensures HasText(NewLines(entry, f)) && Further(NewLines(entry, f)) == NewFurther(entry, f)
  {
    hide NewLines, NewFurther, HasText, MarkerStays, IsField, UpToField, First, Start, Named, NewFirst;
    StartStays(entry, f);
    FurtherEnds(entry, f);
    var n, s, more := NewLines(entry, f), Start(entry), NewFurther(entry, f);
    var now := n[s + 1..];
    forall j | 0 <= j < |more|
      ensures !IsField(now[j]) && now[j] == more[j]
    {
      if j < |Further(entry)| {
        FurtherInside(entry, f, j);
      }
    }
    UpToFieldIs(now, |more|);
    assert now[..|more|] == more;
  }

  /** The key of a rewritten entry, from the entry and the finding. */
  function KeyAfter(b: Block, f: Finding): Option<Key>
    requires HasText(Body(b)) && b != []
  {
    var entry := Body(b);
    var s := CleanValue(Join([NewFirst(entry, f)] + NewFurther(entry, f)));
    if s == "" then None else Some(Key(b[0], Truncate(s, MAX_SUGGESTION)))
  }

  /** Reading the rewritten entry gives that key. */
  lemma KeyAfterIs(b: Block, f: Finding, last: bool)
    requires IsBlock(b) && IsStatus(f.status) && HasText(Body(b)) && MarkerStays(Body(b), f)
    ensures BlockKey(Rewrite(b, f, last)) == KeyAfter(b, f)
  {
    hide HasText, MarkerStays, Body, Suggestion, Truncate, CleanValue, Join, NewFirst, NewFurther, First, Further, NewLines, Rewrite, IsBlock;
    RewriteKeepsBlock(b, f, last);
    BlockIsNotEmpty(b);
    BlockIsNotEmpty(Rewrite(b, f, last));
    RewriteIsNewLines(b, f, last);
    StartStays(Body(b), f);
    FurtherIs(Body(b), f);
    SuggestionReads(NewLines(Body(b), f));
  }

  lemma KeyReads(b: Block)
    requires b != []
    ensures BlockKey(b) == if Suggestion(Body(b)) == "" then None else Some(Key(b[0], Truncate(Suggestion(Body(b)), MAX_SUGGESTION)))
  {}

  /** The key read from the new lines of any entry, whatever a decision does to its marker. */
  function KeyRead(b: Block, f: Finding): Option<Key> {
    var s := Suggestion(NewLines(Body(b), f));
    if b == [] || s == "" then None else Some(Key(b[0], Truncate(s, MAX_SUGGESTION)))
  }

  /** The key of an entry after it is rewritten, from the entry and the finding. */
  function NextKey(b: Block, f: Finding): Option<Key> {
    if b != [] && HasText(Body(b)) && MarkerStays(Body(b), f) then KeyAfter(b, f) else KeyRead(b, f)
  }

  /** Reading a rewritten entry gives the key predicted from the entry before. */
  lemma NextKeyIs(b: Block, f: Finding, last: bool)
    requires IsBlock(b) && IsStatus(f.status)
    ensures BlockKey(Rewrite(b, f, last)) == NextKey(b, f)
  {
    hide HasText, MarkerStays, Body, Suggestion, Truncate, NewLines, Rewrite, IsBlock, KeyAfter, BlockKey;
    BlockIsNotEmpty(b);
    if HasText(Body(b)) && MarkerStays(Body(b), f) {
      KeyAfterIs(b, f, last);
    } else {
      RewriteKeepsBlock(b, f, last);
      BlockIsNotEmpty(Rewrite(b, f, last));
      RewriteIsNewLines(b, f, last);
      KeyReads(Rewrite(b, f, last));
    }
  }

  lemma BlockIsNotEmpty(b: Block)
    requires IsBlock(b)
    ensures b != []
  {}

  // ------------------------------------------------------------------
  // Entries that keep their key
  // ------------------------------------------------------------------

  /** The line the text starts on is below the marker, and a decision changes it. */
  predicate FirstChanges(entry: seq<string>, f: Finding)
    requires HasText(entry)
  {
    Start(entry) > Named(entry) && NewLine(entry, f, Start(entry)) != entry[Start(entry)]
  }

  /** The disposition line lands in the suggestion: in the place of one there, or behind it with no field between. */
  predicate Swallowed(entry: seq<string>, f: Finding)
    requires HasText(entry)
  {
    || (Appends(entry, f) && End(entry) == |entry|)
    || (exists i :: Start(entry) < i < End(entry) && NewLine(entry, f, i) != entry[i])
  }

  lemma UnchangedReading(entry: seq<string>, f: Finding)
    requires HasText(entry) && !FirstChanges(entry, f)
    ensures NewFirst(entry, f) == First(entry)
    ensures !Swallowed(entry, f) ==> NewFurther(entry, f) == Further(entry)
  {
    hide LStrip, HasMarker, AfterMarker, MarkedLine, FirstText, NewLine, Disposition, IsField, UpToField, HasText, Named, Start;
    var s := Start(entry);
    if !Swallowed(entry, f) {
      forall j | 0 <= j < |Further(entry)|
        ensures NewFurther(entry, f)[j] == Further(entry)[j]
      {
        assert Further(entry)[j] == entry[s + 1..][j] == entry[s + 1 + j];
        assert NewLine(entry, f, s + 1 + j) == entry[s + 1 + j];
      }
    }
  }

  /**
   * A rewritten entry keeps its natural key if the line its suggestion starts on is not a
   * decision line that changes and the suggestion does not swallow the disposition line.
   */
  lemma RewriteKeepsKey(b: Block, f: Finding, last: bool)
    requires IsBlock(b) && IsStatus(f.status) && BlockKey(b).Some? && HasText(Body(b)) && MarkerStays(Body(b), f)
    requires !FirstChanges(Body(b), f) && !Swallowed(Body(b), f)
    ensures BlockKey(Rewrite(b, f, last)) == BlockKey(b)
  {
    hide HasText, MarkerStays, Body, Suggestion, Truncate, CleanValue, Join, NewFirst, NewFurther, First, Further, FirstChanges, Swallowed, Rewrite;
    KeyAfterIs(b, f, last);
    UnchangedReading(Body(b), f);
    SuggestionReads(Body(b));
  }
}
