/** What well-formedness asks of the lines of the document: checks a caller can make before a run. */
module DirectiveWellFormed {
  import opened Options
  import opened Text
  import opened DirectiveLines
  import opened DirectiveEntries
  import opened DirectiveDoc
  import opened DirectiveSections
  import opened DirectiveRefine
  import opened DirectiveDecisions

  /**
   * Both tables are found, the Index rows end before "## Retired Entries" and a blank line
   * stands in front of it, every directive heading lies between the two, and no id has two.
   */
  predicate PassesChecks(doc: Doc) {
    var index, retired, r := FindTable(doc, Index), FindTable(doc, Retired), NextRetired(doc, 0);
    && index.Ok? && retired.Ok?
    && index.value.end < r && doc[r - 1] == ""
    && HeadingsWithin(doc, index.value.end, r)
    && HeadingsDiffer(doc)
  }

  predicate HeadingsWithin(doc: Doc, from: nat, to: nat) {
    forall i :: 0 <= i < |doc| && DirId(doc[i]).Some? ==> from <= i < to
  }

  predicate HeadingsDiffer(doc: Doc) {
    forall i, j :: 0 <= i < j < |doc| && DirId(doc[i]).Some? ==> DirId(doc[i]) != DirId(doc[j])
  }

  // ------------------------------------------------------------------
  // A well-formed document passes the checks
  // ------------------------------------------------------------------

  lemma TwoHeadingsAreRefused(doc: Doc, i: nat, j: nat)
    requires i < j < |doc| && DirId(doc[i]).Some? && DirId(doc[i]) == DirId(doc[j])
    ensures FindSpan(doc, DirId(doc[i]).value).Err?
  {
    hide DirId, IsSection;
    var did := DirId(doc[i]).value;
    var h := NextHeading(doc, did, 0);
    assert h <= i;
    assert NextHeading(doc, did, h + 1) <= j;
  }

  lemma HeadingsOfParts(a: seq<string>, b: seq<string>, c: seq<string>)
    requires NoHeading(a) && NoHeading(c)
    ensures HeadingsWithin(a + b + c, |a|, |a| + |b|)
  {
    hide DirId;
    var doc := a + b + c;
    assert forall i :: 0 <= i < |a| ==> doc[i] == a[i] && a[i] in a;
    assert forall i :: |a| + |b| <= i < |doc| ==> doc[i] == c[i - |a| - |b|] && c[i - |a| - |b|] in c;
  }

  lemma ValidPasses(s: Sections)
    requires Valid(s)
    ensures PassesChecks(Flat(s))
  {
    hide DirId, IsRow, IsRetired, IsIndexHeader, IsRetiredHeader, FindTable, FindSpan, Valid;
    var doc := Flat(s);
    Tables(s);
    BlankAbove(s);
    HeadingsAreEntries(s, "");
    TopIsPlain(s);
    var above := s.head + s.rows;
    var middle := s.mid + FlatEntries(s.entries);
    assert doc == above + middle + Bottom(s);
    HeadingsOfParts(above, middle, Bottom(s));
    forall i, j | 0 <= i < j < |doc| && DirId(doc[i]).Some?
      ensures DirId(doc[i]) != DirId(doc[j])
    {
      Spans(s, DirId(doc[i]).value);
      if DirId(doc[i]) == DirId(doc[j]) {
        TwoHeadingsAreRefused(doc, i, j);
      }
    }
  }

  lemma TopIsPlain(s: Sections)
    requires Valid(s)
    ensures NoHeading(s.head + s.rows) && NoHeading(Bottom(s))
  {
    hide DirId, IsRow, IsRetired, IsIndexHeader, IsRetiredHeader;
    RowsHaveNoHeading(s.rows);
    RowsHaveNoHeading(s.retRows);
  }

  lemma BlankAbove(s: Sections)
    requires Valid(s)
    ensures |s.head| + |s.rows| < |AboveRetired(s)|
    ensures Flat(s)[|AboveRetired(s)| - 1] == ""
  {
    var above := s.mid + FlatEntries(s.entries);
    assert AboveRetired(s) == s.head + s.rows + above;
    assert Flat(s) == AboveRetired(s) + Bottom(s);
    assert Flat(s)[|AboveRetired(s)| - 1] == AboveRetired(s)[|AboveRetired(s)| - 1] == above[|above| - 1];
  }

  // ------------------------------------------------------------------
  // A document that passes the checks is well formed
  // ------------------------------------------------------------------

  function NextDirective(lines: seq<string>, i: nat): (j: nat)
    requires i <= |lines|
    ensures i <= j <= |lines|
    ensures forall k :: i <= k < j ==> DirId(lines[k]).None?
    ensures j < |lines| ==> DirId(lines[j]).Some?
    decreases |lines| - i
  {
    if i == |lines| || DirId(lines[i]).Some? then i else NextDirective(lines, i + 1)
  }

  predicate StartsEntry(lines: seq<string>) {
    lines == [] || DirId(lines[0]).Some?
  }

  /** The first entry: its span, and what follows up to the next directive heading. */
  function FirstEntry(lines: seq<string>): (e: Entry)
    requires lines != [] && DirId(lines[0]).Some?
    ensures e.body != [] && |e.body| + |e.tail| <= |lines|
    ensures e.body + e.tail == lines[..|e.body| + |e.tail|]
    ensures StartsEntry(lines[|e.body| + |e.tail|..])
    ensures DirId(lines[0]) == Some(e.id)
  {
    var n := NextSection(lines, 1);
    var m := NextDirective(lines, n);
    Entry(DirId(lines[0]).value, lines[..n], lines[n..m])
  }

  function AfterFirst(lines: seq<string>): (rest: seq<string>)
    requires lines != [] && DirId(lines[0]).Some?
    ensures StartsEntry(rest) && |rest| < |lines|
    ensures lines == FirstEntry(lines).body + FirstEntry(lines).tail + rest
  {
    var e := FirstEntry(lines);
    lines[|e.body| + |e.tail|..]
  }

  /** The entries of the lines between the Index and the Retired heading, from the first heading on. */
  function Parse(lines: seq<string>): seq<Entry>
    requires StartsEntry(lines)
    decreases |lines|
  {
    if lines == [] then [] else [FirstEntry(lines)] + Parse(AfterFirst(lines))
  }

  lemma FlatFirst(e: Entry, es: seq<Entry>)
    ensures FlatEntries([e] + es) == e.body + e.tail + FlatEntries(es)
  {
    assert ([e] + es)[1..] == es;
  }

  lemma {:induction false} ParseJoins(lines: seq<string>)
    requires StartsEntry(lines)
    ensures FlatEntries(Parse(lines)) == lines
    decreases |lines|
  {
    hide DirId, IsSection, FirstEntry, AfterFirst, FlatEntries;
    if lines == [] {
      NoEntries();
    } else {
      ParseJoins(AfterFirst(lines));
      FlatFirst(FirstEntry(lines), Parse(AfterFirst(lines)));
    }
  }

  lemma NoEntries()
    ensures FlatEntries([]) == []
  {}

  /** Every entry's id is that of a heading among the lines. */
  predicate IdsAmong(es: seq<Entry>, lines: seq<string>) {
    forall e <- es :: exists l <- lines :: DirId(l) == Some(e.id)
  }

  lemma {:induction false} ParseIsValid(lines: seq<string>)
    requires StartsEntry(lines) && NoRetired(lines) && HeadingsDiffer(lines)
    ensures ValidEntries(Parse(lines)) && IdsAmong(Parse(lines), lines)
    decreases |lines|
  {
    hide DirId, IsSection, IsRetired, ValidEntry, FirstEntry, AfterFirst, HeadingsDiffer, NoRetired, IdsAmong, ValidEntries;
    if lines == [] {
      NothingToParse();
    } else {
      var e, rest := FirstEntry(lines), AfterFirst(lines);
      TailOfLines(lines, e.body + e.tail, rest);
      ParseIsValid(rest);
      FirstEntryIsValid(lines);
      OneMoreEntry(lines, e, e.body + e.tail, rest, Parse(rest));
    }
  }

  lemma NothingToParse()
    ensures ValidEntries([]) && IdsAmong([], [])
  {}

  lemma TailOfLines(lines: seq<string>, front: seq<string>, rest: seq<string>)
    requires lines == front + rest && NoRetired(lines) && HeadingsDiffer(lines)
    ensures NoRetired(rest) && HeadingsDiffer(rest)
  {
    hide DirId, IsRetired;
    assert forall i :: 0 <= i < |rest| ==> rest[i] == lines[|front| + i];
  }

  lemma OneMoreEntry(lines: seq<string>, e: Entry, front: seq<string>, rest: seq<string>, es: seq<Entry>)
    requires lines == front + rest && front != [] && HeadingsDiffer(lines) && DirId(lines[0]) == Some(e.id)
    requires ValidEntry(e) && ValidEntries(es) && IdsAmong(es, rest)
    ensures ValidEntries([e] + es) && IdsAmong([e] + es, lines)
  {
    hide DirId, ValidEntry;
    assert lines[0] in lines;
    forall x | x in es
      ensures x.id != e.id && exists l <- lines :: DirId(l) == Some(x.id)
    {
      var l :| l in rest && DirId(l) == Some(x.id);
      var i :| 0 <= i < |rest| && rest[i] == l;
      assert lines[|front| + i] == l && l in lines;
    }
    var all := [e] + es;
    assert forall i :: 1 <= i < |all| ==> all[i] == es[i - 1] && es[i - 1] in es;
  }

  lemma FirstEntryIsValid(lines: seq<string>)
    requires lines != [] && DirId(lines[0]).Some? && NoRetired(lines)
    ensures ValidEntry(FirstEntry(lines))
  {
    hide DirId, IsSection, IsRetired;
    var n := NextSection(lines, 1);
    var m := NextDirective(lines, n);
    var tail := lines[n..m];
    assert forall i :: 0 <= i < |tail| ==> tail[i] == lines[n + i] && lines[n + i] in lines;
  }

  lemma HeaderEnds(doc: Doc, kind: Table, from: nat, start: nat, x: nat)
    requires start <= from <= |doc| && NextHeader(doc, kind, from) < |doc| && x == NextHeader(doc, kind, from) + 2
    ensures x < |doc| && EndsInHeader(doc[start..x], kind, from - start)
  {
    hide IsIndexHeader, IsRetiredHeader;
    var lines := doc[start..x];
    forall i | from - start <= i < |lines| - 1
      ensures IsHeaderPair(kind, lines[i], lines[i + 1]) <==> i == |lines| - 2
    {
      assert lines[i] == doc[start + i] && lines[i + 1] == doc[start + i + 1];
      assert HeaderAt(doc, kind, start + i) <==> start + i == x - 2;
    }
  }

  /** The lines of a part are lines of the document. */
  lemma PartHasNoHeading(doc: Doc, from: nat, to: nat, i: nat, j: nat)
    requires HeadingsWithin(doc, from, to) && i <= j <= |doc| && (j <= from || to <= i)
    ensures NoHeading(doc[i..j])
  {
    hide DirId;
    assert forall k :: 0 <= k < j - i ==> doc[i..j][k] == doc[i + k];
  }

  lemma PartHasNoRetired(doc: Doc, i: nat, j: nat)
    requires i <= j <= NextRetired(doc, 0)
    ensures NoRetired(doc[i..j])
  {
    hide IsRetired;
    assert forall k :: 0 <= k < j - i ==> doc[i..j][k] == doc[i + k];
  }

  lemma RowsOfPart(doc: Doc, i: nat)
    requires i <= |doc|
    ensures AllRows(doc[i..RowsEnd(doc, i)]) && NotRowFirst(doc[RowsEnd(doc, i)..])
  {
    hide IsRow;
    var j := RowsEnd(doc, i);
    assert forall k :: 0 <= k < j - i ==> doc[i..j][k] == doc[i + k];
    assert doc[j..] != [] ==> doc[j..][0] == doc[j];
  }

  /** The document taken apart. */
  function Parts(doc: Doc): Sections
    requires PassesChecks(doc)
  {
    var index, retired, r := FindTable(doc, Index).value, FindTable(doc, Retired).value, NextRetired(doc, 0);
    var h := NextDirective(doc[..r], index.end);
    TableIsBelow(doc);
    Sections(doc[..index.start], doc[index.start..index.end], doc[index.end..h], Parse(doc[h..r]),
             doc[r..retired.start], doc[retired.start..retired.end], doc[retired.end..])
  }

  lemma TableIsBelow(doc: Doc)
    requires FindTable(doc, Retired).Ok?
    ensures NextRetired(doc, 0) < |doc| && NextRetired(doc, 0) + 1 < FindTable(doc, Retired).value.start < |doc|
  {
    hide IsRetired;
  }

  lemma PartsJoin(doc: Doc)
    requires PassesChecks(doc)
    ensures Flat(Parts(doc)) == doc
  {
    hide FindTable, HeadingsDiffer, HeadingsWithin, DirId, Parse;
    var index, retired, r := FindTable(doc, Index).value, FindTable(doc, Retired).value, NextRetired(doc, 0);
    var h := NextDirective(doc[..r], index.end);
    TableIsBelow(doc);
    ParseJoins(doc[h..r]);
    Cuts(doc, index.start, index.end, h, r);
    CutsBelow(doc, r, retired.start, retired.end);
    CutOnce(doc, r);
  }

  lemma CutOnce(doc: Doc, a: nat)
    requires a <= |doc|
    ensures doc[..a] + doc[a..] == doc
  {}

  lemma Cuts(doc: Doc, a: nat, b: nat, c: nat, d: nat)
    requires a <= b <= c <= d <= |doc|
    ensures doc[..a] + doc[a..b] + doc[b..c] + doc[c..d] == doc[..d]
  {}

  lemma CutsBelow(doc: Doc, a: nat, b: nat, c: nat)
    requires a <= b <= c <= |doc|
    ensures doc[a..b] + doc[b..c] + doc[c..] == doc[a..]
    ensures doc[c..|doc|] == doc[c..]
  {}

  lemma PartsOfIndex(doc: Doc)
    requires PassesChecks(doc)
    ensures var s := Parts(doc);
            && EndsInHeader(s.head, Index, 0) && NoHeading(s.head) && NoRetired(s.head) && AllRows(s.rows)
            && NoHeading(s.mid) && NoRetired(s.mid) && NotRowFirst(s.mid)
  {
    hide HeadingsDiffer, HeadingsWithin, DirId, Parse, IsRetired, IsRow, IsIndexHeader, IsRetiredHeader, NoHeading, NoRetired, EndsInHeader, AllRows;
    var index, r := FindTable(doc, Index).value, NextRetired(doc, 0);
    var h := NextDirective(doc[..r], index.end);
    HeaderEnds(doc, Index, 0, 0, index.start);
    assert doc[0..index.start] == doc[..index.start];
    PartHasNoHeading(doc, index.end, r, 0, index.start);
    PartHasNoRetired(doc, 0, index.start);
    PartHasNoRetired(doc, index.end, h);
    RowsOfPart(doc, index.start);
    MidHasNoHeading(doc, index.end, r);
    assert doc[index.end..h] != [] ==> doc[index.end..h][0] == doc[index.end] == doc[index.end..][0];
  }

  lemma MidHasNoHeading(doc: Doc, from: nat, to: nat)
    requires from <= to <= |doc|
    ensures NoHeading(doc[from..NextDirective(doc[..to], from)])
    ensures StartsEntry(doc[NextDirective(doc[..to], from)..to])
  {
    hide DirId;
    var h := NextDirective(doc[..to], from);
    assert forall k :: 0 <= k < h - from ==> doc[from..h][k] == doc[..to][from + k];
    assert h < to ==> doc[h..to][0] == doc[..to][h];
  }

  lemma PartsOfEntries(doc: Doc)
    requires PassesChecks(doc)
    ensures ValidEntries(Parts(doc).entries)
  {
    hide HeadingsWithin, DirId, Parse, IsRetired, FindTable, ValidEntries, NoRetired;
    var index, r := FindTable(doc, Index).value, NextRetired(doc, 0);
    var h := NextDirective(doc[..r], index.end);
    MidHasNoHeading(doc, index.end, r);
    PartHasNoRetired(doc, h, r);
    var lines := doc[h..r];
    assert forall i :: 0 <= i < |lines| ==> lines[i] == doc[h + i];
    ParseIsValid(lines);
  }

  lemma PartsOfRetired(doc: Doc)
    requires PassesChecks(doc)
    ensures var s := Parts(doc);
            && s.ret != [] && IsRetired(s.ret[0]) && EndsInHeader(s.ret, Retired, 1) && NoHeading(s.ret)
            && AllRows(s.retRows) && NoHeading(s.post) && NotRowFirst(s.post) && (s.post == [] ==> s.retRows != [])
  {
    hide HeadingsDiffer, HeadingsWithin, DirId, Parse, IsRetired, IsRow, IsIndexHeader, IsRetiredHeader, NoHeading, EndsInHeader, AllRows;
    var index, retired, r := FindTable(doc, Index).value, FindTable(doc, Retired).value, NextRetired(doc, 0);
    TableIsBelow(doc);
    HeaderEnds(doc, Retired, r + 1, r, retired.start);
    assert doc[r..retired.start][0] == doc[r];
    PartHasNoHeading(doc, index.end, r, r, retired.start);
    PartHasNoHeading(doc, index.end, r, retired.end, |doc|);
    CutsBelow(doc, r, retired.start, retired.end);
    RowsOfPart(doc, retired.start);
  }

  lemma PartsEndBlank(doc: Doc)
    requires PassesChecks(doc)
    ensures BlankBeforeRetired(Parts(doc))
  {
    hide FindTable, HeadingsDiffer, HeadingsWithin, DirId, Parse;
    var index, r := FindTable(doc, Index).value, NextRetired(doc, 0);
    var h := NextDirective(doc[..r], index.end);
    ParseJoins(doc[h..r]);
    LastOfPart(doc, index.end, h, r);
  }

  lemma LastOfPart(doc: Doc, a: nat, b: nat, c: nat)
    requires a <= b <= c <= |doc| && a < c
    ensures var above := doc[a..b] + doc[b..c]; above != [] && above[|above| - 1] == doc[c - 1]
  {
    assert doc[a..b] + doc[b..c] == doc[a..c];
  }

  /** A document is well formed exactly when its lines pass the checks. */
  lemma WellFormedIff(doc: Doc)
    ensures WellFormed(doc) <==> PassesChecks(doc)
  {
    hide PassesChecks, Valid, Flat;
    if WellFormed(doc) {
      var s :| Valid(s) && Flat(s) == doc;
      ValidPasses(s);
    }
    if PassesChecks(doc) {
      PartsAreValid(doc);
      PartsJoin(doc);
      assert Valid(Parts(doc)) && Flat(Parts(doc)) == doc;
    }
  }

  lemma PartsAreValid(doc: Doc)
    requires PassesChecks(doc)
    ensures Valid(Parts(doc))
  {
    hide PassesChecks, Parts, EndsInHeader, NoHeading, NoRetired, AllRows, ValidEntries, BlankBeforeRetired, IsRetired;
    PartsOfIndex(doc);
    PartsOfEntries(doc);
    PartsOfRetired(doc);
    PartsEndBlank(doc);
  }
}
