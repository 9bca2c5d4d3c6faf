/** The edits leave everything outside the decided ids alone, so the preservation check never refuses. */
module DirectivePreservation {
  import opened Options
  import opened Text
  import opened DirectiveLines
  import opened DirectiveEntries
  import opened DirectiveDoc
  import opened DirectiveSections
  import opened DirectiveRefine
  import opened DirectiveStep

  function KeepRows(rows: seq<string>, ids: set<string>): seq<string> {
    if rows == [] then []
    else KeepRows(rows[..|rows| - 1], ids) + (if InIds(RowId(rows[|rows| - 1]), ids) then [] else [rows[|rows| - 1]])
  }

  function KeepEntries(es: seq<Entry>, ids: set<string>): seq<string> {
    if es == [] then []
    else
      var e := es[|es| - 1];
      KeepEntries(es[..|es| - 1], ids) + (if e.id in ids then [] else e.body) + e.tail
  }

  /** What is left of a document when the spans and rows of ids are cut out. */
  function Remainder(s: Sections, ids: set<string>): seq<string> {
    s.head + KeepRows(s.rows, ids) + s.mid + KeepEntries(s.entries, ids) + s.ret + KeepRows(s.retRows, ids) + s.post
  }

  // ------------------------------------------------------------------
  // The mask of the text is the remainder of the parts
  // ------------------------------------------------------------------

  predicate IsCut(doc: Doc, index: Span, retired: Span, ids: set<string>, i: nat)
    requires i < |doc|
  {
    InIds(OwnerAt(doc, i), ids) || RowCut(doc, index, ids, i) || RowCut(doc, retired, ids, i)
  }

  lemma {:induction false} KeepAll(doc: Doc, index: Span, retired: Span, ids: set<string>, n: nat, m: nat)
    requires n <= m <= |doc|
    requires forall i :: n <= i < m ==> !IsCut(doc, index, retired, ids, i)
    ensures Keep(doc, index, retired, ids, m) == Keep(doc, index, retired, ids, n) + doc[n..m]
    decreases m - n
  {
    hide OwnerAt, RowCut, InIds;
    if n < m {
      KeepAll(doc, index, retired, ids, n, m - 1);
      assert !IsCut(doc, index, retired, ids, m - 1);
      assert doc[n..m] == doc[n..m - 1] + [doc[m - 1]];
    }
  }

  lemma {:induction false} KeepNone(doc: Doc, index: Span, retired: Span, ids: set<string>, n: nat, m: nat)
    requires n <= m <= |doc|
    requires forall i :: n <= i < m ==> IsCut(doc, index, retired, ids, i)
    ensures Keep(doc, index, retired, ids, m) == Keep(doc, index, retired, ids, n)
    decreases m - n
  {
    hide OwnerAt, RowCut, InIds;
    if n < m {
      KeepNone(doc, index, retired, ids, n, m - 1);
      assert IsCut(doc, index, retired, ids, m - 1);
    }
  }

  lemma {:induction false} KeepTable(doc: Doc, index: Span, retired: Span, ids: set<string>, n: nat, m: nat)
    requires n <= m <= |doc|
    requires forall i :: n <= i < m ==> (IsCut(doc, index, retired, ids, i) <==> InIds(RowId(doc[i]), ids))
    ensures Keep(doc, index, retired, ids, m) == Keep(doc, index, retired, ids, n) + KeepRows(doc[n..m], ids)
    decreases m - n
  {
    hide OwnerAt, RowCut, InIds, RowId;
    if n < m {
      KeepTable(doc, index, retired, ids, n, m - 1);
      assert IsCut(doc, index, retired, ids, m - 1) <==> InIds(RowId(doc[m - 1]), ids);
      assert doc[n..m][..m - 1 - n] == doc[n..m - 1];
    }
  }

  /** A line belongs to the heading it follows with no heading between. */
  lemma {:induction false} OwnerOfSpan(doc: Doc, h: nat, i: nat)
    requires h <= i < |doc| && IsSection(doc[h])
    requires forall j :: h < j <= i ==> !IsSection(doc[j])
    ensures OwnerAt(doc, i) == DirId(doc[h])
    decreases i
  {
    hide IsSection, DirId;
    if h < i {
      OwnerOfSpan(doc, h, i - 1);
    }
  }

  /** A stretch that starts at the top or under a foreign heading, and holds no directive heading, has no owner. */
  lemma {:induction false} NoOwner(doc: Doc, start: nat, i: nat)
    requires start <= i < |doc|
    requires start == 0 || IsSection(doc[start])
    requires forall j :: start <= j <= i ==> DirId(doc[j]).None?
    ensures OwnerAt(doc, i).None?
    decreases i
  {
    hide IsSection, DirId;
    if !IsSection(doc[i]) && i > 0 {
      NoOwner(doc, start, i - 1);
    }
  }

  /** Where the parts of a document lie. */
  datatype Layout = Layout(top: nat, bottom: nat, index: Span, retired: Span)

  function LayoutOf(s: Sections): Layout {
    Layout(|Top(s)|, |AboveRetired(s)|, Span(|s.head|, |s.head| + |s.rows|),
           Span(|AboveRetired(s)| + |s.ret|, |AboveRetired(s)| + |s.ret| + |s.retRows|))
  }

  lemma TopHasNoOwner(s: Sections)
    requires Valid(s)
    ensures |Top(s)| <= |Flat(s)|
    ensures forall i :: 0 <= i < |Top(s)| ==> OwnerAt(Flat(s), i).None?
  {
    hide OwnerAt, DirId, FlatEntries, Valid;
    HeadingsAreEntries(s, "");
    var doc := Flat(s);
    assert forall j :: 0 <= j < |Top(s)| ==> doc[j] == Top(s)[j] && Top(s)[j] in Top(s);
    forall i | 0 <= i < |Top(s)|
      ensures OwnerAt(doc, i).None?
    {
      NoOwner(doc, 0, i);
    }
  }

  lemma BottomHasNoOwner(s: Sections)
    requires Valid(s)
    ensures |AboveRetired(s)| <= |Flat(s)|
    ensures forall i :: |AboveRetired(s)| <= i < |Flat(s)| ==> OwnerAt(Flat(s), i).None?
  {
    hide OwnerAt, DirId, FlatEntries, Valid, IsSection;
    HeadingsAreEntries(s, "");
    RetiredStarts(s);
    var doc, a := Flat(s), |AboveRetired(s)|;
    assert doc == AboveRetired(s) + Bottom(s);
    assert forall j :: a <= j < |doc| ==> doc[j] == Bottom(s)[j - a] && Bottom(s)[j - a] in Bottom(s);
    assert doc[a] == s.ret[0];
    forall i | a <= i < |doc|
      ensures OwnerAt(doc, i).None?
    {
      NoOwner(doc, a, i);
    }
  }

  lemma RetiredStarts(s: Sections)
    requires Valid(s)
    ensures s.ret != [] && IsSection(s.ret[0]) && Bottom(s)[0] == s.ret[0]
  {
    hide ValidEntries, BlankBeforeRetired, EndsInHeader, DirId, AllRows, NoHeading, NoRetired, NotRowFirst, IsRetired;
    DirIdIsSection(s.ret[0]);
  }

  /** The lines of an entry belong to it; the text after its span belongs to nobody. */
  lemma EntryOwners(s: Sections, k: nat, i: nat)
    requires Valid(s) && k < |s.entries|
    requires |BeforeSpan(s, k)| <= i < |BeforeSpan(s, k)| + |s.entries[k].body| + |s.entries[k].tail|
    ensures i < |Flat(s)|
    ensures OwnerAt(Flat(s), i) ==
            if i < |BeforeSpan(s, k)| + |s.entries[k].body| then Some(s.entries[k].id) else None
  {
    hide OwnerAt, DirId, FlatEntries, Valid, IsSection, Flat, BeforeSpan;
    ValidEntryAt(s, k);
    FlatAtEntry(s, k);
    var e, doc := s.entries[k], Flat(s);
    var at := |BeforeSpan(s, k)|;
    var end := at + |e.body|;
    assert forall j :: at <= j < end ==> doc[j] == e.body[j - at];
    if i < end {
      DirIdIsSection(e.body[0]);
      OwnerOfSpan(doc, at, i);
    } else {
      assert AfterSpan(s, k)[..|e.tail|] == e.tail;
      assert forall j :: end <= j < end + |e.tail| ==> doc[j] == e.tail[j - end] && e.tail[j - end] in e.tail;
      assert doc[end] == e.tail[0];
      NoOwner(doc, end, i);
    }
  }

  /** The text below the entries starts where the last entry's part ends. */
  lemma BeforeNext(s: Sections, k: nat)
    requires k < |s.entries|
    ensures BeforeSpan(s, k + 1) == BeforeSpan(s, k) + s.entries[k].body + s.entries[k].tail
    ensures |BeforeSpan(s, k + 1)| <= |AboveRetired(s)|
  {
    var es := s.entries;
    assert es[..k + 1] == es[..k] + [es[k]];
    FlatEntriesSplit(es[..k], [es[k]]);
    assert FlatEntries([es[k]]) == es[k].body + es[k].tail + FlatEntries([]);
    FlatEntriesSplit(es[..k + 1], es[k + 1..]);
    assert es[..k + 1] + es[k + 1..] == es;
  }

  lemma SlicesOfFlat(s: Sections, k: nat)
    requires k < |s.entries|
    ensures var at, end := |BeforeSpan(s, k)|, |BeforeSpan(s, k)| + |s.entries[k].body|;
            && |BeforeSpan(s, k + 1)| == end + |s.entries[k].tail| <= |Flat(s)|
            && Flat(s)[end..end + |s.entries[k].tail|] == s.entries[k].tail
  {
    hide BeforeSpan, Flat, FlatEntries;
    BeforeNext(s, k);
    FlatAtEntry(s, k);
    var t := s.entries[k].tail;
    assert AfterSpan(s, k)[..|t|] == t;
  }

  lemma KeepEntry(s: Sections, ids: set<string>, n: nat)
    requires Valid(s) && n < |s.entries|
    ensures var l, e := LayoutOf(s), s.entries[n];
            && |BeforeSpan(s, n)| <= |BeforeSpan(s, n + 1)| <= |Flat(s)|
            && Keep(Flat(s), l.index, l.retired, ids, |BeforeSpan(s, n + 1)|)
               == Keep(Flat(s), l.index, l.retired, ids, |BeforeSpan(s, n)|) + (if e.id in ids then [] else e.body) + e.tail
  {
    hide OwnerAt, DirId, FlatEntries, Valid, IsSection, Flat, RowId, BeforeSpan, AboveRetired, Keep;
    var l, e, doc := LayoutOf(s), s.entries[n], Flat(s);
    BeforeNext(s, n);
    SlicesOfFlat(s, n);
    var at := |BeforeSpan(s, n)|;
    var stop := at + |e.body|;
    var end := stop + |e.tail|;
    TopIsFirst(s, n);
    forall i | at <= i < end
      ensures IsCut(doc, l.index, l.retired, ids, i) <==> i < stop && e.id in ids
    {
      EntryOwners(s, n, i);
    }
    FlatAtEntry(s, n);
    assert doc[at..stop] == e.body;
    if e.id in ids {
      KeepNone(doc, l.index, l.retired, ids, at, stop);
    } else {
      KeepAll(doc, l.index, l.retired, ids, at, stop);
    }
    KeepAll(doc, l.index, l.retired, ids, stop, end);
  }

  lemma TopIsFirst(s: Sections, k: nat)
    requires k <= |s.entries|
    ensures |s.head| + |s.rows| <= |Top(s)| <= |BeforeSpan(s, k)|
  {}

  lemma {:induction false} KeepEntriesPrefix(s: Sections, ids: set<string>, k: nat)
    requires Valid(s) && k <= |s.entries|
    ensures var l := LayoutOf(s);
            && |Top(s)| <= |BeforeSpan(s, k)| <= |Flat(s)|
            && Keep(Flat(s), l.index, l.retired, ids, |BeforeSpan(s, k)|)
               == Keep(Flat(s), l.index, l.retired, ids, |Top(s)|) + KeepEntries(s.entries[..k], ids)
  {
    hide Valid, Flat, BeforeSpan, AboveRetired, Keep, Top;
    TopIsFirst(s, k);
    if k > 0 {
      var n := k - 1;
      KeepEntriesPrefix(s, ids, n);
      KeepEntry(s, ids, n);
      assert s.entries[..k][..n] == s.entries[..n] && s.entries[..k][n] == s.entries[n];
    } else {
      assert s.entries[..0] == [];
      BeforeNothing(s);
    }
  }

  lemma BeforeNothing(s: Sections)
    ensures BeforeSpan(s, 0) == Top(s) && |Top(s)| <= |Flat(s)|
    ensures BeforeSpan(s, |s.entries|) == AboveRetired(s)
  {
    assert s.entries[..0] == [];
    assert s.entries[..|s.entries|] == s.entries;
  }

  lemma TopParts(s: Sections)
    ensures var a, b, c := |s.head|, |s.head| + |s.rows|, |Top(s)|;
            c <= |Flat(s)| && Flat(s)[0..a] == s.head && Flat(s)[a..b] == s.rows && Flat(s)[b..c] == s.mid
  {
    hide FlatEntries;
  }

  lemma KeepTop(s: Sections, ids: set<string>)
    requires Valid(s)
    ensures var l := LayoutOf(s);
            && |Top(s)| <= |Flat(s)|
            && Keep(Flat(s), l.index, l.retired, ids, |Top(s)|) == s.head + KeepRows(s.rows, ids) + s.mid
  {
    hide OwnerAt, DirId, FlatEntries, Valid, IsSection, RowId, KeepRows, Flat, Bottom;
    TopHasNoOwner(s);
    var l, doc := LayoutOf(s), Flat(s);
    var a, b, c := |s.head|, |s.head| + |s.rows|, |Top(s)|;
    TopParts(s);
    KeepAll(doc, l.index, l.retired, ids, 0, a);
    KeepTable(doc, l.index, l.retired, ids, a, b);
    KeepAll(doc, l.index, l.retired, ids, b, c);
  }

  lemma Slices(a: seq<string>, b: seq<string>, c: seq<string>, d: seq<string>)
    ensures var doc := a + b + c + d;
            && doc[|a|..|a| + |b|] == b
            && doc[|a| + |b|..|a| + |b| + |c|] == c
            && doc[|a| + |b| + |c|..|doc|] == d
  {}

  lemma KeepBottom(s: Sections, ids: set<string>)
    requires Valid(s)
    ensures var l := LayoutOf(s);
            && |AboveRetired(s)| <= |Flat(s)|
            && Keep(Flat(s), l.index, l.retired, ids, |Flat(s)|)
               == Keep(Flat(s), l.index, l.retired, ids, |AboveRetired(s)|) + s.ret + KeepRows(s.retRows, ids) + s.post
  {
    hide OwnerAt, DirId, FlatEntries, Valid, IsSection, RowId, KeepRows, Flat, AboveRetired, Keep;
    BottomHasNoOwner(s);
    FlatAtRetired(s);
    var l, doc := LayoutOf(s), Flat(s);
    var z := |AboveRetired(s)|;
    var a := z + |s.ret|;
    var b := a + |s.retRows|;
    Slices(AboveRetired(s), s.ret, s.retRows, s.post);
    BeforeNothing(s);
    TopIsFirst(s, |s.entries|);
    KeepAll(doc, l.index, l.retired, ids, z, a);
    KeepTable(doc, l.index, l.retired, ids, a, b);
    KeepAll(doc, l.index, l.retired, ids, b, |doc|);
  }

  lemma NoOverlap(s: Sections, ids: set<string>)
    requires Valid(s)
    ensures Disjoint(Flat(s), LayoutOf(s).index, LayoutOf(s).retired, ids)
  {
    hide OwnerAt, DirId, FlatEntries, Valid, IsSection, RowId;
    TopHasNoOwner(s);
    BottomHasNoOwner(s);
    assert |s.head| + |s.rows| <= |Top(s)| <= |AboveRetired(s)|;
  }

  /** Cutting spans and rows by position leaves exactly the parts that do not belong to the ids. */
  lemma MaskRefines(s: Sections, ids: set<string>)
    requires Valid(s)
    ensures Mask(Flat(s), ids) == Ok(StripEnd(Remainder(s, ids)))
  {
    hide OwnerAt, DirId, FlatEntries, Valid, IsSection, RowId, KeepRows, KeepEntries, FindTable, Keep, Disjoint, Flat, AboveRetired, BeforeSpan;
    Tables(s);
    NoOverlap(s, ids);
    KeepTop(s, ids);
    KeepEntriesPrefix(s, ids, |s.entries|);
    BeforeNothing(s);
    KeepBottom(s, ids);
    assert s.entries[..|s.entries|] == s.entries;
  }

  // ------------------------------------------------------------------
  // One decision leaves the remainder alone
  // ------------------------------------------------------------------

  lemma {:induction false} KeepRowsSplit(a: seq<string>, b: seq<string>, ids: set<string>)
    ensures KeepRows(a + b, ids) == KeepRows(a, ids) + KeepRows(b, ids)
    decreases |b|
  {
    hide RowId, InIds;
    if b == [] {
      assert a + b == a;
    } else {
      var n := |b| - 1;
      assert (a + b)[..|a + b| - 1] == a + b[..n];
      assert (a + b)[|a + b| - 1] == b[n];
      KeepRowsSplit(a, b[..n], ids);
    }
  }

  lemma KeepOneRow(row: string, did: string, ids: set<string>)
    requires RowId(row) == Some(did) && did in ids
    ensures KeepRows([row], ids) == []
  {
    hide RowId;
    assert [row][..0] == [];
    assert KeepRows([], ids) == [];
  }

  lemma {:induction false} KeepDropped(rows: seq<string>, did: string, ids: set<string>)
    requires did in ids
    ensures KeepRows(DropRows(rows, did), ids) == KeepRows(rows, ids)
  {
    hide RowId;
    if rows != [] {
      var n := |rows| - 1;
      KeepDropped(rows[..n], did, ids);
      KeepRowsSplit(DropRows(rows[..n], did), [rows[n]], ids);
      KeepRowsSplit(rows[..n], [rows[n]], ids);
      assert rows == rows[..n] + [rows[n]];
      if RowId(rows[n]) == Some(did) {
        KeepOneRow(rows[n], did, ids);
        assert DropRows(rows, did) == DropRows(rows[..n], did);
      }
    }
  }

  lemma KeepSet(rows: seq<string>, did: string, row: string, ids: set<string>)
    requires did in ids && RowId(row) == Some(did)
    ensures KeepRows(SetRow(rows, did, row), ids) == KeepRows(rows, ids)
  {
    hide RowId, RowIndex, FirstAbove, KeepRows, Number, RowAbove;
    KeepOneRow(row, did, ids);
    var k := RowIndex(rows, did);
    if k < |rows| {
      var a, b := rows[..k], rows[k + 1..];
      assert rows == a + [rows[k]] + b && rows[k := row] == a + [row] + b;
      KeepOneRow(rows[k], did, ids);
      KeepRowsSplit(a + [rows[k]], b, ids);
      KeepRowsSplit(a, [rows[k]], ids);
      KeepRowsSplit(a + [row], b, ids);
      KeepRowsSplit(a, [row], ids);
    } else {
      var at := FirstAbove(rows, Number(did));
      var a, b := rows[..at], rows[at..];
      assert rows == a + b;
      KeepRowsSplit(a, b, ids);
      KeepRowsSplit(a + [row], b, ids);
      KeepRowsSplit(a, [row], ids);
    }
  }

  lemma {:induction false} KeepEntriesSplit(a: seq<Entry>, b: seq<Entry>, ids: set<string>)
    ensures KeepEntries(a + b, ids) == KeepEntries(a, ids) + KeepEntries(b, ids)
    decreases |b|
  {
    if b == [] {
      assert a + b == a;
    } else {
      var n := |b| - 1;
      assert (a + b)[..|a + b| - 1] == a + b[..n];
      assert (a + b)[|a + b| - 1] == b[n];
      KeepEntriesSplit(a, b[..n], ids);
    }
  }

  lemma KeepOneEntry(e: Entry, ids: set<string>)
    requires e.id in ids
    ensures KeepEntries([e], ids) == e.tail
  {
    assert [e][..0] == [];
    assert KeepEntries([], ids) == [];
  }

  lemma KeepSetBody(es: seq<Entry>, k: nat, body: seq<string>, ids: set<string>)
    requires k < |es| && es[k].id in ids
    ensures KeepEntries(es[k := es[k].(body := body)], ids) == KeepEntries(es, ids)
  {
    hide KeepEntries;
    var e := es[k].(body := body);
    var a, b := es[..k], es[k + 1..];
    assert es == a + [es[k]] + b && es[k := e] == a + [e] + b;
    KeepOneEntry(es[k], ids);
    KeepOneEntry(e, ids);
    KeepEntriesSplit(a + [es[k]], b, ids);
    KeepEntriesSplit(a, [es[k]], ids);
    KeepEntriesSplit(a + [e], b, ids);
    KeepEntriesSplit(a, [e], ids);
  }

  lemma StripEndBlank(x: seq<string>)
    ensures StripEnd(x + [""]) == StripEnd(x)
  {
    assert (x + [""])[..|x|] == x;
  }

  /** The remainders agree but for a newline at the end. */
  lemma SameRemainder(s: Sections, s': Sections, ids: set<string>)
    requires s.head == s'.head && s.mid == s'.mid && s.ret == s'.ret
    requires KeepRows(s.rows, ids) == KeepRows(s'.rows, ids)
    requires KeepEntries(s.entries, ids) == KeepEntries(s'.entries, ids)
    requires KeepRows(s.retRows, ids) == KeepRows(s'.retRows, ids)
    requires s'.post == s.post || s'.post == Terminated(s.post)
    ensures StripEnd(Remainder(s, ids)) == StripEnd(Remainder(s', ids))
  {
    hide KeepRows, KeepEntries, StripEnd;
    var x := s.head + KeepRows(s.rows, ids) + s.mid + KeepEntries(s.entries, ids) + s.ret + KeepRows(s.retRows, ids);
    StripEndBlank(x);
    assert x + [] == x;
  }

  lemma AddNewKeeps(s: Sections, t: Target, today: string, e: Edit, ids: set<string>)
    requires ValidId(t.did) && AddNewS(s, t, today) == Ok(e) && t.did in ids
    ensures StripEnd(Remainder(s, ids)) == StripEnd(Remainder(e.s, ids))
  {
    hide KeepRows, KeepEntries, StripEnd, RenderEntry, RenderIndexRow, TextLength, NewAddedLine, RowId, Remainder;
    var row := RenderIndexRow(t.did, t.proposal);
    RenderedRows(t.did, t.proposal, "");
    KeepOneRow(row, t.did, ids);
    KeepRowsSplit(s.rows, [row], ids);
    var entry := e.s.entries[|s.entries|];
    KeepOneEntry(entry, ids);
    KeepEntriesSplit(s.entries, [entry], ids);
    SameRemainder(s, e.s, ids);
  }

  lemma AmendKeeps(s: Sections, t: Target, today: string, k: nat, e: Edit, ids: set<string>)
    requires k < |s.entries| && s.entries[k].id == t.did && ValidId(t.did)
    requires AmendS(s, t, today, k) == Ok(e) && t.did in ids
    ensures StripEnd(Remainder(s, ids)) == StripEnd(Remainder(e.s, ids))
  {
    hide KeepRows, KeepEntries, StripEnd, RenderEntry, RenderIndexRow, TextLength, NewAddedLine, RowId, Remainder,
      SetRow, DropRows, FirstStatus, FirstAdded, SameLines, IsTemplate, ReplaceBody;
    var row := RenderIndexRow(t.did, t.proposal);
    RenderedRows(t.did, t.proposal, "");
    KeepSet(s.rows, t.did, row, ids);
    KeepSetBody(s.entries, k, e.s.entries[k].body, ids);
    KeepDropped(s.retRows, t.did, ids);
    SameRemainder(s, e.s, ids);
  }

  lemma DeclineKeeps(s: Sections, t: Target, k: nat, e: Edit, ids: set<string>)
    requires k < |s.entries| && s.entries[k].id == t.did && ValidId(t.did) && s.entries[k].body != []
    requires DeclineS(s, t, k) == Ok(e) && t.did in ids
    ensures StripEnd(Remainder(s, ids)) == StripEnd(Remainder(e.s, ids))
  {
    hide KeepRows, KeepEntries, StripEnd, RowId, Remainder, DropRows, FirstStatus, RetireBody, RenderRetiredRow, HeadingTitle, RowIndex;
    var title := HeadingTitle(s.entries[k].body[0]);
    var row := RenderRetiredRow(t.did, title);
    RenderedRows(t.did, t.proposal, title);
    KeepOneRow(row, t.did, ids);
    KeepRowsSplit(s.retRows, [row], ids);
    KeepSetBody(s.entries, k, e.s.entries[k].body, ids);
    KeepDropped(s.rows, t.did, ids);
    SameRemainder(s, e.s, ids);
  }

  /** One decision changes nothing outside the spans and rows of its own id. */
  lemma StepKeeps(s: Sections, t: Target, today: string, e: Edit, ids: set<string>)
    requires Valid(s) && ValidId(t.did) && StepS(s, t, today) == Ok(e)
    requires t.did in ids || e.events == [] || !e.events[0].Action?
    ensures StripEnd(Remainder(s, ids)) == StripEnd(Remainder(e.s, ids))
  {
    hide Valid, AddNewS, AmendS, DeclineS, Remainder, IsServiceOwned;
    var k := EntryIndex(s.entries, t.did);
    if t.did !in ids {
      NoActionNoChange(s, t, today, e);
    } else if k == |s.entries| {
      if t.decision == Accepted {
        AddNewKeeps(s, t, today, e, ids);
      }
    } else {
      ValidEntryAt(s, k);
      if IsServiceOwned(s.entries[k].body) {
        if t.decision == Accepted {
          AmendKeeps(s, t, today, k, e, ids);
        } else {
          DeclineKeeps(s, t, k, e, ids);
        }
      }
    }
  }

  /** A step reports at most one event, about its own id; without an action it changes nothing. */
  lemma NoActionNoChange(s: Sections, t: Target, today: string, e: Edit)
    requires Valid(s) && ValidId(t.did) && StepS(s, t, today) == Ok(e)
    ensures |e.events| <= 1 && forall x <- e.events :: x.did == t.did
    ensures e.events == [] || !e.events[0].Action? ==> e.s == s
  {
    hide Valid, RenderEntry, RenderIndexRow, TextLength, NewAddedLine, RowId, SetRow, DropRows, FirstStatus, FirstAdded,
      SameLines, IsTemplate, ReplaceBody, RetireBody, RenderRetiredRow, HeadingTitle, RowIndex, IsServiceOwned, DropRetired, AddRetired;
  }
}
