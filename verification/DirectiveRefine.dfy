/** The edits of the text are the edits of the parts: each keeps a document well formed. */
module DirectiveRefine {
  import opened Options
  import opened Text
  import opened DirectiveLines
  import opened DirectiveEntries
  import opened DirectiveDoc
  import opened DirectiveSections

  /** Everything after the Index rows. */
  function BelowIndex(s: Sections): seq<string> {
    s.mid + FlatEntries(s.entries) + Bottom(s)
  }

  /** Everything above "## Retired Entries". */
  function AboveRetired(s: Sections): seq<string> {
    Top(s) + FlatEntries(s.entries)
  }

  lemma FlatAtIndex(s: Sections)
    ensures Flat(s) == s.head + s.rows + BelowIndex(s)
  {
    var a, b, c, d, e := s.head, s.rows, s.mid, FlatEntries(s.entries), Bottom(s);
    assert a + b + c + d + e == a + b + (c + d + e);
  }

  lemma FlatAtRetired(s: Sections)
    ensures Flat(s) == AboveRetired(s) + s.ret + s.retRows + s.post
  {
    var a, b, c, d := AboveRetired(s), s.ret, s.retRows, s.post;
    assert a + (b + c + d) == a + b + c + d;
  }

  /** Both tables are found, where the parts say they are. */
  lemma Tables(s: Sections)
    requires Valid(s)
    ensures FindTable(Flat(s), Index) == Ok(Span(|s.head|, |s.head| + |s.rows|))
    ensures FindTable(Flat(s), Retired) ==
            Ok(Span(|AboveRetired(s)| + |s.ret|, |AboveRetired(s)| + |s.ret| + |s.retRows|))
    ensures NextRetired(Flat(s), 0) == |AboveRetired(s)|
  {
    hide FindTable, IsRow, IsRetired, IsIndexHeader, IsRetiredHeader, DirId;
    FlatAtIndex(s);
    FlatAtRetired(s);
    AboveIsPlain(s);
    assert BelowIndex(s)[0] == if s.mid != [] then s.mid[0] else (FlatEntries(s.entries) + Bottom(s))[0];
    FirstBelowIsNoRow(s);
    IndexTableAt(s.head, s.rows, BelowIndex(s));
    RetiredTableAt(AboveRetired(s), s.ret, s.retRows, s.post);
    NextRetiredAt(AboveRetired(s), Bottom(s));
    assert AboveRetired(s) + Bottom(s) == Flat(s);
  }

  lemma FirstBelowIsNoRow(s: Sections)
    requires Valid(s)
    ensures BelowIndex(s) != [] && NotRowFirst(BelowIndex(s))
  {
    hide DirId, IsRetired, IsRow, IsIndexHeader, IsRetiredHeader;
    var below := BelowIndex(s);
    FlatEntriesPlain(s.entries, "");
    if s.mid != [] {
      assert below[0] == s.mid[0];
    } else {
      assert below[0] == FlatEntries(s.entries)[0];
      DirIdIsSection(below[0]);
    }
  }

  lemma AboveIsPlain(s: Sections)
    requires Valid(s)
    ensures NoRetired(AboveRetired(s))
  {
    hide IsRetired, IsRow, IsIndexHeader, IsRetiredHeader, DirId;
    FlatEntriesPlain(s.entries, "");
    forall l | l in s.rows
      ensures !IsRetired(l)
    {
      DirIdIsSection(l);
    }
  }

  lemma RowsHaveNoHeading(rows: seq<string>)
    requires AllRows(rows)
    ensures NoHeading(rows)
  {
    hide DirId, IsRow;
    forall l | l in rows
      ensures DirId(l).None?
    {
      DirIdIsSection(l);
    }
  }

  /** No line outside the entries is a directive heading. */
  lemma HeadingsAreEntries(s: Sections, did: string)
    requires Valid(s)
    ensures forall l <- Top(s) :: DirId(l).None?
    ensures forall l <- Bottom(s) :: DirId(l).None?
  {
    hide DirId, IsRow, IsRetired, IsIndexHeader, IsRetiredHeader;
    RowsHaveNoHeading(s.rows);
    RowsHaveNoHeading(s.retRows);
  }

  lemma NoneHasIt(s: Sections, did: string)
    requires Valid(s) && EntryIndex(s.entries, did) == |s.entries|
    ensures forall l <- Flat(s) :: DirId(l) != Some(did)
  {
    hide DirId, IsRow, IsRetired, IsIndexHeader, IsRetiredHeader, FlatEntries, IsSection;
    HeadingsAreEntries(s, did);
    FlatEntriesPlain(s.entries, did);
  }

  /** Neither what is before an entry nor what is after it has a heading of its id. */
  lemma OthersHaveNot(s: Sections, k: nat, did: string)
    requires Valid(s) && k < |s.entries| && s.entries[k].id == did
    ensures forall l <- BeforeSpan(s, k) :: DirId(l) != Some(did)
    ensures forall l <- AfterSpan(s, k) :: DirId(l) != Some(did)
  {
    hide DirId, IsRow, IsRetired, IsIndexHeader, IsRetiredHeader, FlatEntries, IsSection;
    HeadingsAreEntries(s, did);
    FlatEntriesPlain(s.entries[..k], did);
    FlatEntriesPlain(s.entries[k + 1..], did);
    assert ValidEntry(s.entries[k]);
  }

  /** The exporter finds an entry exactly when the document has one, at its span. */
  lemma Spans(s: Sections, did: string)
    requires Valid(s)
    ensures var k := EntryIndex(s.entries, did);
            if k == |s.entries| then FindSpan(Flat(s), did) == Ok(None)
            else
              var at := |BeforeSpan(s, k)|;
              && FindSpan(Flat(s), did) == Ok(Some(Span(at, at + |s.entries[k].body|)))
              && Flat(s)[at..at + |s.entries[k].body|] == s.entries[k].body
              && at + |s.entries[k].body| < |Flat(s)|
              && Flat(s)[at + |s.entries[k].body|] == AfterSpan(s, k)[0]
  {
    hide DirId, IsRow, IsRetired, IsIndexHeader, IsRetiredHeader, FindSpan, IsSection, FlatEntries, BeforeSpan, AfterSpan, Flat;
    var es := s.entries;
    var k := EntryIndex(es, did);
    if k == |es| {
      NoneHasIt(s, did);
      SpanAbsent(Flat(s), did);
    } else {
      FlatAtEntry(s, k);
      assert ValidEntry(es[k]);
      AfterIsSection(s, k);
      OthersHaveNot(s, k, did);
      SpanAt(BeforeSpan(s, k), es[k].body, AfterSpan(s, k), did);
    }
  }

  lemma AfterIsSection(s: Sections, k: nat)
    requires Valid(s) && k < |s.entries|
    ensures AfterSpan(s, k) != [] && IsSection(AfterSpan(s, k)[0])
    ensures (DirId(AfterSpan(s, k)[0]).Some? || IsRetired(AfterSpan(s, k)[0])) <==> s.entries[k].tail == []
  {
    hide DirId, IsRow, IsRetired, IsIndexHeader, IsRetiredHeader, IsSection;
    var e, rest := s.entries[k], s.entries[k + 1..];
    assert ValidEntry(e);
    FlatEntriesPlain(rest, "");
    var a := AfterSpan(s, k);
    if e.tail != [] {
      assert a[0] == e.tail[0] && e.tail[0] in e.tail;
    } else if rest != [] {
      assert a[0] == FlatEntries(rest)[0];
      DirIdIsSection(a[0]);
    } else {
      assert a[0] == s.ret[0];
      DirIdIsSection(a[0]);
    }
  }

  // ------------------------------------------------------------------
  // The edits keep the parts valid
  // ------------------------------------------------------------------

  lemma SetRowsValid(s: Sections, rows: seq<string>)
    requires Valid(s) && AllRows(rows)
    ensures Valid(s.(rows := rows))
  {
    hide DirId, IsRow, IsRetired, IsIndexHeader, IsRetiredHeader, ValidEntries;
  }

  lemma SetRetiredValid(s: Sections, rows: seq<string>, post: seq<string>)
    requires Valid(s) && AllRows(rows)
    requires post == Terminated(s.post) || (post == s.post && (post == [] ==> rows != []))
    ensures Valid(s.(retRows := rows, post := post))
  {
    hide DirId, IsRow, IsRetired, IsIndexHeader, IsRetiredHeader, ValidEntries;
    DirIdIsSection("");
  }

  lemma {:induction false} DropRowsSubset(rows: seq<string>, did: string)
    ensures forall l <- DropRows(rows, did) :: l in rows && RowId(l) != Some(did)
    ensures forall l <- rows :: RowId(l) != Some(did) ==> l in DropRows(rows, did)
    ensures |DropRows(rows, did)| <= |rows|
    ensures rows != [] && RowId(rows[|rows| - 1]) != Some(did) ==> DropRows(rows, did) != []
  {
    hide RowId;
    if rows != [] {
      DropRowsSubset(rows[..|rows| - 1], did);
      assert rows == rows[..|rows| - 1] + [rows[|rows| - 1]];
    }
  }

  lemma DropRowsAllRows(rows: seq<string>, did: string)
    requires AllRows(rows)
    ensures AllRows(DropRows(rows, did))
  {
    hide RowId, IsRow;
    DropRowsSubset(rows, did);
  }

  lemma SetRowAllRows(rows: seq<string>, did: string, row: string)
    requires AllRows(rows) && IsRow(row)
    ensures AllRows(SetRow(rows, did, row))
  {
    hide RowId, IsRow, RowAbove, Number;
  }

  lemma SetBodyEntries(es: seq<Entry>, k: nat, body: seq<string>)
    requires ValidEntries(es) && k < |es| && IsEntry(es[k].id, body)
    ensures ValidEntries(es[k := es[k].(body := body)])
  {
    hide DirId, IsRetired, IsSection, IsEntry;
    var e := es[k].(body := body);
    assert ValidEntry(es[k]);
    assert ValidEntry(e);
    var es' := es[k := e];
    forall x | x in es'
      ensures ValidEntry(x)
    {
      assert x == e || x in es;
    }
  }

  lemma SetBodyBlank(s: Sections, k: nat, body: seq<string>)
    requires BlankBeforeRetired(s) && k < |s.entries|
    requires s.entries[k].body != [] && body != []
    requires s.entries[k].body[|s.entries[k].body| - 1] == "" ==> body[|body| - 1] == ""
    ensures BlankBeforeRetired(SetBody(s, k, body))
  {
    hide FlatEntries;
    var es := s.entries;
    var e := es[k];
    var es' := SetBody(s, k, body).entries;
    assert es'[..k] == es[..k] && es'[k + 1..] == es[k + 1..];
    FlatEntriesAt(es, k);
    FlatEntriesAt(es', k);
    var front, rest := FlatEntries(es[..k]), e.tail + FlatEntries(es[k + 1..]);
    LastOf(s.mid + front, e.body, rest);
    LastOf(s.mid + front, body, rest);
    Regroup3(s.mid, front, e.body, rest);
    Regroup3(s.mid, front, body, rest);
  }

  lemma EntryIsNotEmpty(did: string, body: seq<string>)
    requires IsEntry(did, body)
    ensures body != []
  {
    hide DirId, IsSection;
  }

  /** Rewriting one entry keeps the document well formed if its blank last line stays. */
  lemma SetBodyValid(s: Sections, k: nat, body: seq<string>)
    requires Valid(s) && k < |s.entries| && IsEntry(s.entries[k].id, body)
    requires s.entries[k].body != []
    requires s.entries[k].body[|s.entries[k].body| - 1] == "" ==> body[|body| - 1] == ""
    ensures Valid(SetBody(s, k, body))
    ensures BeforeSpan(SetBody(s, k, body), k) == BeforeSpan(s, k)
    ensures AfterSpan(SetBody(s, k, body), k) == AfterSpan(s, k)
  {
    hide DirId, IsRow, IsRetired, IsIndexHeader, IsRetiredHeader, IsSection, ValidEntries, IsEntry, FlatEntries, BlankBeforeRetired;
    SetBodyEntries(s.entries, k, body);
    EntryIsNotEmpty(s.entries[k].id, body);
    SetBodyBlank(s, k, body);
    var es' := SetBody(s, k, body).entries;
    assert es'[..k] == s.entries[..k] && es'[k + 1..] == s.entries[k + 1..];
  }

  lemma FlatEntriesAt(es: seq<Entry>, k: nat)
    requires k < |es|
    ensures FlatEntries(es) == FlatEntries(es[..k]) + (es[k].body + (es[k].tail + FlatEntries(es[k + 1..])))
  {
    hide FlatEntries;
    assert es == es[..k] + es[k..];
    FlatEntriesSplit(es[..k], es[k..]);
    FlatEntriesHead(es, k);
  }

  lemma FlatEntriesHead(es: seq<Entry>, k: nat)
    requires k < |es|
    ensures FlatEntries(es[k..]) == es[k].body + (es[k].tail + FlatEntries(es[k + 1..]))
  {
    assert es[k..][1..] == es[k + 1..];
    Assoc3(es[k].body, es[k].tail, FlatEntries(es[k + 1..]));
  }

  lemma Assoc3(a: seq<string>, b: seq<string>, c: seq<string>)
    ensures a + b + c == a + (b + c)
  {}

  lemma Regroup3(a: seq<string>, b: seq<string>, c: seq<string>, d: seq<string>)
    ensures a + (b + (c + d)) == a + b + c + d
  {}

  lemma LastOf(a: seq<string>, b: seq<string>, c: seq<string>)
    requires b != []
    ensures (a + b + c)[|a + b + c| - 1] == if c == [] then b[|b| - 1] else c[|c| - 1]
  {}

  lemma AddEntryValid(s: Sections, did: string, body: seq<string>)
    requires Valid(s) && EntryIndex(s.entries, did) == |s.entries|
    requires IsEntry(did, body) && body[|body| - 1] == ""
    ensures Valid(s.(entries := s.entries + [Entry(did, body, [])]))
    ensures FlatEntries(s.entries + [Entry(did, body, [])]) == FlatEntries(s.entries) + body
  {
    hide DirId, IsRow, IsRetired, IsIndexHeader, IsRetiredHeader, IsSection, FlatEntries, IsEntry, EndsInHeader, NoHeading, NoRetired,
      AllRows, NotRowFirst;
    var e := Entry(did, body, []);
    EntryIsNotEmpty(did, body);
    FlatOneMore(s.entries, e);
    EntriesOneMore(s.entries, e);
    LastOf(s.mid + FlatEntries(s.entries), body, []);
    AboveOneMore(s.mid, FlatEntries(s.entries), body);
  }

  lemma FlatOneMore(es: seq<Entry>, e: Entry)
    ensures FlatEntries(es + [e]) == FlatEntries(es) + (e.body + e.tail)
    ensures e.tail == [] ==> e.body + e.tail == e.body
  {
    FlatEntriesSplit(es, [e]);
    assert FlatEntries([e]) == e.body + e.tail + FlatEntries([]);
  }

  lemma EntriesOneMore(es: seq<Entry>, e: Entry)
    requires ValidEntries(es) && EntryIndex(es, e.id) == |es| && IsEntry(e.id, e.body) && e.tail == []
    ensures ValidEntries(es + [e])
  {
    hide IsEntry;
    assert ValidEntry(e);
  }

  lemma AboveOneMore(a: seq<string>, b: seq<string>, c: seq<string>)
    ensures a + (b + c) == a + b + c + []
  {}
}
