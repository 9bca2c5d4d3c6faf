/** Reading a mission's journal page by page from a server that may answer anything. */
module JournalPages {

  type Row = string

  /** An answer to one GET: a failure, or a page with or without a has_more key. */
  datatype Answer = Failure | Page(rows: seq<Row>, hasMore: More)

  datatype More = Absent | Yes | No

  /** What the reader returns: the rows and whether the page cap was hit, or an exception. */
  datatype Fetch = Rows(rows: seq<Row>, capped: bool) | Raised

  /** The server: its answer to the i-th request, for the page that starts at an offset. */
  type Server = (nat, nat) -> Answer

  const PAGE_SIZE := 100
  const MAX_PAGES := 1000

  function Concat(pages: seq<seq<Row>>): seq<Row> {
    if pages == [] then [] else Concat(pages[..|pages| - 1]) + pages[|pages| - 1]
  }

  /** The answer to request i of a paged read: the page that starts where the ones before it ended. */
  function AnswerTo(server: Server, pages: seq<seq<Row>>, i: nat): Answer
    requires i <= |pages|
  {
    server(i, |Concat(pages[..i])|)
  }

  predicate SaysMore(a: Answer) {
    a.Page? && a.hasMore == Yes
  }

  /** Each page is what the server sent for its offset; every page before the last had rows and was not the end. */
  ghost predicate ReadSoFar(server: Server, pages: seq<seq<Row>>) {
    && (forall i :: 0 <= i < |pages| ==> AnswerTo(server, pages, i).Page? && AnswerTo(server, pages, i).rows == pages[i])
    && (forall i :: 0 <= i < |pages| - 1 ==> SaysMore(AnswerTo(server, pages, i)) && pages[i] != [])
  }

  lemma ReadOneMore(server: Server, pages: seq<seq<Row>>, page: seq<Row>)
    requires ReadSoFar(server, pages)
    requires pages != [] ==> SaysMore(AnswerTo(server, pages, |pages| - 1)) && pages[|pages| - 1] != []
    requires AnswerTo(server, pages, |pages|).Page? && AnswerTo(server, pages, |pages|).rows == page
    ensures ReadSoFar(server, pages + [page])
    ensures Concat(pages + [page]) == Concat(pages) + page
    ensures AnswerTo(server, pages + [page], |pages|) == AnswerTo(server, pages, |pages|)
  {
    hide Concat, SaysMore, AnswerTo;
    var more := pages + [page];
    forall i | 0 <= i <= |pages|
      ensures AnswerTo(server, more, i) == AnswerTo(server, pages, i)
    {
      AnswerStays(server, pages, page, i);
    }
    ConcatOne(pages, page);
    assert forall i :: 0 <= i < |pages| ==> more[i] == pages[i];
  }

  lemma AnswerStays(server: Server, pages: seq<seq<Row>>, page: seq<Row>, i: nat)
    requires i <= |pages|
    ensures AnswerTo(server, pages + [page], i) == AnswerTo(server, pages, i)
  {
    assert (pages + [page])[..i] == pages[..i];
  }

  lemma ConcatOne(pages: seq<seq<Row>>, page: seq<Row>)
    ensures Concat(pages + [page]) == Concat(pages) + page
  {
    assert (pages + [page])[..|pages|] == pages;
  }

  /**
   * The paged read. Whatever the server does it stops after at most a thousand requests; what
   * it returns is every row it was sent, in order, and it returns only when the server says
   * there are no more.
   */
  method FetchJournal(server: Server) returns (r: Fetch, ghost pages: seq<seq<Row>>, requests: nat)
    ensures requests <= 1000
    ensures r == Read(server)
    ensures r.Rows? && server(0, 0).Page? && server(0, 0).hasMore != Absent ==>
              && pages != [] && |pages| == requests && ReadSoFar(server, pages)
              && AnswerTo(server, pages, requests - 1).Page? && AnswerTo(server, pages, requests - 1).hasMore == No
              && r.rows == Concat(pages) && !r.capped
    ensures r.Rows? && server(0, 0).Page? && server(0, 0).hasMore == Absent ==>
              requests == 1 && r.rows == server(0, 0).rows && (r.capped <==> |r.rows| >= 100)
    ensures server(0, 0).Failure? ==> r.Raised?
  {
    hide Concat, ReadSoFar, AnswerTo;
    pages := [];
    requests := 1;
    var body := server(0, 0);
    if body.Failure? { return Raised, pages, requests; }
    if body.hasMore == Absent {
      return Rows(body.rows, |body.rows| >= PAGE_SIZE), pages, requests;
    }
    var rows: seq<Row> := [];
    var offset := 0;
    var count := 0;
    NothingRead(server);
    while true
      invariant count < MAX_PAGES && requests == count + 1 && |pages| == count
      invariant rows == Concat(pages) && offset == |rows|
      invariant body == server(count, offset) && body.Page?
      invariant ReadSoFar(server, pages)
      invariant pages != [] ==> SaysMore(AnswerTo(server, pages, count - 1)) && pages[count - 1] != []
      invariant Read(server) == ReadFrom(server, count, offset, rows)
      decreases MAX_PAGES - count
    {
      var page := body.rows;
      NextAnswer(server, pages);
      ReadOneMore(server, pages, page);
      pages := pages + [page];
      rows := rows + page;
      assert AnswerTo(server, pages, count) == body && pages[count] == page;
      count := count + 1;
      if body.hasMore == Absent { return Raised, pages, requests; }
      if body.hasMore == No { return Rows(rows, false), pages, requests; }
      if page == [] { return Raised, pages, requests; }
      if count >= MAX_PAGES { return Raised, pages, requests; }
      offset := offset + |page|;
      body := server(count, offset);
      requests := requests + 1;
      if body.Failure? { return Raised, pages, requests; }
    }
  }

  lemma NextAnswer(server: Server, pages: seq<seq<Row>>)
    ensures AnswerTo(server, pages, |pages|) == server(|pages|, |Concat(pages)|)
  {
    assert pages[..|pages|] == pages;
  }

  lemma NothingRead(server: Server)
    ensures ReadSoFar(server, []) && Concat([]) == []
  {}

  /** The paged read as a function: the read that has made `count` requests and holds `rows`. */
  function ReadFrom(server: Server, count: nat, offset: nat, rows: seq<Row>): Fetch
    requires count < MAX_PAGES
    decreases MAX_PAGES - count
  {
    match server(count, offset)
    case Failure => Raised
    case Page(page, Absent) => Raised
    case Page(page, No) => Rows(rows + page, false)
    case Page(page, Yes) =>
      if page == [] || count + 1 >= MAX_PAGES then Raised
      else ReadFrom(server, count + 1, offset + |page|, rows + page)
  }

  function Read(server: Server): Fetch {
    var first := server(0, 0);
    if first.Page? && first.hasMore == Absent then Rows(first.rows, |first.rows| >= PAGE_SIZE)
    else ReadFrom(server, 0, 0, [])
  }

  // ------------------------------------------------------------------
  // A server that pages a list correctly
  // ------------------------------------------------------------------

  /** One page of a list, and whether any row follows it. */
  function PageOf(list: seq<Row>, size: nat, offset: nat): Answer {
    if offset + size < |list| then Page(list[offset..offset + size], Yes)
    else Page(if offset <= |list| then list[offset..] else [], No)
  }

  lemma {:induction false} ReadFixedFrom(list: seq<Row>, size: nat, count: nat, offset: nat)
    requires size > 0 && count < MAX_PAGES && offset == count * size && offset <= |list|
    requires count > 0 ==> offset < |list|
    ensures var server := (i: nat, o: nat) => PageOf(list, size, o);
            ReadFrom(server, count, offset, list[..offset]) ==
              if |list| <= MAX_PAGES * size then Rows(list, false) else Raised
    decreases MAX_PAGES - count
  {
    if offset + size < |list| {
      var page := list[offset..offset + size];
      assert list[..offset] + page == list[..offset + size];
      if count + 1 < MAX_PAGES {
        Times(count, size);
        ReadFixedFrom(list, size, count + 1, offset + size);
      } else {
        Times(count, size);
        assert MAX_PAGES * size == offset + size;
      }
    } else {
      assert list[..offset] + list[offset..] == list;
      Times(count, size);
      Monotone(count + 1, MAX_PAGES, size);
    }
  }

  lemma Times(count: nat, size: nat)
    ensures (count + 1) * size == count * size + size
  {}

  lemma Monotone(a: nat, b: nat, size: nat)
    requires a <= b
    ensures a * size <= b * size
  {}

  /** Against a server that pages a fixed list, the read is that list, exactly when it fits in a thousand pages. */
  lemma ReadIsTheList(list: seq<Row>, size: nat)
    requires size > 0
    ensures var server := (i: nat, o: nat) => PageOf(list, size, o);
            Read(server) == if |list| <= 1000 * size then Rows(list, false) else Raised
  {
    ReadFixedFrom(list, size, 0, 0);
    assert list[..0] == [];
  }

  // ------------------------------------------------------------------
  // A journal that grows while it is read
  // ------------------------------------------------------------------

  /** The journal at each request, newest row first: later ones hold more rows in front. */
  predicate Grows(journal: nat -> seq<Row>, i: nat) {
    |journal(i)| <= |journal(i + 1)| && journal(i + 1)[|journal(i + 1)| - |journal(i)|..] == journal(i)
  }

  /** The rows of the first journal that the read has passed, at request i and offset. */
  predicate Passed(first: seq<Row>, now: seq<Row>, offset: nat, rows: seq<Row>) {
    |first| <= |now| && now[|now| - |first|..] == first
    && forall j :: 0 <= j < |first| && |now| - |first| + j < offset ==> first[j] in rows
  }

  lemma {:induction false} ReadGrowingFrom(server: Server, journal: nat -> seq<Row>, size: nat, count: nat, offset: nat, rows: seq<Row>)
    requires size > 0 && count < MAX_PAGES
    requires forall i: nat :: Grows(journal, i)
    requires forall i: nat, o: nat :: server(i, o) == PageOf(journal(i), size, o)
    requires Passed(journal(0), journal(count), offset, rows)
    ensures var r := ReadFrom(server, count, offset, rows);
            r.Rows? ==> forall x <- journal(0) :: x in r.rows
    decreases MAX_PAGES - count
  {
    hide Passed, Grows;
    var now := journal(count);
    assert server(count, offset) == PageOf(now, size, offset);
    if offset + size < |now| {
      if count + 1 < MAX_PAGES {
        assert Grows(journal, count);
        GrowsTo(journal, count);
        PassedMore(journal(0), now, journal(count + 1), offset, size, rows);
        ReadGrowingFrom(server, journal, size, count + 1, offset + size, rows + now[offset..offset + size]);
      }
    } else {
      PassedAll(journal(0), now, offset, rows);
    }
  }

  lemma GrowsTo(journal: nat -> seq<Row>, i: nat)
    requires Grows(journal, i)
    ensures |journal(i)| <= |journal(i + 1)| && journal(i + 1)[|journal(i + 1)| - |journal(i)|..] == journal(i)
  {}

  lemma PassedAll(first: seq<Row>, now: seq<Row>, offset: nat, rows: seq<Row>)
    requires Passed(first, now, offset, rows)
    ensures forall x <- first :: x in rows + (if offset <= |now| then now[offset..] else [])
  {
    var skip := |now| - |first|;
    var page := if offset <= |now| then now[offset..] else [];
    forall x | x in first
      ensures x in rows + page
    {
      var j :| 0 <= j < |first| && first[j] == x;
      assert now[skip..][j] == now[skip + j];
      if skip + j >= offset {
        assert page[skip + j - offset] == x;
      }
    }
  }

  lemma PassedMore(first: seq<Row>, now: seq<Row>, later: seq<Row>, offset: nat, size: nat, rows: seq<Row>)
    requires Passed(first, now, offset, rows) && offset + size < |now|
    requires |now| <= |later| && later[|later| - |now|..] == now
    ensures Passed(first, later, offset + size, rows + now[offset..offset + size])
  {
    var skip, grown := |now| - |first|, |later| - |first|;
    var page := now[offset..offset + size];
    assert later[grown..] == first by {
      assert later[|later| - |now|..][skip..] == later[grown..];
    }
    forall j | 0 <= j < |first| && grown + j < offset + size
      ensures first[j] in rows + page
    {
      assert now[skip..][j] == now[skip + j];
      if skip + j >= offset {
        assert page[skip + j - offset] == first[j];
      }
    }
  }

  /** Rows appended between two requests can make a page repeat a row, but no row that was there at the start is missed. */
  lemma GrowingJournalMissesNothing(journal: nat -> seq<Row>, size: nat)
    requires size > 0 && forall i: nat :: Grows(journal, i)
    ensures var server := (i: nat, o: nat) => PageOf(journal(i), size, o);
            Read(server).Rows? ==> forall x <- journal(0) :: x in Read(server).rows
  {
    ReadGrowingFrom((i: nat, o: nat) => PageOf(journal(i), size, o), journal, size, 0, 0, []);
  }
}
