/** Reconciling findings: creating the missing ones and mirroring the decisions the file records. */
module ReconcileFindings {
  import opened Options

  datatype Key = Key(date: string, target: string, suggestion: string)

  /** One entry of the file; `written` is the status as written there, and the last two go with a decision. */
  datatype Finding = Finding(key: Key, written: string, approver: string, dateApproved: string)

  /** A stored finding. Rows are numbered in the order they were created. */
  datatype Row = Row(key: Key, status: string)

  const PROPOSED := "proposed"

  predicate IsStatus(s: string) {
    s in {"proposed", "approved", "applied", "rejected", "retired", "superseded"}
  }

  /** The status the file asks for; an unknown one asks for nothing. */
  function Wanted(f: Finding): string {
    if IsStatus(f.written) then f.written else PROPOSED
  }

  predicate Decided(f: Finding) {
    Wanted(f) != PROPOSED
  }

  /** The moves of a finding's status that the service takes. */
  predicate CanMove(current: string, wanted: string) {
    match current
    case "proposed" => wanted in {"approved", "applied", "rejected", "retired", "superseded"}
    case "approved" => wanted in {"applied", "rejected", "retired", "superseded", "proposed"}
    case "applied" => wanted in {"retired", "superseded", "proposed"}
    case "rejected" => wanted == "proposed"
    case "retired" => wanted == "proposed"
    case "superseded" => wanted == "proposed"
    case _ => false
  }

  /**
   * The moves as rules: an open finding takes any other status, a closed one is only reopened, and
   * an applied one can also be retired or superseded.
   */
  lemma MovesAre(current: string, wanted: string)
    requires IsStatus(current) && IsStatus(wanted)
    ensures CanMove(current, wanted) <==>
              && current != wanted
              && (|| current in {"proposed", "approved"} || wanted == "proposed"
                  || (current == "applied" && wanted in {"retired", "superseded"}))
  {}

  const MAX_APPROVER := 128
  const MAX_DATE := 64

  /** An entry's approver and date are sent as written; the service refuses longer ones. */
  predicate Sendable(f: Finding) {
    |f.approver| <= MAX_APPROVER && |f.dateApproved| <= MAX_DATE
  }

  /** The service takes f's decision on a row of that status; a same-status one changes nothing. */
  predicate Accepted(f: Finding, current: string) {
    Sendable(f) && (current == Wanted(f) || CanMove(current, Wanted(f)))
  }

  /** The status after the service was asked for f's decision. */
  function Moved(current: string, f: Finding): string {
    if Accepted(f, current) then Wanted(f) else current
  }

  /** The same target and suggestion, whatever the dates. */
  predicate SamePair(a: Key, b: Key) {
    a.target == b.target && a.suggestion == b.suggestion
  }

  // ------------------------------------------------------------------
  // Matching an entry with a row
  // ------------------------------------------------------------------

  /** The oldest row with the key: later rows of the listing, which is newest first, replace earlier ones. */
  function Oldest(rows: seq<Row>, k: Key): (r: Option<nat>)
    ensures r.Some? ==> r.value < |rows| && rows[r.value].key == k && forall i :: 0 <= i < r.value ==> rows[i].key != k
    ensures r.None? ==> forall i :: 0 <= i < |rows| ==> rows[i].key != k
  {
    if rows == [] then None
    else
      var front := Oldest(rows[..|rows| - 1], k);
      if front.Some? then front
      else if rows[|rows| - 1].key == k then Some(|rows| - 1)
      else None
  }

  /** The newest row with the target and suggestion. */
  function Newest(rows: seq<Row>, k: Key): (r: Option<nat>)
    ensures r.Some? ==> r.value < |rows| && SamePair(rows[r.value].key, k) && forall i :: r.value < i < |rows| ==> !SamePair(rows[i].key, k)
    ensures r.None? ==> forall i :: 0 <= i < |rows| ==> !SamePair(rows[i].key, k)
  {
    if rows == [] then None
    else if SamePair(rows[|rows| - 1].key, k) then Some(|rows| - 1)
    else Newest(rows[..|rows| - 1], k)
  }

  /** The row an entry stands for, if the service has one. */
  function Match(rows: seq<Row>, k: Key): (r: Option<nat>)
    ensures r.Some? ==> r.value < |rows| && SamePair(rows[r.value].key, k)
    ensures r.None? <==> forall i :: 0 <= i < |rows| ==> !SamePair(rows[i].key, k)
  {
    if Oldest(rows, k).Some? then Oldest(rows, k) else Newest(rows, k)
  }

  // ------------------------------------------------------------------
  // One pass
  // ------------------------------------------------------------------

  /** The rows, the requests made after the listing, and the tallies. */
  datatype Run = Run(rows: seq<Row>, requests: nat, created: nat, skipped: nat, decided: nat, failed: nat)

  /** `answers(n)` says whether the n-th request reaches the service and is answered. */
  function Decide(r: Run, i: nat, status: string, f: Finding, answers: nat -> bool): Run
    requires i < |r.rows|
  {
    if !Decided(f) || status == Wanted(f) then r
    else if !answers(r.requests) || !Accepted(f, r.rows[i].status) then r.(requests := r.requests + 1, failed := r.failed + 1)
    else r.(rows := r.rows[i := r.rows[i].(status := Wanted(f))], requests := r.requests + 1, decided := r.decided + 1)
  }

  function Create(r: Run, f: Finding, answers: nat -> bool): Run {
    if !answers(r.requests) then r.(requests := r.requests + 1, failed := r.failed + 1)
    else
      var c := r.(rows := r.rows + [Row(f.key, PROPOSED)], requests := r.requests + 1, created := r.created + 1);
      if !Decided(f) then c
      else if !answers(c.requests) then c.(requests := c.requests + 1, failed := c.failed + 1)
      else Decide(c.(requests := c.requests + 1), |r.rows|, PROPOSED, f, answers)
  }

  /** One entry, compared with the rows listed before the pass. */
  function StepOne(r: Run, listed: seq<Row>, f: Finding, answers: nat -> bool): (q: Run)
    requires |listed| <= |r.rows|
    ensures |r.rows| <= |q.rows|
  {
    match Match(listed, f.key)
    case Some(i) => Decide(r.(skipped := r.skipped + 1), i, listed[i].status, f, answers)
    case None => Create(r, f, answers)
  }

  function Pass(listed: seq<Row>, findings: seq<Finding>, answers: nat -> bool): (r: Run)
    ensures |listed| <= |r.rows|
  {
    if findings == [] then Run(listed, 0, 0, 0, 0, 0)
    else StepOne(Pass(listed, findings[..|findings| - 1], answers), listed, findings[|findings| - 1], answers)
  }

  // ------------------------------------------------------------------
  // Indexing the listing
  // ------------------------------------------------------------------

  type Pair = (string, string)

  function PairOf(k: Key): Pair {
    (k.target, k.suggestion)
  }

  /** The oldest row of each key among the rows from i on. */
  predicate OldestFrom(existing: map<Key, nat>, rows: seq<Row>, i: nat) {
    && (forall k <- existing :: i <= existing[k] < |rows| && rows[existing[k]].key == k)
    && (forall j :: 0 <= i <= j < |rows| ==> rows[j].key in existing && existing[rows[j].key] <= j)
  }

  /** The newest row of each target and suggestion among the rows from i on. */
  predicate NewestFrom(undated: map<Pair, nat>, rows: seq<Row>, i: nat) {
    && (forall p <- undated :: i <= undated[p] < |rows| && PairOf(rows[undated[p]].key) == p)
    && (forall j :: 0 <= i <= j < |rows| ==> PairOf(rows[j].key) in undated && j <= undated[PairOf(rows[j].key)])
  }

  lemma FoundOldest(existing: map<Key, nat>, rows: seq<Row>, k: Key)
    requires OldestFrom(existing, rows, 0)
    ensures Oldest(rows, k) == if k in existing then Some(existing[k]) else None
  {}

  lemma FoundNewest(undated: map<Pair, nat>, rows: seq<Row>, k: Key)
    requires NewestFrom(undated, rows, 0)
    ensures Newest(rows, k) == if PairOf(k) in undated then Some(undated[PairOf(k)]) else None
  {}

  lemma NothingIndexed(rows: seq<Row>)
    ensures OldestFrom(map[], rows, |rows|) && NewestFrom(map[], rows, |rows|)
  {}

  lemma OldestOneMore(existing: map<Key, nat>, rows: seq<Row>, i: nat)
    requires i < |rows| && OldestFrom(existing, rows, i + 1)
    ensures OldestFrom(existing[rows[i].key := i], rows, i)
  {}

  lemma NewestOneMore(undated: map<Pair, nat>, rows: seq<Row>, i: nat)
    requires i < |rows| && NewestFrom(undated, rows, i + 1)
    ensures var p := PairOf(rows[i].key); NewestFrom(if p in undated then undated else undated[p := i], rows, i)
  {
    hide PairOf;
  }

  /** The two dictionaries, built while going down the listing, newest row first. */
  method Index(listed: seq<Row>) returns (existing: map<Key, nat>, undated: map<Pair, nat>)
    ensures OldestFrom(existing, listed, 0) && NewestFrom(undated, listed, 0)
  {
    hide OldestFrom, NewestFrom;
    existing, undated := map[], map[];
    NothingIndexed(listed);
    for i := |listed| downto 0
      invariant OldestFrom(existing, listed, i) && NewestFrom(undated, listed, i)
    {
      var k := listed[i].key;
      OldestOneMore(existing, listed, i);
      NewestOneMore(undated, listed, i);
      existing := existing[k := i];
      if PairOf(k) !in undated {
        undated := undated[PairOf(k) := i];
      }
    }
  }

  /** The first row with the key among the fifty newest. */
  method Refetch(rows: seq<Row>, k: Key) returns (r: Option<nat>)
    ensures rows != [] && rows[|rows| - 1].key == k ==> r == Some(|rows| - 1)
    ensures r.Some? ==> r.value < |rows| && rows[r.value].key == k && |rows| <= r.value + 50
  {
    for i := |rows| downto if |rows| < 50 then 0 else |rows| - 50
      invariant rows != [] && rows[|rows| - 1].key == k ==> i == |rows|
    {
      if rows[i].key == k {
        return Some(i);
      }
    }
    r := None;
  }

  /** An entry the service has no row for: created, found again by its key, and decided. */
  method SendMissing(before: Run, f: Finding, answers: nat -> bool) returns (r: Run)
    ensures r == Create(before, f, answers)
  {
    hide Wanted;
    r := before.(requests := before.requests + 1);
    if !answers(before.requests) {
      return r.(failed := r.failed + 1);
    }
    r := r.(rows := r.rows + [Row(f.key, PROPOSED)], created := r.created + 1);
    if !Decided(f) {
      return r;
    }
    r := r.(requests := r.requests + 1);
    if !answers(r.requests - 1) {
      return r.(failed := r.failed + 1);
    }
    var row := Refetch(r.rows, f.key); // the row just created is the newest
    r := Decide(r, row.value, r.rows[row.value].status, f, answers);
  }

  /** The pass; every entry read is created, found, or counted as failed. */
  method ReconcileFindings(listed: seq<Row>, findings: seq<Finding>, answers: nat -> bool) returns (r: Run)
    ensures r == Pass(listed, findings, answers)
    ensures r.created + r.skipped <= |findings| <= r.created + r.skipped + r.failed
    ensures |r.rows| == |listed| + r.created
  {
    hide Oldest, Newest, Wanted, StepOne, Decide, Create;
    var existing, undated := Index(listed);
    r := Run(listed, 0, 0, 0, 0, 0);
    for n := 0 to |findings|
      invariant r == Pass(listed, findings[..n], answers)
      invariant r.created + r.skipped <= n <= r.created + r.skipped + r.failed
      invariant |r.rows| == |listed| + r.created
    {
      assert findings[..n + 1][..n] == findings[..n];
      var f := findings[n];
      StepCounts(r, listed, f, answers);
      FoundOldest(existing, listed, f.key);
      FoundNewest(undated, listed, f.key);
      if f.key in existing {
        r := Decide(r.(skipped := r.skipped + 1), existing[f.key], listed[existing[f.key]].status, f, answers);
      } else if PairOf(f.key) in undated {
        var i := undated[PairOf(f.key)];
        r := Decide(r.(skipped := r.skipped + 1), i, listed[i].status, f, answers);
      } else {
        r := SendMissing(r, f, answers);
      }
    }
    assert findings[..|findings|] == findings;
  }

  lemma StepCounts(r: Run, listed: seq<Row>, f: Finding, answers: nat -> bool)
    requires |listed| <= |r.rows|
    ensures var q := StepOne(r, listed, f, answers);
            && |q.rows| - |r.rows| == q.created - r.created
            && r.created + r.skipped <= q.created + q.skipped <= r.created + r.skipped + 1
            && r.created + r.skipped + r.failed + 1 <= q.created + q.skipped + q.failed
            && q == match Match(listed, f.key) {
                      case Some(i) => Decide(r.(skipped := r.skipped + 1), i, listed[i].status, f, answers)
                      case None => Create(r, f, answers)
                    }
  {
    hide Match, Wanted;
  }

  // ------------------------------------------------------------------
  // What a pass in which nothing fails leaves
  // ------------------------------------------------------------------

  function Always(): nat -> bool {
    n => true
  }

  function After(listed: seq<Row>, findings: seq<Finding>): seq<Row> {
    Pass(listed, findings, Always()).rows
  }

  /** The requests after the listing. */
  function Requests(listed: seq<Row>, findings: seq<Finding>): nat {
    Pass(listed, findings, Always()).requests
  }

  /** Entry f decides row i. */
  predicate Decides(listed: seq<Row>, f: Finding, i: nat)
    requires i < |listed|
  {
    Match(listed, f.key) == Some(i) && Decided(f) && listed[i].status != Wanted(f)
  }

  /** The status of a listed row after the pass: each decision asked for moves it if the service takes it. */
  function FinalStatus(listed: seq<Row>, findings: seq<Finding>, i: nat): string
    requires i < |listed|
  {
    if findings == [] then listed[i].status
    else
      var f, before := findings[|findings| - 1], FinalStatus(listed, findings[..|findings| - 1], i);
      if Decides(listed, f, i) then Moved(before, f) else before
  }

  /** The status a created row ends in. */
  function NewStatus(f: Finding): string {
    if Decided(f) then Moved(PROPOSED, f) else PROPOSED
  }

  /** The rows created, with the statuses they end in. */
  function New(listed: seq<Row>, findings: seq<Finding>): seq<Row> {
    if findings == [] then []
    else
      var f := findings[|findings| - 1];
      New(listed, findings[..|findings| - 1]) + (if Match(listed, f.key).None? then [Row(f.key, NewStatus(f))] else [])
  }

  predicate IsAfter(rows: seq<Row>, listed: seq<Row>, findings: seq<Finding>) {
    && |rows| >= |listed|
    && (forall i :: 0 <= i < |listed| ==> rows[i] == Row(listed[i].key, FinalStatus(listed, findings, i)))
    && rows[|listed|..] == New(listed, findings)
  }

  lemma StepAlways(r: Run, listed: seq<Row>, f: Finding)
    requires |listed| <= |r.rows|
    ensures var q := StepOne(r, listed, f, Always());
            q.rows == match Match(listed, f.key) {
                        case None => r.rows + [Row(f.key, NewStatus(f))]
                        case Some(i) => if Decides(listed, f, i) then r.rows[i := r.rows[i].(status := Moved(r.rows[i].status, f))] else r.rows
                      }
    ensures StepOne(r, listed, f, Always()).requests == r.requests <==> IsCurrent(listed, f)
    ensures StepOne(r, listed, f, Always()).requests >= r.requests
  {
    hide Match, Wanted, CanMove, Sendable;
  }

  /** The service already has what the entry says. */
  predicate IsCurrent(listed: seq<Row>, f: Finding) {
    var row := Match(listed, f.key);
    row.Some? && (Decided(f) ==> listed[row.value].status == Wanted(f))
  }

  lemma {:induction false} AfterIs(listed: seq<Row>, findings: seq<Finding>)
    ensures IsAfter(After(listed, findings), listed, findings)
  {
    hide Match, Wanted, StepOne, Decides, Moved, NewStatus;
    if findings == [] {
      assert listed[|listed|..] == [];
    } else {
      var front, f := findings[..|findings| - 1], findings[|findings| - 1];
      AfterIs(listed, front);
      StepAlways(Pass(listed, front, Always()), listed, f);
      MatchInside(listed, f.key);
      var before, after := After(listed, front), After(listed, findings);
      if Match(listed, f.key).None? {
        assert after[|listed|..] == before[|listed|..] + [Row(f.key, NewStatus(f))];
        NoDecision(listed, f);
      } else {
        var i := Match(listed, f.key).value;
        OneDecision(listed, f, i);
        assert after[|listed|..] == before[|listed|..];
      }
    }
  }

  lemma MatchInside(listed: seq<Row>, k: Key)
    ensures Match(listed, k).Some? ==> Match(listed, k).value < |listed|
  {}

  lemma NoDecision(listed: seq<Row>, f: Finding)
    requires Match(listed, f.key).None?
    ensures forall i :: 0 <= i < |listed| ==> !Decides(listed, f, i)
  {}

  lemma OneDecision(listed: seq<Row>, f: Finding, i: nat)
    requires Match(listed, f.key) == Some(i)
    ensures forall j :: 0 <= j < |listed| && j != i ==> !Decides(listed, f, j)
  {}

  lemma {:induction false} NoRequestsIff(listed: seq<Row>, findings: seq<Finding>)
    ensures Requests(listed, findings) == 0 <==> forall f <- findings :: IsCurrent(listed, f)
  {
    hide IsCurrent, StepOne;
    if findings != [] {
      var front, f := findings[..|findings| - 1], findings[|findings| - 1];
      assert findings == front + [f];
      StepAlways(Pass(listed, front, Always()), listed, f);
      NoRequestsIff(listed, front);
    }
  }

  // ------------------------------------------------------------------
  // Matching after the pass
  // ------------------------------------------------------------------

  lemma OldestIs(rows: seq<Row>, k: Key, i: nat)
    requires i < |rows| && rows[i].key == k && forall j :: 0 <= j < i ==> rows[j].key != k
    ensures Oldest(rows, k) == Some(i)
  {}

  lemma NewestIs(rows: seq<Row>, k: Key, i: nat)
    requires i < |rows| && SamePair(rows[i].key, k) && forall j :: i < j < |rows| ==> !SamePair(rows[j].key, k)
    ensures Newest(rows, k) == Some(i)
  {}

  lemma {:induction false} NewPairs(listed: seq<Row>, findings: seq<Finding>)
    ensures forall r <- New(listed, findings) :: Match(listed, r.key).None?
  {
    hide Match, Wanted, NewStatus;
    if findings != [] {
      NewPairs(listed, findings[..|findings| - 1]);
    }
  }

  /** A row that stood for an entry before the pass still does. */
  lemma MatchStays(listed: seq<Row>, findings: seq<Finding>, k: Key)
    requires Match(listed, k).Some?
    ensures Match(After(listed, findings), k) == Match(listed, k)
  {
    hide After, New, FinalStatus;
    var rows := After(listed, findings);
    AfterIs(listed, findings);
    NewPairs(listed, findings);
    var i := Match(listed, k).value;
    forall j | |listed| <= j < |rows|
      ensures !SamePair(rows[j].key, k)
    {
      assert rows[j] == rows[|listed|..][j - |listed|];
      assert rows[j] in New(listed, findings);
    }
    if Oldest(listed, k).Some? {
      OldestIs(rows, k, i);
    } else {
      assert Oldest(rows, k).None?;
      NewestIs(rows, k, i);
    }
  }

  /** The first entry with a key. */
  function FirstWith(findings: seq<Finding>, k: Key): (r: Option<nat>)
    ensures r.Some? ==> r.value < |findings| && findings[r.value].key == k && forall i :: 0 <= i < r.value ==> findings[i].key != k
    ensures r.None? ==> forall i :: 0 <= i < |findings| ==> findings[i].key != k
  {
    if findings == [] then None
    else
      var front := FirstWith(findings[..|findings| - 1], k);
      if front.Some? then front
      else if findings[|findings| - 1].key == k then Some(|findings| - 1)
      else None
  }

  lemma OldestOfMore(rows: seq<Row>, more: seq<Row>, k: Key)
    ensures Oldest(rows, k).Some? ==> Oldest(rows + more, k) == Oldest(rows, k)
    ensures Oldest(rows, k).None? && |more| == 1 ==> Oldest(rows + more, k) == if more[0].key == k then Some(|rows|) else None
  {
    if Oldest(rows, k).Some? {
      OldestIs(rows + more, k, Oldest(rows, k).value);
    } else if |more| == 1 && more[0].key == k {
      OldestIs(rows + more, k, |rows|);
    }
  }

  /** The oldest row created for a key has the status the first entry with it gets. */
  lemma {:induction false} OldestNew(listed: seq<Row>, findings: seq<Finding>, k: Key)
    requires Match(listed, k).None?
    ensures var rows, first := New(listed, findings), FirstWith(findings, k);
            && (Oldest(rows, k).Some? <==> first.Some?)
            && (first.Some? ==> rows[Oldest(rows, k).value].status == NewStatus(findings[first.value]))
  {
    hide Match, NewStatus, Oldest;
    if findings != [] {
      var front, f := findings[..|findings| - 1], findings[|findings| - 1];
      OldestNew(listed, front, k);
      var rows := New(listed, front);
      if Match(listed, f.key).None? {
        OldestOfMore(rows, [Row(f.key, NewStatus(f))], k);
      } else {
        assert New(listed, findings) == rows;
      }
    } else {
      assert Oldest(New(listed, findings), k).None?;
    }
  }

  /** A created entry stands for the oldest row created for its key. */
  lemma MatchNew(listed: seq<Row>, findings: seq<Finding>, f: Finding)
    requires Match(listed, f.key).None? && f in findings
    ensures var rows, row, first := After(listed, findings), Match(After(listed, findings), f.key), FirstWith(findings, f.key);
            row.Some? && first.Some? && rows[row.value].status == NewStatus(findings[first.value])
  {
    hide After, New, FinalStatus, NewStatus, FirstWith, Newest, Oldest;
    var rows, added := After(listed, findings), New(listed, findings);
    AfterIs(listed, findings);
    OldestNew(listed, findings, f.key);
    IsFirst(findings, f);
    assert rows == rows[..|listed|] + rows[|listed|..];
    OldestBehind(rows[..|listed|], added, f.key);
  }

  lemma OldestBehind(listed: seq<Row>, added: seq<Row>, k: Key)
    requires Oldest(added, k).Some? && forall i :: 0 <= i < |listed| ==> listed[i].key != k
    ensures Oldest(listed + added, k) == Some(|listed| + Oldest(added, k).value)
  {
    hide Oldest;
    var rows, j := listed + added, Oldest(added, k).value;
    assert forall i :: 0 <= i < |listed| ==> rows[i] == listed[i];
    assert forall i :: |listed| <= i < |listed| + j ==> rows[i] == added[i - |listed|];
    assert rows[|listed| + j] == added[j];
    OldestIs(rows, k, |listed| + j);
  }

  lemma IsFirst(findings: seq<Finding>, f: Finding)
    requires f in findings
    ensures FirstWith(findings, f.key).Some?
  {}

  // ------------------------------------------------------------------
  // Two passes
  // ------------------------------------------------------------------

  /** Decided entry f stands for row i. */
  predicate Concerns(listed: seq<Row>, f: Finding, i: nat) {
    Decided(f) && Match(listed, f.key) == Some(i)
  }

  /**
   * What must hold of a decided entry before the first pass. If a row stands for it: every
   * decided entry of that row asks for the same, and the row has that status already or can
   * move to it at the word of one whose decision can be sent. Otherwise: the first entry with
   * its key, which creates the row, gets what it asks for.
   */
  predicate Settles(listed: seq<Row>, findings: seq<Finding>, f: Finding) {
    match Match(listed, f.key)
    case Some(i) =>
      && (forall g <- findings :: Concerns(listed, g, i) ==> Wanted(g) == Wanted(f))
      && (|| listed[i].status == Wanted(f)
          || (CanMove(listed[i].status, Wanted(f)) && exists g <- findings :: Concerns(listed, g, i) && Sendable(g)))
    case None =>
      var first := FirstWith(findings, f.key);
      first.Some? && NewStatus(findings[first.value]) == Wanted(f)
  }

  /** A row all of whose deciding entries ask for w ends as w if one of them is taken, and as it was otherwise. */
  lemma {:induction false} AgreedStatus(listed: seq<Row>, findings: seq<Finding>, i: nat, w: string)
    requires i < |listed| && forall g <- findings :: Decides(listed, g, i) ==> Wanted(g) == w
    ensures FinalStatus(listed, findings, i) ==
              if CanMove(listed[i].status, w) && exists g <- findings :: Decides(listed, g, i) && Sendable(g) then w else listed[i].status
  {
    hide Match, Wanted, CanMove, Sendable, Decides;
    if findings != [] {
      var front, f := findings[..|findings| - 1], findings[|findings| - 1];
      assert findings == front + [f];
      AgreedStatus(listed, front, i, w);
      assert f in findings;
      if Decides(listed, f, i) {
        DecidesOther(listed, f, i);
      }
    }
  }

  lemma DecidesOther(listed: seq<Row>, f: Finding, i: nat)
    requires i < |listed| && Decides(listed, f, i)
    ensures listed[i].status != Wanted(f)
  {}

  /** A row ends with its own status or with what one of its entries asks for. */
  lemma {:induction false} FinalSource(listed: seq<Row>, findings: seq<Finding>, i: nat)
    requires i < |listed|
    ensures FinalStatus(listed, findings, i) == listed[i].status
            || exists f <- findings :: Decides(listed, f, i) && FinalStatus(listed, findings, i) == Wanted(f)
  {
    hide Decides, Wanted, Accepted;
    if findings != [] {
      var front, f := findings[..|findings| - 1], findings[|findings| - 1];
      assert findings == front + [f];
      FinalSource(listed, front, i);
      assert f in findings;
    }
  }

  lemma DecidesIff(listed: seq<Row>, f: Finding, i: nat)
    requires i < |listed|
    ensures Decides(listed, f, i) <==> Concerns(listed, f, i) && listed[i].status != Wanted(f)
  {}

  /** The entries of row i all end as they ask exactly when each of them settles. */
  lemma RowSettlesIff(listed: seq<Row>, findings: seq<Finding>, i: nat)
    requires i < |listed|
    ensures (forall f <- findings :: Concerns(listed, f, i) ==> FinalStatus(listed, findings, i) == Wanted(f)) <==>
              forall f <- findings :: Concerns(listed, f, i) ==> Settles(listed, findings, f)
  {
    hide Match, Wanted, CanMove, Sendable, FinalStatus, Decides, FirstWith, NewStatus;
    forall g | g in findings
      ensures Decides(listed, g, i) <==> Concerns(listed, g, i) && listed[i].status != Wanted(g)
    {
      DecidesIff(listed, g, i);
    }
    if f :| f in findings && Concerns(listed, f, i) {
      if forall g <- findings :: Concerns(listed, g, i) ==> Wanted(g) == Wanted(f) {
        AgreedStatus(listed, findings, i, Wanted(f));
      }
    }
  }

  lemma CurrentIff(listed: seq<Row>, findings: seq<Finding>, f: Finding)
    requires f in findings
    ensures Match(listed, f.key).None? ==> (IsCurrent(After(listed, findings), f) <==> (Decided(f) ==> Settles(listed, findings, f)))
    ensures Match(listed, f.key).Some? ==>
              (IsCurrent(After(listed, findings), f) <==> (Decided(f) ==> FinalStatus(listed, findings, Match(listed, f.key).value) == Wanted(f)))
  {
    hide After, Wanted, FinalStatus, Oldest, Newest, NewStatus, FirstWith, CanMove;
    if Match(listed, f.key).Some? {
      MatchStays(listed, findings, f.key);
      AfterIs(listed, findings);
    } else {
      MatchNew(listed, findings, f);
    }
  }

  /**
   * From any store, with every request answered: the second of two passes over an unchanged
   * file asks for nothing exactly when every decided entry settles.
   */
  lemma SecondPassIsQuiet(listed: seq<Row>, findings: seq<Finding>)
    ensures Requests(After(listed, findings), findings) == 0 <==>
              forall f <- findings :: Decided(f) ==> Settles(listed, findings, f)
  {
    hide After, Requests, IsCurrent, Match, Wanted, Settles, FinalStatus;
    NoRequestsIff(After(listed, findings), findings);
    forall f | f in findings
      ensures Match(listed, f.key).None? ==> (IsCurrent(After(listed, findings), f) <==> (Decided(f) ==> Settles(listed, findings, f)))
      ensures Match(listed, f.key).Some? ==>
                (IsCurrent(After(listed, findings), f) <==> (Decided(f) ==> FinalStatus(listed, findings, Match(listed, f.key).value) == Wanted(f)))
    {
      CurrentIff(listed, findings, f);
    }
    forall i | 0 <= i < |listed|
      ensures (forall f <- findings :: Concerns(listed, f, i) ==> FinalStatus(listed, findings, i) == Wanted(f)) <==>
                forall f <- findings :: Concerns(listed, f, i) ==> Settles(listed, findings, f)
    {
      RowSettlesIff(listed, findings, i);
    }
    forall f | f in findings && Decided(f) && Match(listed, f.key).Some?
      ensures Concerns(listed, f, Match(listed, f.key).value)
    {}
  }

  // ------------------------------------------------------------------
  // Files that converge
  // ------------------------------------------------------------------

  /** Decided entries with the same target and suggestion ask for the same status. */
  predicate SameDecision(findings: seq<Finding>) {
    forall f <- findings, g <- findings :: Decided(f) && Decided(g) && SamePair(f.key, g.key) ==> Wanted(f) == Wanted(g)
  }

  /** The first entry of a key is decided if any entry with it is. */
  predicate DecidedFirst(findings: seq<Finding>) {
    forall f <- findings :: Decided(f) ==>
      FirstWith(findings, f.key).Some? && Decided(findings[FirstWith(findings, f.key).value])
  }

  /** No decided entry stands for a row whose status cannot move to what it asks for. */
  predicate NoRefusal(listed: seq<Row>, findings: seq<Finding>) {
    forall f <- findings :: Decided(f) && Match(listed, f.key).Some? ==>
      var i := Match(listed, f.key).value; listed[i].status == Wanted(f) || CanMove(listed[i].status, Wanted(f))
  }

  ghost predicate QuietWhereAllowed(findings: seq<Finding>) {
    forall listed: seq<Row> :: NoRefusal(listed, findings) ==> Requests(After(listed, findings), findings) == 0
  }

  /**
   * A file whose decisions can be sent converges in one pass on every store that refuses none
   * of them, exactly when decided entries with the same target and suggestion agree and no
   * undecided entry comes before the decided ones of its key.
   */
  lemma QuietWhereAllowedIff(findings: seq<Finding>)
    requires forall f <- findings :: Sendable(f)
    ensures QuietWhereAllowed(findings) <==> SameDecision(findings) && DecidedFirst(findings)
  {
    hide After, Requests, Match, Wanted, FirstWith, CanMove, Sendable, Settles;
    if !SameDecision(findings) {
      var f, g :| f in findings && g in findings && Decided(f) && Decided(g) && SamePair(f.key, g.key) && Wanted(f) != Wanted(g);
      DifferentDecisions(findings, f, g);
    } else if !DecidedFirst(findings) {
      var f :| f in findings && Decided(f)
               && !(FirstWith(findings, f.key).Some? && Decided(findings[FirstWith(findings, f.key).value]));
      IsFirst(findings, f);
      UndecidedFirst(findings, f);
    } else {
      forall listed: seq<Row> | NoRefusal(listed, findings)
        ensures Requests(After(listed, findings), findings) == 0
      {
        forall f | f in findings && Decided(f)
          ensures Settles(listed, findings, f)
        {
          AgreedSettles(listed, findings, f);
        }
        SecondPassIsQuiet(listed, findings);
      }
    }
  }

  lemma AgreedSettles(listed: seq<Row>, findings: seq<Finding>, f: Finding)
    requires SameDecision(findings) && DecidedFirst(findings) && NoRefusal(listed, findings)
    requires f in findings && Decided(f) && forall g <- findings :: Sendable(g)
    ensures Settles(listed, findings, f)
  {
    hide Wanted, CanMove, Sendable, Oldest, Newest;
    if Match(listed, f.key).Some? {
      assert Concerns(listed, f, Match(listed, f.key).value);
    } else {
      var g := findings[FirstWith(findings, f.key).value];
      assert g in findings && SamePair(f.key, g.key);
      ProposedMoves(g);
    }
  }

  /** A proposed finding can be decided in every way. */
  lemma ProposedMoves(f: Finding)
    requires Decided(f)
    ensures CanMove(PROPOSED, Wanted(f)) && PROPOSED != Wanted(f)
    ensures Sendable(f) ==> NewStatus(f) == Wanted(f)
  {}

  lemma OneRowMatches(k: Key, f: Finding)
    requires SamePair(f.key, k)
    ensures Match([Row(k, PROPOSED)], f.key) == Some(0)
  {
    if f.key == k {
      OldestIs([Row(k, PROPOSED)], f.key, 0);
    } else {
      NewestIs([Row(k, PROPOSED)], f.key, 0);
    }
  }

  /** One row that two entries decide differently cannot end as both ask. */
  lemma DifferentDecisions(findings: seq<Finding>, f: Finding, g: Finding)
    requires f in findings && g in findings && Decided(f) && Decided(g) && SamePair(f.key, g.key) && Wanted(f) != Wanted(g)
    ensures var listed := [Row(f.key, PROPOSED)]; NoRefusal(listed, findings) && Requests(After(listed, findings), findings) > 0
  {
    hide After, Requests, Wanted, CanMove, Oldest, Newest;
    var listed := [Row(f.key, PROPOSED)];
    OneRowMatches(f.key, f);
    OneRowMatches(f.key, g);
    assert Concerns(listed, g, 0);
    forall h | h in findings && Decided(h)
      ensures CanMove(PROPOSED, Wanted(h))
    {
      ProposedMoves(h);
    }
    SecondPassIsQuiet(listed, findings);
  }

  lemma UndecidedFirst(findings: seq<Finding>, f: Finding)
    requires f in findings && Decided(f)
    requires FirstWith(findings, f.key).Some? && !Decided(findings[FirstWith(findings, f.key).value])
    ensures NoRefusal([], findings) && Requests(After([], findings), findings) > 0
  {
    hide After, Requests, Wanted, FirstWith;
    SecondPassIsQuiet([], findings);
  }

  /**
   * With distinct targets and suggestions, an entry settles exactly when its own decision can
   * be sent and the row it stands for, if any, can take it or has taken it.
   */
  lemma DistinctPairsAreQuiet(listed: seq<Row>, findings: seq<Finding>)
    requires forall i, j :: 0 <= i < j < |findings| ==> !SamePair(findings[i].key, findings[j].key)
    ensures Requests(After(listed, findings), findings) == 0 <==>
              forall f <- findings :: Decided(f) ==>
                match Match(listed, f.key)
                case Some(i) => listed[i].status == Wanted(f) || (CanMove(listed[i].status, Wanted(f)) && Sendable(f))
                case None => Sendable(f)
  {
    hide After, Requests, Wanted, CanMove, Sendable, Oldest, Newest, FirstWith, Settles, Match;
    SecondPassIsQuiet(listed, findings);
    forall f | f in findings && Decided(f)
      ensures Settles(listed, findings, f) <==>
                match Match(listed, f.key)
                case Some(i) => listed[i].status == Wanted(f) || (CanMove(listed[i].status, Wanted(f)) && Sendable(f))
                case None => Sendable(f)
    {
      OnlyOneSettles(listed, findings, f);
    }
  }

  lemma OnlyOneSettles(listed: seq<Row>, findings: seq<Finding>, f: Finding)
    requires forall i, j :: 0 <= i < j < |findings| ==> !SamePair(findings[i].key, findings[j].key)
    requires f in findings && Decided(f)
    ensures Settles(listed, findings, f) <==>
              match Match(listed, f.key)
              case Some(i) => listed[i].status == Wanted(f) || (CanMove(listed[i].status, Wanted(f)) && Sendable(f))
              case None => Sendable(f)
  {
    hide Wanted, CanMove, Sendable, Oldest, Newest, NewStatus;
    forall g | g in findings && SamePair(g.key, f.key)
      ensures g == f
    {
      var i :| 0 <= i < |findings| && findings[i] == f;
      var j :| 0 <= j < |findings| && findings[j] == g;
    }
    if Match(listed, f.key).Some? {
      var i := Match(listed, f.key).value;
      assert Concerns(listed, f, i);
      assert forall g <- findings :: Concerns(listed, g, i) ==> SamePair(g.key, f.key);
    } else {
      IsFirst(findings, f);
      var first := FirstWith(findings, f.key).value;
      assert findings[first] in findings && SamePair(findings[first].key, f.key);
      ProposedMoves(f);
      UnsentStays(f);
    }
  }

  lemma UnsentStays(f: Finding)
    requires Decided(f)
    ensures !Sendable(f) ==> NewStatus(f) == PROPOSED != Wanted(f)
  {}

  /** A finding the service holds as applied and the file as approved is asked for on every pass. */
  lemma AppliedIsAskedAgain(k: Key)
    ensures var listed, findings := [Row(k, "applied")], [Finding(k, "approved", "op", "")];
            Requests(After(listed, findings), findings) > 0
  {
    hide After, Requests, Oldest, Newest, Match;
    var listed, findings := [Row(k, "applied")], [Finding(k, "approved", "op", "")];
    AppliedMatches(k);
    assert findings[0] in findings;
    DistinctPairsAreQuiet(listed, findings);
  }

  lemma AppliedMatches(k: Key)
    ensures Match([Row(k, "applied")], k) == Some(0)
  {
    OldestIs([Row(k, "applied")], k, 0);
  }
}
