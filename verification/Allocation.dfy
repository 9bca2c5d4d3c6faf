/**
 * Mission-id allocation as a state machine: any number of callers, each reading the ids
 * committed so far and inserting some time later, with the primary key deciding.
 */
module Allocation {
  import opened Options
  import opened MissionIds

  datatype Origin = Allocator(caller: nat, date: string) | Elsewhere

  /** One committed mission row. */
  datatype Commit = Commit(id: string, origin: Origin)

  datatype Phase = Reading | Computed(at: nat) | Created(id: string, seqNo: int) | Unavailable | Broken

  /** A request: its date, how many rows were committed when it came, the attempts that collided. */
  datatype Caller = Caller(date: string, start: nat, attempt: nat, phase: Phase)

  datatype State = State(log: seq<Commit>, audit: seq<string>, callers: map<nat, Caller>)

  const RETRY_LIMIT := 10

  function IdsOf(log: seq<Commit>): set<string> {
    set x | x in log :: x.id
  }

  // ------------------------------------------------------------------
  // Steps
  // ------------------------------------------------------------------

  predicate Arrive(s: State, t: State, c: nat, date: string) {
    && c !in s.callers && Receivable(date)
    && t == s.(callers := s.callers[c := Caller(date, |s.log|, 0, Reading)])
  }

  /** The read of an attempt: it sees the rows committed so far. */
  predicate Read(s: State, t: State, c: nat) {
    && c in s.callers && s.callers[c].phase.Reading?
    && t == s.(callers := s.callers[c := s.callers[c].(phase := Computed(|s.log|))])
  }

  /** The id an attempt tries, from what it read. */
  ghost predicate Tries(log: seq<Commit>, caller: Caller, next: int, id: string)
    requires caller.phase.Computed? && caller.phase.at <= |log|
  {
    && (exists h: nat :: IsHighest(IdsOf(log[..caller.phase.at]), caller.date, h) && next == Successor(h))
    && id == PrintId(caller.date, next)
  }

  predicate CanInsert(s: State, c: nat) {
    c in s.callers && s.callers[c].phase.Computed? && s.callers[c].phase.at <= |s.log|
  }

  /** The insert of an attempt whose id is free: mission and audit row commit together. */
  ghost predicate Insert(s: State, t: State, c: nat, next: int, id: string) {
    && CanInsert(s, c) && Tries(s.log, s.callers[c], next, id) && id !in IdsOf(s.log)
    && t == State(s.log + [Commit(id, Allocator(c, s.callers[c].date))], s.audit + [id],
                  s.callers[c := s.callers[c].(phase := Created(id, next))])
  }

  /** The insert of an attempt whose id is taken: nothing is written and the caller tries again. */
  ghost predicate Collide(s: State, t: State, c: nat, next: int, id: string) {
    && CanInsert(s, c) && Tries(s.log, s.callers[c], next, id) && id in IdsOf(s.log)
    && var caller := s.callers[c];
       var attempts := caller.attempt + 1;
       t == s.(callers := s.callers[c := caller.(attempt := attempts,
                 phase := if attempts >= RETRY_LIMIT then Unavailable else Reading)])
  }

  /** Any other database error ends the request; the transaction rolls back. */
  predicate Fail(s: State, t: State, c: nat) {
    && c in s.callers && (s.callers[c].phase.Reading? || s.callers[c].phase.Computed?)
    && t == s.(callers := s.callers[c := s.callers[c].(phase := Broken)])
  }

  /** A mission created through another endpoint, with an id of any shape. */
  predicate CreateElsewhere(s: State, t: State, id: string) {
    id !in IdsOf(s.log) && t == s.(log := s.log + [Commit(id, Elsewhere)])
  }

  ghost predicate Step(s: State, t: State) {
    || (exists c, date :: Arrive(s, t, c, date))
    || (exists c :: Read(s, t, c))
    || (exists c, next, id :: Insert(s, t, c, next, id))
    || (exists c, next, id :: Collide(s, t, c, next, id))
    || (exists c :: Fail(s, t, c))
    || (exists id :: CreateElsewhere(s, t, id))
  }

  ghost predicate Initial(s: State) {
    s == State([], [], map[])
  }

  ghost predicate Run(run: seq<State>) {
    && run != [] && Initial(run[0])
    && forall i :: 0 <= i < |run| - 1 ==> Step(run[i], run[i + 1])
  }

  // ------------------------------------------------------------------
  // The numbers of one day
  // ------------------------------------------------------------------

  /** The numbers the committed rows count for on a date, in the order they were committed. */
  function DayNumbers(log: seq<Commit>, date: string): seq<nat> {
    if log == [] then []
    else
      var n := SeqOf(log[|log| - 1].id, date);
      DayNumbers(log[..|log| - 1], date) + (if n.Some? then [n.value] else [])
  }

  /** 1, 2, ..., k. */
  predicate CountsUp(numbers: seq<nat>) {
    forall i :: 0 <= i < |numbers| ==> numbers[i] == i + 1
  }

  /** No row of the day's shape was created elsewhere; ids of other shapes may have been. */
  predicate OnlyAllocated(log: seq<Commit>, date: string) {
    forall x <- log :: x.origin.Elsewhere? ==> SeqOf(x.id, date).None?
  }

  /** Rows the allocator wrote carry a printed id of their caller's date. */
  ghost predicate Printed(log: seq<Commit>) {
    forall x <- log :: x.origin.Allocator? ==> |x.origin.date| == 8 && exists n: int :: x.id == PrintId(x.origin.date, n)
  }

  lemma {:induction false} DayNumbersHolds(log: seq<Commit>, date: string)
    ensures |DayNumbers(log, date)| <= |log|
    ensures forall x <- log :: SeqOf(x.id, date).Some? ==> SeqOf(x.id, date).value in DayNumbers(log, date)
    ensures forall n <- DayNumbers(log, date) :: exists x <- log :: SeqOf(x.id, date) == Some(n)
  {
    hide SeqOf;
    if log != [] {
      var front, x := log[..|log| - 1], log[|log| - 1];
      DayNumbersHolds(front, date);
      assert log == front + [x];
      forall n | n in DayNumbers(log, date)
        ensures exists y <- log :: SeqOf(y.id, date) == Some(n)
      {
        if n in DayNumbers(front, date) {
          var y :| y in front && SeqOf(y.id, date) == Some(n);
          assert y in log;
        } else {
          assert SeqOf(x.id, date) == Some(n);
        }
      }
    }
  }

  /** If the day's numbers count up, the highest is how many there are. */
  lemma HighestIsCount(log: seq<Commit>, date: string)
    requires CountsUp(DayNumbers(log, date)) && |log| <= MAX_INT
    ensures IsHighest(IdsOf(log), date, |DayNumbers(log, date)|)
  {
    hide SeqOf;
    var numbers := DayNumbers(log, date);
    DayNumbersHolds(log, date);
    forall id | id in IdsOf(log) && SeqOf(id, date).Some?
      ensures SeqOf(id, date).value <= |numbers|
    {
      var x :| x in log && x.id == id;
      var i :| 0 <= i < |numbers| && numbers[i] == SeqOf(x.id, date).value;
    }
    if numbers != [] {
      assert numbers[|numbers| - 1] in numbers;
      var x :| x in log && SeqOf(x.id, date) == Some(|numbers|);
      assert x.id in IdsOf(log);
    }
  }

  lemma {:induction false} DayNumbersPrefix(log: seq<Commit>, date: string, k: nat)
    requires k <= |log|
    ensures DayNumbers(log[..k], date) <= DayNumbers(log, date)
    decreases |log|
  {
    hide SeqOf;
    if k == |log| {
      assert log[..k] == log;
    } else {
      DayNumbersPrefix(log[..|log| - 1], date, k);
      assert log[..|log| - 1][..k] == log[..k];
    }
  }

  lemma CountsUpPrefix(log: seq<Commit>, date: string, k: nat)
    requires k <= |log| && CountsUp(DayNumbers(log, date))
    ensures CountsUp(DayNumbers(log[..k], date))
    ensures |DayNumbers(log[..k], date)| <= |DayNumbers(log, date)|
  {
    DayNumbersPrefix(log, date, k);
    var a, b := DayNumbers(log[..k], date), DayNumbers(log, date);
    assert forall i :: 0 <= i < |a| ==> a[i] == b[i];
  }

  lemma SignShows(n: int)
    ensures n < 0 ==> !AllDigits(Pad2(n))
  {
    if n < 0 {
      assert Pad2(n)[0] == '-' && Pad2(n)[0] in Pad2(n);
    }
  }

  /** A printed id of an eight-character date counts for that date alone, and for its own number. */
  lemma PrintedCounts(date: string, n: int, day: string)
    requires |date| == 8 && SeqOf(PrintId(date, n), day).Some?
    ensures date == day && n >= 0 && SeqOf(PrintId(date, n), day).value == n
  {
    var id := PrintId(date, n);
    assert id[8..16] == date;
    assert Prefix(day)[8..16] == day;
    assert id[..|Prefix(day)|] == Prefix(day);
    assert id[..|Prefix(day)|][8..16] == day;
    var digits := id[|Prefix(day)|..];
    assert digits == Pad2(n);
    SignShows(n);
    DigitsRoundTrip(n);
    LeadingZero(Digits(n));
  }

  /** On such a day, the row with a given number is the printed one. */
  lemma RowOfNumber(log: seq<Commit>, date: string, n: nat)
    requires OnlyAllocated(log, date) && Printed(log) && n in DayNumbers(log, date)
    ensures PrintId(date, n) in IdsOf(log)
  {
    hide SeqOf, PrintId;
    DayNumbersHolds(log, date);
    var x :| x in log && SeqOf(x.id, date) == Some(n);
    assert x.origin.Allocator?;
    var m: int :| x.id == PrintId(x.origin.date, m);
    PrintedCounts(x.origin.date, m, date);
    assert x.id in IdsOf(log);
  }

  // ------------------------------------------------------------------
  // Invariants
  // ------------------------------------------------------------------

  function AllocatedIds(log: seq<Commit>): seq<string> {
    if log == [] then []
    else
      var x := log[|log| - 1];
      AllocatedIds(log[..|log| - 1]) + (if x.origin.Allocator? then [x.id] else [])
  }

  function CountAt(log: seq<Commit>, date: string, k: nat): (n: nat)
    requires k <= |log|
    ensures n <= |DayNumbers(log, date)|
  {
    DayNumbersPrefix(log, date, k);
    |DayNumbers(log[..k], date)|
  }

  predicate CallerOk(s: State, c: nat)
    requires c in s.callers
  {
    var caller := s.callers[c];
    && |caller.date| == 8 && caller.start <= |s.log|
    && (caller.phase.Computed? ==> caller.start <= caller.phase.at <= |s.log|)
    && (!caller.phase.Created? ==> forall x <- s.log :: x.origin.Allocator? ==> x.origin.caller != c)
  }

  ghost predicate Inv(s: State) {
    && (forall i, j :: 0 <= i < j < |s.log| ==> s.log[i].id != s.log[j].id)
    && Printed(s.log)
    && s.audit == AllocatedIds(s.log)
    && (forall x <- s.log :: x.origin.Allocator? ==> x.origin.caller in s.callers)
    && (forall c <- s.callers :: CallerOk(s, c))
  }

  lemma AppendFacts(log: seq<Commit>, x: Commit)
    ensures AllocatedIds(log + [x]) == AllocatedIds(log) + (if x.origin.Allocator? then [x.id] else [])
    ensures forall date :: DayNumbers(log + [x], date)
              == DayNumbers(log, date) + (if SeqOf(x.id, date).Some? then [SeqOf(x.id, date).value] else [])
  {
    hide SeqOf;
    assert (log + [x])[..|log|] == log;
  }

  lemma InsertKeeps(s: State, t: State, c: nat, next: int, id: string)
    requires Inv(s) && Insert(s, t, c, next, id)
    ensures Inv(t)
  {
    hide PrintId, IsHighest, Successor, AllocatedIds, CallerOk;
    assert t.log == s.log + [t.log[|s.log|]];
    CallerDate(s, c);
    AppendFacts(s.log, t.log[|s.log|]);
    assert forall i :: 0 <= i < |s.log| ==> s.log[i] in s.log;
    forall d | d in t.callers
      ensures CallerOk(t, d)
    {
      OthersStayOk(s, t, c, d);
    }
  }

  lemma OthersStayOk(s: State, t: State, c: nat, d: nat)
    requires c in s.callers && CallerOk(s, c) && d in s.callers && CallerOk(s, d) && t.callers.Keys == s.callers.Keys
    requires |t.log| == |s.log| + 1 && t.log[..|s.log|] == s.log && t.log[|s.log|].origin == Allocator(c, s.callers[c].date)
    requires t.callers[c].phase.Created? && t.callers[c].date == s.callers[c].date && t.callers[c].start == s.callers[c].start
    requires d != c ==> t.callers[d] == s.callers[d]
    ensures CallerOk(t, d)
  {
    assert t.log == s.log + [t.log[|s.log|]];
  }

  lemma ElsewhereKeeps(s: State, t: State, id: string)
    requires Inv(s) && CreateElsewhere(s, t, id)
    ensures Inv(t)
  {
    AppendFacts(s.log, t.log[|s.log|]);
    assert forall i :: 0 <= i < |s.log| ==> s.log[i] in s.log;
    forall c | c in t.callers
      ensures CallerOk(t, c)
    {
      assert CallerOk(s, c);
    }
  }

  lemma StepKeeps(s: State, t: State)
    requires Inv(s) && Step(s, t)
    ensures Inv(t)
  {
    hide Insert, CreateElsewhere, Printed, AllocatedIds, Tries;
    if c, next, id :| Insert(s, t, c, next, id) {
      InsertKeeps(s, t, c, next, id);
    } else if id :| CreateElsewhere(s, t, id) {
      ElsewhereKeeps(s, t, id);
    } else {
      assert t.log == s.log && t.audit == s.audit;
      forall c | c in t.callers
        ensures CallerOk(t, c)
      {
        if c in s.callers {
          assert CallerOk(s, c);
        }
      }
    }
  }

  lemma {:induction false} RunInv(run: seq<State>)
    requires Run(run)
    ensures Inv(run[|run| - 1])
  {
    hide Step, Inv;
    var n := |run| - 1;
    if n == 0 {
      InitialInv(run[0]);
    } else {
      RunPrefix(run, n);
      RunInv(run[..n]);
      assert Step(run[n - 1], run[n - 1 + 1]);
      StepKeeps(run[n - 1], run[n]);
    }
  }

  lemma InitialInv(s: State)
    requires Initial(s)
    ensures Inv(s)
  {}

  lemma RunPrefix(run: seq<State>, n: nat)
    requires Run(run) && 0 < n <= |run|
    ensures Run(run[..n])
  {
    hide Step;
    forall i | 0 <= i < n - 1
      ensures Step(run[..n][i], run[..n][i + 1])
    {
      assert Step(run[i], run[i + 1]);
    }
  }

  // ------------------------------------------------------------------
  // No gap and no duplicate
  // ------------------------------------------------------------------

  /** What an attempt tries is one more than it counted. */
  lemma TriesNext(log: seq<Commit>, caller: Caller, next: int, id: string)
    requires caller.phase.Computed? && caller.phase.at <= |log| < MAX_INT
    requires Tries(log, caller, next, id) && EightDigits(caller.date) && CountsUp(DayNumbers(log, caller.date))
    ensures next == |DayNumbers(log[..caller.phase.at], caller.date)| + 1 <= MAX_INT
  {
    var seen := log[..caller.phase.at];
    CountsUpPrefix(log, caller.date, caller.phase.at);
    HighestIsCount(seen, caller.date);
    DayNumbersHolds(seen, caller.date);
    var h: nat :| IsHighest(IdsOf(seen), caller.date, h) && next == Successor(h);
    HighestIsUnique(IdsOf(seen), caller.date, h, |DayNumbers(seen, caller.date)|);
  }

  lemma InsertCountsUp(s: State, t: State, c: nat, next: int, id: string, date: string)
    requires Inv(s) && Insert(s, t, c, next, id) && EightDigits(date) && |s.log| < MAX_INT
    requires OnlyAllocated(t.log, date) && CountsUp(DayNumbers(s.log, date))
    ensures CountsUp(DayNumbers(t.log, date))
  {
    hide IsHighest, Inv, Tries, SeqOf, PrintId;
    var x := t.log[|s.log|];
    AppendFacts(s.log, x);
    assert forall y <- s.log :: y in t.log;
    CallerDate(s, c);
    TriedIdIsPrinted(s.log, s.callers[c], next, id);
    if SeqOf(id, date).Some? {
      PrintedCounts(s.callers[c].date, next, date);
      TriesNext(s.log, s.callers[c], next, id);
      CountsUpPrefix(s.log, date, s.callers[c].phase.at);
      var numbers := DayNumbers(s.log, date);
      if next <= |numbers| {
        assert numbers[next - 1] == next;
        PrintedLog(s);
        RowOfNumber(s.log, date, next);
        assert false;
      }
    }
  }

  lemma TriedIdIsPrinted(log: seq<Commit>, caller: Caller, next: int, id: string)
    requires caller.phase.Computed? && caller.phase.at <= |log| && Tries(log, caller, next, id)
    ensures id == PrintId(caller.date, next)
  {}

  lemma CallerDate(s: State, c: nat)
    requires Inv(s) && c in s.callers
    ensures |s.callers[c].date| == 8 && CallerOk(s, c)
  {}

  lemma PrintedLog(s: State)
    requires Inv(s)
    ensures Printed(s.log)
  {}

  lemma StepCountsUp(s: State, t: State, date: string)
    requires Inv(s) && Step(s, t) && EightDigits(date) && |t.log| <= MAX_INT
    requires OnlyAllocated(t.log, date) && CountsUp(DayNumbers(s.log, date))
    ensures CountsUp(DayNumbers(t.log, date))
  {
    hide Insert, CreateElsewhere, Inv, OnlyAllocated, EightDigits;
    if c, next, id :| Insert(s, t, c, next, id) {
      InsertGrows(s, t, c, next, id);
      InsertCountsUp(s, t, c, next, id, date);
    } else if id :| CreateElsewhere(s, t, id) {
      ElsewhereCountsUp(s, t, id, date);
    }
  }

  lemma InsertGrows(s: State, t: State, c: nat, next: int, id: string)
    requires Insert(s, t, c, next, id)
    ensures |t.log| == |s.log| + 1
  {}

  lemma ElsewhereCountsUp(s: State, t: State, id: string, date: string)
    requires CreateElsewhere(s, t, id) && OnlyAllocated(t.log, date) && CountsUp(DayNumbers(s.log, date))
    ensures CountsUp(DayNumbers(t.log, date))
  {
    hide SeqOf;
    AppendFacts(s.log, t.log[|s.log|]);
    assert t.log[|s.log|] in t.log;
  }

  lemma StepExtends(s: State, t: State)
    requires Step(s, t)
    ensures s.log <= t.log
  {}

  lemma {:induction false} RunCountsUp(run: seq<State>, date: string)
    requires Run(run) && EightDigits(date) && |run[|run| - 1].log| <= MAX_INT
    requires OnlyAllocated(run[|run| - 1].log, date)
    ensures CountsUp(DayNumbers(run[|run| - 1].log, date))
  {
    hide Step, Inv, EightDigits;
    var n := |run| - 1;
    if n > 0 {
      RunPrefix(run, n);
      RunInv(run[..n]);
      var s, t := run[n - 1], run[n];
      assert Step(run[n - 1], run[n - 1 + 1]);
      StepExtends(s, t);
      assert forall x <- s.log :: x in t.log;
      RunCountsUp(run[..n], date);
      StepCountsUp(s, t, date);
    }
  }

  lemma {:induction false} AllocatedOnce(log: seq<Commit>)
    requires forall i, j :: 0 <= i < j < |log| ==> log[i].id != log[j].id
    ensures forall x <- log :: multiset(AllocatedIds(log))[x.id] == if x.origin.Allocator? then 1 else 0
    ensures forall id <- AllocatedIds(log) :: exists x <- log :: x.id == id && x.origin.Allocator?
  {
    if log != [] {
      var front, x := log[..|log| - 1], log[|log| - 1];
      AllocatedOnce(front);
      var ids := AllocatedIds(front);
      assert log == front + [x];
      assert x.id !in ids by {
        forall id | id in ids
          ensures id != x.id
        {
          var y :| y in front && y.id == id && y.origin.Allocator?;
        }
      }
      assert multiset(ids)[x.id] == 0;
      assert AllocatedIds(log) == ids + (if x.origin.Allocator? then [x.id] else []);
      forall id | id in AllocatedIds(log)
        ensures exists y <- log :: y.id == id && y.origin.Allocator?
      {
        if id in ids {
          var y :| y in front && y.id == id && y.origin.Allocator?;
          assert y in log;
        } else {
          assert x in log;
        }
      }
    }
  }

  /**
   * In every reachable state, for any number of callers: the numbers committed for a day that
   * holds no other ids of its shape are 1, 2, ..., k in the order of commitment; no id is
   * committed twice; and each allocated mission has exactly one audit row, other missions none.
   */
  lemma NumbersHaveNoGap(run: seq<State>, date: string)
    requires run != [] && Run(run) && EightDigits(date)
    ensures var s := run[|run| - 1];
            && (OnlyAllocated(s.log, date) && |s.log| <= MAX_INT ==> CountsUp(DayNumbers(s.log, date)))
            && (forall i, j :: 0 <= i < j < |s.log| ==> s.log[i].id != s.log[j].id)
            && (forall x <- s.log :: multiset(s.audit)[x.id] == if x.origin.Allocator? then 1 else 0)
            && (forall id <- s.audit :: exists x <- s.log :: x.id == id && x.origin.Allocator?)
  {
    hide DayNumbers, Run;
    var s := run[|run| - 1];
    RunInv(run);
    AllocatedOnce(s.log);
    if OnlyAllocated(s.log, date) && |s.log| <= MAX_INT {
      RunCountsUp(run, date);
    }
  }

  // ------------------------------------------------------------------
  // A collision has a cause
  // ------------------------------------------------------------------

  /** No row counts for the greatest machine integer on that date. */
  predicate BelowMax(log: seq<Commit>, date: string) {
    forall x <- log :: SeqOf(x.id, date) != Some(MAX_INT)
  }

  /**
   * An attempt that collides was overtaken: a row of its day, with the id it tried, was
   * committed after its read and before its insert.
   */
  lemma CollisionHasCompetitor(s: State, t: State, c: nat, next: int, id: string) returns (i: nat)
    requires Inv(s) && Collide(s, t, c, next, id)
    requires EightDigits(s.callers[c].date) && BelowMax(s.log, s.callers[c].date)
    ensures s.callers[c].phase.at <= i < |s.log| && s.log[i].id == id
    ensures SeqOf(id, s.callers[c].date).Some?
    ensures s.log[i].origin.Allocator? ==> s.log[i].origin.caller != c
  {
    hide SeqOf, PrintId;
    var caller := s.callers[c];
    var seen := s.log[..caller.phase.at];
    CallerDate(s, c);
    var h: nat :| IsHighest(IdsOf(seen), caller.date, h) && next == Successor(h);
    SeenBelowMax(s.log, caller.date, caller.phase.at);
    NextIsFresh(IdsOf(seen), caller.date, h);
    var x :| x in s.log && x.id == id;
    i :| 0 <= i < |s.log| && s.log[i] == x;
    assert forall j :: 0 <= j < caller.phase.at ==> s.log[j] == seen[j] && seen[j] in seen && seen[j].id in IdsOf(seen);
  }

  lemma SeenBelowMax(log: seq<Commit>, date: string, at: nat)
    requires at <= |log| && BelowMax(log, date)
    ensures forall id <- IdsOf(log[..at]) :: SeqOf(id, date) != Some(MAX_INT)
  {
    hide SeqOf;
    forall id | id in IdsOf(log[..at])
      ensures SeqOf(id, date) != Some(MAX_INT)
    {
      var x :| x in log[..at] && x.id == id;
      assert x in log;
    }
  }

  /** A caller nobody overtakes succeeds at its first insert, whatever odd-shaped ids the day holds. */
  lemma NoCompetitorNoCollision(s: State, t: State, c: nat, next: int, id: string)
    requires Inv(s) && CanInsert(s, c) && s.callers[c].phase.at == |s.log|
    requires EightDigits(s.callers[c].date) && BelowMax(s.log, s.callers[c].date)
    requires Tries(s.log, s.callers[c], next, id)
    ensures !Collide(s, t, c, next, id)
  {
    if Collide(s, t, c, next, id) {
      var i := CollisionHasCompetitor(s, t, c, next, id);
      assert false;
    }
  }

  /** Every collision so far is paid for by a row of the day committed since the request came. */
  predicate PaidFor(s: State, c: nat)
    requires c in s.callers && CallerOk(s, c)
  {
    var caller := s.callers[c];
    && (caller.phase.Reading? || caller.phase.Computed? ==> caller.attempt < RETRY_LIMIT)
    && (caller.phase.Unavailable? ==> caller.attempt == RETRY_LIMIT)
    && (if caller.phase.Computed? then
          CountAt(s.log, caller.date, caller.phase.at) >= CountAt(s.log, caller.date, caller.start) + caller.attempt
        else if caller.phase.Created? || caller.phase.Broken? then true
        else |DayNumbers(s.log, caller.date)| >= CountAt(s.log, caller.date, caller.start) + caller.attempt)
  }

  lemma CountAtEnd(log: seq<Commit>, date: string)
    ensures CountAt(log, date, |log|) == |DayNumbers(log, date)|
  {
    assert log[..|log|] == log;
  }

  lemma CountAtExtends(log: seq<Commit>, more: seq<Commit>, date: string, k: nat)
    requires k <= |log|
    ensures CountAt(log + more, date, k) == CountAt(log, date, k)
    ensures |DayNumbers(log + more, date)| >= |DayNumbers(log, date)|
  {
    assert (log + more)[..k] == log[..k];
    assert (log + more)[..|log|] == log;
    DayNumbersPrefix(log + more, date, |log|);
  }

  /** A row of the day after position k makes the count at the end greater. */
  lemma {:induction false} CountGrows(log: seq<Commit>, date: string, k: nat, i: nat)
    requires k <= i < |log| && SeqOf(log[i].id, date).Some?
    ensures |DayNumbers(log, date)| >= CountAt(log, date, k) + 1
  {
    hide SeqOf;
    var upto := log[..i + 1];
    assert upto[..|upto| - 1] == log[..i];
    assert |DayNumbers(upto, date)| == |DayNumbers(log[..i], date)| + 1;
    DayNumbersPrefix(log, date, i + 1);
    DayNumbersPrefix(log[..i], date, k);
    assert log[..i][..k] == log[..k];
  }

  lemma StepPays(s: State, t: State, c: nat)
    requires Inv(s) && Step(s, t) && Inv(t) && c in s.callers && c in t.callers
    requires CallerOk(s, c) && CallerOk(t, c) && PaidFor(s, c)
    requires EightDigits(s.callers[c].date) && BelowMax(s.log, s.callers[c].date)
    ensures PaidFor(t, c)
  {
    hide Inv, DayNumbers, IsHighest, SeqOf, PrintId, Successor, BelowMax, CountAt;
    if c', next, id :| Collide(s, t, c', next, id) {
      if c' == c {
        CollisionPays(s, t, c, next, id);
      }
    } else if c' :| Read(s, t, c') {
      CountAtEnd(s.log, s.callers[c].date);
    } else {
      StepExtends(s, t);
      var more := t.log[|s.log|..];
      assert t.log == s.log + more;
      var caller := s.callers[c];
      CountAtExtends(s.log, more, caller.date, caller.start);
      if caller.phase.Computed? {
        CountAtExtends(s.log, more, caller.date, caller.phase.at);
      }
    }
  }

  lemma CollisionPays(s: State, t: State, c: nat, next: int, id: string)
    requires Inv(s) && Collide(s, t, c, next, id)
    requires CallerOk(s, c) && CallerOk(t, c) && PaidFor(s, c)
    requires EightDigits(s.callers[c].date) && BelowMax(s.log, s.callers[c].date)
    ensures PaidFor(t, c)
  {
    hide Inv, DayNumbers, IsHighest, SeqOf, PrintId, Successor, BelowMax, Tries;
    var caller := s.callers[c];
    var i := CollisionHasCompetitor(s, t, c, next, id);
    CountGrows(s.log, caller.date, caller.phase.at, i);
  }

  lemma {:induction false} RunPays(run: seq<State>, c: nat)
    requires run != [] && Run(run) && c in run[|run| - 1].callers
    requires EightDigits(run[|run| - 1].callers[c].date) && BelowMax(run[|run| - 1].log, run[|run| - 1].callers[c].date)
    ensures CallerOk(run[|run| - 1], c) && PaidFor(run[|run| - 1], c)
  {
    hide Step, EightDigits, SeqOf, DayNumbers;
    var n := |run| - 1;
    RunInv(run);
    if n > 0 {
      RunPrefix(run, n);
      RunInv(run[..n]);
      var s, t := run[n - 1], run[n];
      assert Step(run[n - 1], run[n - 1 + 1]);
      StepExtends(s, t);
      assert forall x <- s.log :: x in t.log;
      CallerStays(s, t, c);
      if c in s.callers {
        RunPays(run[..n], c);
        StepPays(s, t, c);
      }
    }
  }

  lemma CallerStays(s: State, t: State, c: nat)
    requires Inv(s) && Inv(t) && Step(s, t) && c in t.callers
    ensures c in s.callers ==> t.callers[c].date == s.callers[c].date
    ensures c !in s.callers ==> CallerOk(t, c) && PaidFor(t, c)
  {
    hide Inv, DayNumbers, IsHighest, SeqOf, PrintId, Successor;
    assert c in t.callers ==> CallerOk(t, c) by {
      InvCaller(t, c);
    }
    if c !in s.callers {
      var date :| Arrive(s, t, c, date);
      CountAtEnd(t.log, date);
    }
  }

  lemma InvCaller(s: State, c: nat)
    requires Inv(s) && c in s.callers
    ensures CallerOk(s, c)
  {}

  /**
   * A request is answered 503 only if at least ten missions of its day were committed by
   * others while it was being served.
   */
  lemma UnavailableMeansTenCommits(run: seq<State>, c: nat)
    requires run != [] && Run(run) && c in run[|run| - 1].callers && run[|run| - 1].callers[c].phase.Unavailable?
    requires EightDigits(run[|run| - 1].callers[c].date) && BelowMax(run[|run| - 1].log, run[|run| - 1].callers[c].date)
    ensures var s := run[|run| - 1];
            var caller := s.callers[c];
            && caller.start <= |s.log|
            && |DayNumbers(s.log, caller.date)| >= CountAt(s.log, caller.date, caller.start) + 10
            && (forall x <- s.log :: x.origin.Allocator? ==> x.origin.caller != c)
  {
    hide Run, DayNumbers, EightDigits, BelowMax;
    RunPays(run, c);
  }
}
