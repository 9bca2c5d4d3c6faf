/** A caller with no competitor: when it succeeds, and when it never does. */
module AllocationAlone {
  import opened Options
  import opened Text
  import opened MissionIds
  import opened Allocation

  // ------------------------------------------------------------------
  // The first id tried
  // ------------------------------------------------------------------

  /** Some id counts for the greatest machine integer on that date. */
  predicate UsedUp(ids: set<string>, date: string) {
    exists id <- ids :: SeqOf(id, date) == Some(MAX_INT)
  }

  /** The ids there are leave a caller of that date no id to take. */
  predicate Stuck(ids: set<string>, date: string) {
    if !EightDigits(date) then PrintId(date, 1) in ids
    else UsedUp(ids, date) && PrintId(date, MIN_INT) in ids
  }

  lemma {:induction false} HighestExists(ids: set<string>, date: string)
    ensures exists h: nat :: IsHighest(ids, date, h)
  {
    hide SeqOf;
    if ids == {} {
      assert IsHighest(ids, date, 0);
    } else {
      var id :| id in ids;
      var rest := ids - {id};
      HighestExists(rest, date);
      var h: nat :| IsHighest(rest, date, h);
      var n := SeqOf(id, date);
      SeqIsSmall(id, date);
      var best := if n.Some? && n.value > h then n.value else h;
      assert IsHighest(ids, date, best);
    }
  }

  lemma SeqIsSmall(id: string, date: string)
    ensures SeqOf(id, date).Some? ==> SeqOf(id, date).value <= MAX_INT
  {}

  /** The id tried from a full read is taken exactly when the caller is stuck. */
  lemma TriedIsTaken(ids: set<string>, date: string, h: nat)
    requires IsHighest(ids, date, h)
    ensures PrintId(date, Successor(h)) in ids <==> Stuck(ids, date)
  {
    hide PrintId;
    if !EightDigits(date) {
      OddDateRepeats(ids, date, h);
    } else if h < MAX_INT {
      NextIsFresh(ids, date, h);
    }
  }

  // ------------------------------------------------------------------
  // Attempts nobody interferes with
  // ------------------------------------------------------------------

  predicate IsReading(s: State, c: nat) {
    c in s.callers && s.callers[c].phase.Reading?
  }

  /** The state after a read that sees every row. */
  function AfterRead(s: State, c: nat): State
    requires IsReading(s, c)
  {
    s.(callers := s.callers[c := s.callers[c].(phase := Computed(|s.log|))])
  }

  lemma FullRead(s: State, c: nat) returns (h: nat)
    requires IsReading(s, c)
    ensures Read(s, AfterRead(s, c), c) && CanInsert(AfterRead(s, c), c)
    ensures IsHighest(IdsOf(s.log), s.callers[c].date, h)
    ensures forall next, id :: Tries(s.log, AfterRead(s, c).callers[c], next, id) <==>
              next == Successor(h) && id == PrintId(s.callers[c].date, next)
  {
    hide PrintId, IsHighest, Successor;
    HighestExists(IdsOf(s.log), s.callers[c].date);
    h :| IsHighest(IdsOf(s.log), s.callers[c].date, h);
    assert s.log[..|s.log|] == s.log;
    forall other: nat | IsHighest(IdsOf(s.log), s.callers[c].date, other)
      ensures other == h
    {
      HighestIsUnique(IdsOf(s.log), s.callers[c].date, other, h);
    }
  }

  /**
   * Before the attempt: a caller that reads every committed row and inserts before any other
   * commits collides exactly when it is stuck, and otherwise its mission is created.
   */
  lemma LoneAttempt(s: State, c: nat)
    requires IsReading(s, c)
    ensures var t, ids, date := AfterRead(s, c), IdsOf(s.log), s.callers[c].date;
            && ((exists u, next, id :: Collide(t, u, c, next, id)) <==> Stuck(ids, date))
            && ((exists u, next, id :: Insert(t, u, c, next, id)) <==> !Stuck(ids, date))
  {
    hide PrintId, IsHighest, Successor, Tries, Stuck;
    var t, date := AfterRead(s, c), s.callers[c].date;
    var h := FullRead(s, c);
    TriedIsTaken(IdsOf(s.log), date, h);
    var next := Successor(h);
    var id := PrintId(date, next);
    assert Tries(t.log, t.callers[c], next, id);
    if Stuck(IdsOf(s.log), date) {
      assert Collide(t, AfterCollision(t, c), c, next, id);
    } else {
      var u := State(t.log + [Commit(id, Allocator(c, date))], t.audit + [id], t.callers[c := t.callers[c].(phase := Created(id, next))]);
      assert Insert(t, u, c, next, id);
    }
  }

  function AfterCollision(t: State, c: nat): State
    requires c in t.callers
  {
    var attempts := t.callers[c].attempt + 1;
    t.(callers := t.callers[c := t.callers[c].(attempt := attempts, phase := if attempts >= RETRY_LIMIT then Unavailable else Reading)])
  }

  /** A stretch of a run in which one caller acts and no row is committed. */
  ghost predicate Stretch(run: seq<State>) {
    run != [] && forall i :: 0 <= i < |run| - 1 ==> Step(run[i], run[i + 1]) && run[i + 1].log == run[i].log
  }

  lemma StuckAttempt(s: State, c: nat) returns (u: State)
    requires IsReading(s, c) && Stuck(IdsOf(s.log), s.callers[c].date)
    ensures u == AfterCollision(AfterRead(s, c), c) && u.log == s.log
    ensures Stretch([s, AfterRead(s, c), u])
  {
    hide Tries, Stuck;
    var t := AfterRead(s, c);
    LoneAttempt(s, c);
    var h := FullRead(s, c);
    var v, next, id :| Collide(t, v, c, next, id);
    u := AfterCollision(t, c);
    assert Collide(t, u, c, next, id);
  }

  lemma JoinStretches(a: seq<State>, b: seq<State>)
    requires Stretch(a) && Stretch(b) && a[|a| - 1] == b[0]
    ensures Stretch(a + b[1..]) && (a + b[1..])[0] == a[0] && (a + b[1..])[|a + b[1..]| - 1] == b[|b| - 1]
  {
    hide Step;
    var h := a + b[1..];
    forall i | 0 <= i < |h| - 1
      ensures Step(h[i], h[i + 1]) && h[i + 1].log == h[i].log
    {
      if i >= |a| - 1 {
        assert h[i] == b[i - |a| + 1] && h[i + 1] == b[i - |a| + 2];
      }
    }
  }

  /** A stuck caller left alone uses up its attempts and is answered 503. */
  lemma {:induction false} StuckUntilUnavailable(s: State, c: nat) returns (run: seq<State>)
    requires IsReading(s, c) && s.callers[c].attempt < RETRY_LIMIT && Stuck(IdsOf(s.log), s.callers[c].date)
    ensures Stretch(run) && run[0] == s
    ensures var last := run[|run| - 1];
            last.log == s.log && last.audit == s.audit && last.callers.Keys == s.callers.Keys
            && last.callers[c].phase.Unavailable? && last.callers[c].date == s.callers[c].date
    decreases RETRY_LIMIT - s.callers[c].attempt
  {
    hide Stuck, Stretch;
    var u := StuckAttempt(s, c);
    run := [s, AfterRead(s, c), u];
    if s.callers[c].attempt + 1 < RETRY_LIMIT {
      var rest := StuckUntilUnavailable(u, c);
      JoinStretches(run, rest);
      StretchIsSteps(rest);
      run := run + rest[1..];
    }
  }

  /** A caller that is not stuck succeeds at its first attempt. */
  lemma FreeSucceeds(s: State, c: nat) returns (u: State)
    requires IsReading(s, c) && !Stuck(IdsOf(s.log), s.callers[c].date)
    ensures Step(s, AfterRead(s, c)) && Step(AfterRead(s, c), u)
    ensures c in u.callers && u.callers[c].phase.Created? && u.callers[c].date == s.callers[c].date && u.callers[c].attempt == s.callers[c].attempt
    ensures u.callers.Keys == s.callers.Keys && |u.log| == |s.log| + 1
    ensures !EightDigits(s.callers[c].date) ==> u.log[|s.log|].id == PrintId(s.callers[c].date, 1)
  {
    hide Stuck, Tries, PrintId, IsHighest;
    var date := s.callers[c].date;
    LoneAttempt(s, c);
    var h := FullRead(s, c);
    var v, next, id :| Insert(AfterRead(s, c), v, c, next, id);
    if !EightDigits(date) {
      OddDateRepeats(IdsOf(s.log), date, h);
    }
    u := v;
  }

  /** A row that counts for the greatest machine integer makes the next number wrap, and never counts itself. */
  lemma WrappedNumberRepeats(log: seq<Commit>, caller: Caller, next: int, id: string)
    requires caller.phase.Computed? && caller.phase.at <= |log| && Tries(log, caller, next, id)
    requires exists x <- log[..caller.phase.at] :: SeqOf(x.id, caller.date) == Some(MAX_INT)
    ensures id == PrintId(caller.date, MIN_INT) && SeqOf(id, caller.date).None?
  {
    hide SeqOf, PrintId;
    var seen := log[..caller.phase.at];
    var x :| x in seen && SeqOf(x.id, caller.date) == Some(MAX_INT);
    assert x.id in IdsOf(seen);
    WrappedIsInvisible(caller.date);
  }

  // ------------------------------------------------------------------
  // A date a request may name
  // ------------------------------------------------------------------

  /** A minus sign and seven digits pass the validation of the date. */
  const ODD_DATE := "-2026090"

  lemma OddDateIsReceivable()
    ensures Receivable(ODD_DATE) && !EightDigits(ODD_DATE)
  {
    assert ODD_DATE[1..] == "2026090";
    assert ODD_DATE[0] in ODD_DATE && !IsDigit('-');
    assert DigitsLen("2026090") == 7;
  }

  /** Two requests for that date, the second after the first was answered: the second is answered 503. */
  lemma OddDateIsRefused() returns (run: seq<State>)
    ensures Run(run)
    ensures var last := run[|run| - 1];
            && |last.log| == 1 && last.callers.Keys == {0, 1}
            && last.callers[1].date == ODD_DATE && last.callers[1].phase.Unavailable?
  {
    hide Stuck, Step, Tries, PrintId, Receivable, Stretch;
    OddDateIsReceivable();
    var s0 := State([], [], map[]);
    var s1 := s0.(callers := map[0 := Caller(ODD_DATE, 0, 0, Reading)]);
    ArriveIsStep(s0, s1, 0, ODD_DATE);
    NothingIsStuck(ODD_DATE);
    var s3 := FreeSucceeds(s1, 0);
    var s4 := s3.(callers := s3.callers[1 := Caller(ODD_DATE, 1, 0, Reading)]);
    ArriveIsStep(s3, s4, 1, ODD_DATE);
    TakenIsStuck(s4.log, ODD_DATE);
    var rest := StuckUntilUnavailable(s4, 1);
    StretchIsSteps(rest);
    run := [s0, s1, AfterRead(s1, 0), s3] + rest;
  }

  lemma ArriveIsStep(s: State, t: State, c: nat, date: string)
    requires Arrive(s, t, c, date)
    ensures Step(s, t)
  {}

  lemma NothingIsStuck(date: string)
    ensures IdsOf([]) == {} && !Stuck({}, date)
  {}

  lemma TakenIsStuck(log: seq<Commit>, date: string)
    requires |log| == 1 && log[0].id == PrintId(date, 1) && !EightDigits(date)
    ensures Stuck(IdsOf(log), date)
  {
    hide PrintId;
    assert log[0] in log;
  }

  lemma StretchIsSteps(run: seq<State>)
    requires Stretch(run)
    ensures run != [] && forall i :: 0 <= i < |run| - 1 ==> Step(run[i], run[i + 1])
  {
    hide Step;
  }
}
