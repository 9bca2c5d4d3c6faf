/** What the answer to an allocation says about the committed rows. */
module AllocationAnswers {
  import opened Options
  import opened MissionIds
  import opened Allocation

  /** The row a caller was answered for. */
  function RowFor(c: nat, caller: Caller): Commit
    requires caller.phase.Created?
  {
    Commit(caller.phase.id, Allocator(c, caller.date))
  }

  /** The answer names the committed row by its own number. */
  predicate AnswerOk(s: State, c: nat)
    requires c in s.callers
  {
    var caller := s.callers[c];
    caller.phase.Created? ==>
      && RowFor(c, caller) in s.log && caller.phase.id in s.audit
      && caller.phase.seqNo <= MAX_INT && caller.phase.id == PrintId(caller.date, caller.phase.seqNo)
  }

  predicate AnswersOk(s: State) {
    forall c <- s.callers :: AnswerOk(s, c)
  }

  lemma InsertAnswers(s: State, t: State, c: nat, next: int, id: string)
    requires AnswersOk(s) && Insert(s, t, c, next, id)
    ensures AnswersOk(t)
  {
    hide PrintId, IsHighest;
    assert t.log[|s.log|] in t.log && t.audit[|s.audit|] in t.audit;
    forall d | d in t.callers
      ensures AnswerOk(t, d)
    {
      if d != c {
        assert AnswerOk(s, d);
      }
    }
  }

  lemma StepAnswers(s: State, t: State)
    requires AnswersOk(s) && Step(s, t)
    ensures AnswersOk(t)
  {
    hide PrintId, Insert, Tries;
    if c, next, id :| Insert(s, t, c, next, id) {
      InsertAnswers(s, t, c, next, id);
    } else {
      forall d | d in t.callers
        ensures AnswerOk(t, d)
      {
        if d in s.callers {
          assert AnswerOk(s, d);
        }
      }
    }
  }

  lemma {:induction false} RunAnswers(run: seq<State>)
    requires Run(run)
    ensures AnswersOk(run[|run| - 1])
  {
    hide Step, AnswersOk;
    var n := |run| - 1;
    if n == 0 {
      NoAnswers(run[0]);
    } else {
      RunPrefix(run, n);
      RunAnswers(run[..n]);
      assert Step(run[n - 1], run[n - 1 + 1]);
      StepAnswers(run[n - 1], run[n]);
    }
  }

  lemma NoAnswers(s: State)
    requires Initial(s)
    ensures AnswersOk(s)
  {}

  lemma PlaceOf(log: seq<Commit>, date: string, i: nat)
    requires i < |log| && CountsUp(DayNumbers(log, date)) && SeqOf(log[i].id, date).Some?
    ensures SeqOf(log[i].id, date).value == |DayNumbers(log[..i], date)| + 1
  {
    hide SeqOf;
    CountsUpPrefix(log, date, i + 1);
    var upto := log[..i + 1];
    assert upto[..|upto| - 1] == log[..i];
    var numbers := DayNumbers(upto, date);
    assert numbers[|numbers| - 1] == |numbers|;
  }

  lemma NewAnswer(s: State, t: State, c: nat)
    requires Step(s, t) && c in t.callers && t.callers[c].phase.Created?
    requires !(c in s.callers && s.callers[c] == t.callers[c])
    ensures c in s.callers && s.callers[c].date == t.callers[c].date && |t.log| == |s.log| + 1
    ensures exists next, id :: Insert(s, t, c, next, id) && t.callers[c].phase == Created(id, next)
  {
    hide Tries, IdsOf;
  }

  lemma NewAnswerIsPositive(s: State, t: State, c: nat)
    requires Inv(s) && Step(s, t) && c in t.callers && t.callers[c].phase.Created?
    requires !(c in s.callers && s.callers[c] == t.callers[c])
    requires EightDigits(t.callers[c].date) && CountsUp(DayNumbers(s.log, t.callers[c].date)) && |t.log| <= MAX_INT
    ensures t.callers[c].phase.seqNo > 0
  {
    hide Inv, Step, Tries, EightDigits, DayNumbers, CountsUp, IdsOf;
    NewAnswer(s, t, c);
    var next, id :| Insert(s, t, c, next, id) && t.callers[c].phase == Created(id, next);
    TriesNext(s.log, s.callers[c], next, id);
  }

  /** On a day without ids from elsewhere no answer is a wrapped number. */
  lemma {:induction false} PositiveAnswer(run: seq<State>, c: nat)
    requires run != [] && Run(run) && c in run[|run| - 1].callers && run[|run| - 1].callers[c].phase.Created?
    requires var s := run[|run| - 1]; var date := s.callers[c].date;
             EightDigits(date) && OnlyAllocated(s.log, date) && |s.log| <= MAX_INT
    ensures run[|run| - 1].callers[c].phase.seqNo > 0
  {
    hide Step, Inv, EightDigits, DayNumbers;
    var n := |run| - 1;
    if n > 0 {
      RunPrefix(run, n);
      RunInv(run[..n]);
      var s, t := run[n - 1], run[n];
      assert Step(run[n - 1], run[n - 1 + 1]);
      StepExtends(s, t);
      assert forall x <- s.log :: x in t.log;
      if c in s.callers && s.callers[c] == t.callers[c] {
        PositiveAnswer(run[..n], c);
      } else {
        RunCountsUp(run[..n], t.callers[c].date);
        NewAnswerIsPositive(s, t, c);
      }
    }
  }

  /**
   * In every reachable state: a caller that was answered with an id and a number has its own row
   * of that id among the committed ones, and an audit row. On an eight-digit date a positive number is the one
   * the id carries, and on a day without ids from elsewhere it is the row's place among the day's.
   */
  lemma AnswerIsItsRow(run: seq<State>, c: nat)
    requires run != [] && Run(run) && c in run[|run| - 1].callers && run[|run| - 1].callers[c].phase.Created?
    ensures var s := run[|run| - 1];
            var caller := s.callers[c];
            var id, n, date := caller.phase.id, caller.phase.seqNo, caller.date;
            && Commit(id, Allocator(c, date)) in s.log && id in s.audit
            && (EightDigits(date) && n > 0 ==> SeqOf(id, date) == Some(n))
            && (EightDigits(date) && OnlyAllocated(s.log, date) && |s.log| <= MAX_INT ==>
                  exists i :: 0 <= i < |s.log| && s.log[i] == Commit(id, Allocator(c, date))
                    && n == |DayNumbers(s.log[..i], date)| + 1)
  {
    hide Run, DayNumbers, EightDigits, OnlyAllocated, SeqOf, PrintId;
    var s := run[|run| - 1];
    RunAnswers(run);
    assert AnswerOk(s, c);
    var caller := s.callers[c];
    var id, n, date := caller.phase.id, caller.phase.seqNo, caller.date;
    if EightDigits(date) && n > 0 {
      PrintThenParse(date, n);
    }
    if EightDigits(date) && OnlyAllocated(s.log, date) && |s.log| <= MAX_INT {
      RunCountsUp(run, date);
      var i :| 0 <= i < |s.log| && s.log[i] == Commit(id, Allocator(c, date));
      PositiveAnswer(run, c);
      PlaceOf(s.log, date, i);
    }
  }
}
