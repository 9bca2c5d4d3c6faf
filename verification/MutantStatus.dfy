/** What the exit status of a run tells: the verdicts, the restores, and whether a signal came. */
module MutantStatus {
  import opened MutantRunner
  import opened MutantSafety
  import opened MutantExit

  /** The mutant was planted, its killers killed it, and its file is restored. */
  predicate IsKilled(o: Outcome) {
    o.planted && o.restoreOk && !o.bad
  }

  /** Every chosen mutant has an outcome about its own file, in order, and all were killed. */
  predicate AllKilled(c: Config, s: State) {
    && s.k == |s.chosen| == |s.outcomes|
    && forall i :: 0 <= i < |s.chosen| ==>
         s.chosen[i] in c.fileOf && s.outcomes[i].file == c.fileOf[s.chosen[i]] && IsKilled(s.outcomes[i])
  }

  // ------------------------------------------------------------------
  // What every step keeps
  // ------------------------------------------------------------------

  /** The outcomes so far are those of the first k mutants; one that is not bad was planted. */
  predicate Listed(c: Config, s: State) {
    && s.k == |s.outcomes| <= |s.chosen|
    && (forall i :: 0 <= i < s.k ==> s.chosen[i] in c.fileOf && s.outcomes[i].file == c.fileOf[s.chosen[i]])
    && (forall o <- s.outcomes :: !o.bad ==> o.planted)
  }

  predicate StatusInv(c: Config, s: State) {
    && Listed(c, s)
    && (InMutant(s.pc) ==> s.k < |s.chosen| && s.chosen[s.k] in c.fileOf && s.cur.file == c.fileOf[s.chosen[s.k]])
    && (s.pc.Stopping? ==> s.pc.status in {3, 5})
    && (s.pc.Start? ==> s.k == 0 && s.planted == {})
    && (s.pc.Exited? ==>
          && s.pc.status <= 5
          && (s.pc.status in {0, 4} ==> AllKilled(c, s) && (s.pc.status == 4 <==> Shared(c, s)))
          && (s.pc.status == 2 ==> s.k == 0 && s.planted == {}))
  }

  lemma OneMore(c: Config, s: State, t: State, o: Outcome)
    requires Listed(c, s) && s.k < |s.chosen| && s.chosen[s.k] in c.fileOf && o.file == c.fileOf[s.chosen[s.k]]
    requires !o.bad ==> o.planted
    requires t.outcomes == s.outcomes + [o] && t.k == s.k + 1 && t.chosen == s.chosen
    ensures Listed(c, t)
  {}

  lemma TakeStatus(c: Config, s: State, t: State)
    requires StatusInv(c, s) && ProgramStep(c, s, t) && s.pc.Loop? && s.k < |s.chosen|
    ensures StatusInv(c, t)
  {
    hide Clean, Shared, FinishStep, AllKilled;
    if t.k != s.k {
      OneMore(c, s, t, t.cur);
    }
  }

  lemma FinishStatus(c: Config, s: State, t: State)
    requires StatusInv(c, s) && ProgramStep(c, s, t) && s.pc.Loop? && s.k >= |s.chosen|
    ensures StatusInv(c, t)
  {
    hide Clean, TakeStep, IsCompared, StandsFor;
    if t.pc.Exited? {
      SharedFrame(c, s, t);
    }
  }

  lemma SharedFrame(c: Config, s: State, t: State)
    requires t.chosen == s.chosen && t.outcomes == s.outcomes && |s.outcomes| == |s.chosen|
    ensures Shared(c, t) == Shared(c, s)
  {}

  lemma ReturnStatus(c: Config, s: State, t: State)
    requires StatusInv(c, s) && ProgramStep(c, s, t) && s.pc.Returned?
    ensures StatusInv(c, t)
  {
    hide KnownId;
    if t.k != s.k {
      OneMore(c, s, t, t.cur);
    }
  }

  /** The list is untouched, and the step stays in the mutant or ends the run without success. */
  predicate KeepsList(s: State, t: State) {
    && t.k == s.k && t.outcomes == s.outcomes && t.chosen == s.chosen && t.cur.file == s.cur.file
    && (InMutant(t.pc) ==> InMutant(s.pc)) && !t.pc.Stopping? && !t.pc.Start?
    && (t.pc.Exited? ==> t.pc.status in {1, 2, 3} && (t.pc.status == 2 ==> s.pc.Start? && t.planted == s.planted))
  }

  lemma PlanKeepsList(c: Config, s: State, t: State)
    requires ProgramStep(c, s, t) && BeforePlant(s.pc) && !s.pc.Loop?
    ensures KeepsList(s, t)
  {
    hide Clean, KnownId, CurrentCopy;
  }

  lemma RestoreKeepsList(c: Config, s: State, t: State)
    requires ProgramStep(c, s, t) && !BeforePlant(s.pc) && !s.pc.Returned? && !s.pc.Stopping?
    ensures KeepsList(s, t)
  {
    hide Clean, KnownId, CurrentCopy, ReturnStep;
  }

  /** Between taking a mutant and its outcome, no step touches the list. */
  lemma InsideStatus(c: Config, s: State, t: State)
    requires StatusInv(c, s) && ProgramStep(c, s, t) && !s.pc.Loop? && !s.pc.Returned? && !s.pc.Stopping?
    ensures StatusInv(c, t)
  {
    hide ProgramStep, AllKilled;
    if BeforePlant(s.pc) {
      PlanKeepsList(c, s, t);
    } else {
      RestoreKeepsList(c, s, t);
    }
  }

  lemma StoppingStatus(c: Config, s: State, t: State)
    requires StatusInv(c, s) && ProgramStep(c, s, t) && s.pc.Stopping?
    ensures StatusInv(c, t)
  {
    hide AnyFailed;
  }

  lemma SignalStatus(c: Config, s: State, t: State)
    requires StatusInv(c, s) && SignalStep(s, t)
    ensures StatusInv(c, t)
  {
    hide Shared, AllKilled;
  }

  lemma StepStatus(c: Config, s: State, t: State)
    requires StatusInv(c, s) && Step(c, s, t)
    ensures StatusInv(c, t)
  {
    hide ProgramStep, SignalStep, StatusInv;
    if ProgramStep(c, s, t) {
      if s.pc.Loop? && s.k < |s.chosen| {
        TakeStatus(c, s, t);
      } else if s.pc.Loop? {
        FinishStatus(c, s, t);
      } else if s.pc.Returned? {
        ReturnStatus(c, s, t);
      } else if s.pc.Stopping? {
        StoppingStatus(c, s, t);
      } else {
        InsideStatus(c, s, t);
      }
    } else if SignalStep(s, t) {
      SignalStatus(c, s, t);
    } else {
      KillStatus(c, s, t);
    }
  }

  lemma KillStatus(c: Config, s: State, t: State)
    requires StatusInv(c, s) && KillStep(s, t)
    ensures StatusInv(c, t)
  {}

  lemma FirstStatus(c: Config, s: State)
    requires IsFirst(s)
    ensures StatusInv(c, s)
  {}

  lemma {:induction false} HistoryStatus(c: Config, h: seq<State>)
    requires History(c, h)
    ensures StatusInv(c, h[|h| - 1])
  {
    hide Step, IsFirst, StatusInv;
    var n := |h| - 1;
    if n == 0 {
      FirstStatus(c, h[0]);
    } else {
      HistoryPrefix(c, h, n);
      HistoryStatus(c, h[..n]);
      assert Step(c, h[n - 1], h[n - 1 + 1]) || NewRun(h[n - 1], h[n - 1 + 1]);
      if Step(c, h[n - 1], h[n]) {
        StepStatus(c, h[n - 1], h[n]);
      } else {
        FirstStatus(c, h[n]);
      }
    }
  }

  /** No mutant is chosen twice, and mirror is its own inverse on those chosen. */
  predicate MirrorsChosen(c: Config, s: State) {
    && (forall i, j :: 0 <= i < j < |s.chosen| ==> s.chosen[i] != s.chosen[j])
    && (forall i :: 0 <= i < |s.chosen| && HasPartner(c, s, i) ==>
          c.mirror[s.chosen[i]] in c.mirror && c.mirror[c.mirror[s.chosen[i]]] == s.chosen[i] && c.mirror[s.chosen[i]] != s.chosen[i])
  }

  /** Some chosen mutant and its mirror, chosen too, failed with the same message. */
  ghost predicate SameText(c: Config, s: State)
    requires |s.outcomes| == |s.chosen|
  {
    exists i, j :: 0 <= i < |s.chosen| && 0 <= j < |s.chosen| && s.chosen[i] in c.mirror && c.mirror[s.chosen[i]] == s.chosen[j]
      && s.outcomes[i].text == s.outcomes[j].text != ""
  }

  lemma SharedIff(c: Config, s: State)
    requires |s.outcomes| == |s.chosen| && MirrorsChosen(c, s)
    ensures Shared(c, s) <==> SameText(c, s)
  {
    if SameText(c, s) {
      var i, j :| 0 <= i < |s.chosen| && 0 <= j < |s.chosen| && s.chosen[i] in c.mirror && c.mirror[s.chosen[i]] == s.chosen[j]
        && s.outcomes[i].text == s.outcomes[j].text != "";
      assert s.chosen[j] in s.chosen && s.chosen[i] in s.chosen;
      assert HasPartner(c, s, i) && HasPartner(c, s, j);
      EarlierIsCompared(c, s, if i < j then i else j, if i < j then j else i);
    }
  }

  /** Of two that mirror each other the earlier one is compared, with the later one. */
  lemma EarlierIsCompared(c: Config, s: State, i: nat, j: nat)
    requires i < j < |s.chosen| && MirrorsChosen(c, s) && HasPartner(c, s, i) && c.mirror[s.chosen[i]] == s.chosen[j]
    ensures IsCompared(c, s, i) && StandsFor(s, s.chosen[j], j)
  {
    forall h | 0 <= h < i && HasPartner(c, s, h)
      ensures {s.chosen[h], c.mirror[s.chosen[h]]} != {s.chosen[i], c.mirror[s.chosen[i]]}
    {
      assert s.chosen[h] != s.chosen[i] && s.chosen[h] != s.chosen[j];
      assert s.chosen[h] in {s.chosen[h], c.mirror[s.chosen[h]]};
    }
  }

  /**
   * A run that exits with 0 or 4 has an outcome for each chosen mutant, and in every one the
   * mutant was planted, killed, and its file restored. It is 4 exactly when a mutant and its
   * mirror failed with the same message.
   */
  lemma SuccessMeansKilled(c: Config, h: seq<State>, i: nat)
    requires History(c, h) && i < |h| && h[i].pc.Exited? && h[i].pc.status in {0, 4}
    ensures AllKilled(c, h[i])
    ensures MirrorsChosen(c, h[i]) ==> (h[i].pc.status == 4 <==> SameText(c, h[i]))
  {
    HistoryPrefix(c, h, i + 1);
    HistoryStatus(c, h[..i + 1]);
    if MirrorsChosen(c, h[i]) {
      SharedIff(c, h[i]);
    }
  }

  /** A run that exits with 2 planted nothing. */
  lemma RefusalPlantsNothing(c: Config, h: seq<State>, i: nat)
    requires History(c, h) && i < |h| && h[i].pc == Exited(2)
    ensures h[i].outcomes == [] && h[i].planted == {}
  {
    HistoryPrefix(c, h, i + 1);
    HistoryStatus(c, h[..i + 1]);
  }

  /** A mutant that survived, was not judged, or is not restored: the run does not succeed. */
  lemma BadOutcomeFails(c: Config, h: seq<State>, i: nat)
    requires History(c, h) && i < |h| && h[i].pc.Exited?
    requires |h[i].outcomes| < |h[i].chosen| || exists o <- h[i].outcomes :: o.bad || !o.restoreOk
    ensures h[i].pc.status in {1, 2, 3, 5}
  {
    HistoryPrefix(c, h, i + 1);
    HistoryStatus(c, h[..i + 1]);
  }

  // ------------------------------------------------------------------
  // Runs that stop early
  // ------------------------------------------------------------------

  /** Some mutant of the run, finished or in progress, is planted and not restored. */
  predicate LeftPlanted(s: State) {
    || (s.cur.planted && !s.cur.restoreOk)
    || (exists o <- s.outcomes :: o.planted && !o.restoreOk)
  }

  /**
   * A run that stops stops with 5 or 3. It then exits with 1 exactly when a planted file is not
   * restored, and otherwise with the status it was stopping with; a further signal makes it 1.
   */
  lemma StoppedRunExits(c: Config, h: seq<State>, i: nat)
    requires History(c, h) && i + 1 < |h| && h[i].pc.Stopping? && h[i + 1].pc.Exited?
    ensures h[i].pc.status in {3, 5}
    ensures h[i + 1].outcomes == h[i].outcomes && h[i + 1].cur == h[i].cur
    ensures h[i + 1].signals == h[i].signals ==> h[i + 1].pc.status == if LeftPlanted(h[i]) then 1 else h[i].pc.status
    ensures h[i + 1].signals != h[i].signals ==> h[i + 1].pc.status == 1
  {
    HistoryPrefix(c, h, i + 1);
    HistoryStatus(c, h[..i + 1]);
    assert Step(c, h[i], h[i + 1]) || NewRun(h[i], h[i + 1]);
  }

  // ------------------------------------------------------------------
  // Signals and the status
  // ------------------------------------------------------------------

  predicate IsRun(c: Config, run: seq<State>) {
    run != [] && IsFirst(run[0]) && forall i :: 0 <= i < |run| - 1 ==> Step(c, run[i], run[i + 1])
  }

  /** A signal of this run has left its mark, or the run is over without success. */
  predicate Signalled(s: State) {
    || s.late || s.pending == Interrupt || s.pc.Handling? || s.pc.Stopping? || s.pc.Killed?
    || (s.pc.Exited? && s.pc.status !in {0, 4})
  }

  /** Only a signal makes the run stop with 5. */
  predicate IsInterrupted(s: State) {
    || s.late || s.pending == Interrupt || s.pc.Handling? || s.pc == Stopping(5) || s.pc == Exited(5)
  }

  /** Inside a mutant the pending error is this mutant's; a run that was signalled is past the point of success. */
  predicate SignalInv(s: State, first: nat) {
    && s.signals <= first
    && (s.signals < first ==> Signalled(s))
    && (IsInterrupted(s) ==> s.signals < first)
    && (s.pending == Interrupt ==> AfterPlant(s.pc))
    && (s.pc.Stopping? ==> s.pc.status in {3, 5})
    && (s.late ==> !BeforePlant(s.pc) && !(s.pc.Exited? && s.pc.status in {0, 4}))
  }

  /** From the finally block, or a refusal, to the end. */
  predicate AfterPlant(pc: Pc) {
    !BeforePlant(pc) && !(pc.Exited? && pc.status in {0, 4})
  }

  lemma PlanSignals(c: Config, s: State, t: State, first: nat)
    requires SignalInv(s, first) && ProgramStep(c, s, t) && BeforePlant(s.pc)
    ensures SignalInv(t, first)
  {
    hide Clean, KnownId, CurrentCopy;
  }

  lemma RestoreSignals(c: Config, s: State, t: State, first: nat)
    requires SignalInv(s, first) && s.k < |s.chosen|
    requires s.pc.Deferred? || s.pc.Restoring? || s.pc.Restored? || s.pc.Verified? || s.pc.Cleared?
    requires RestoreStep(c, s, t)
    ensures SignalInv(t, first)
  {
    hide Clean, CurrentCopy;
  }

  lemma EndSignals(c: Config, s: State, t: State, first: nat)
    requires SignalInv(s, first) && ProgramStep(c, s, t) && !BeforePlant(s.pc)
    requires !(s.pc.Deferred? || s.pc.Restoring? || s.pc.Restored? || s.pc.Verified? || s.pc.Cleared?)
    ensures SignalInv(t, first)
  {
    hide Clean, KnownId, CurrentCopy, AnyFailed, RestoreStep;
  }

  lemma LateSignals(c: Config, s: State, t: State, first: nat)
    requires SignalInv(s, first) && ProgramStep(c, s, t) && !BeforePlant(s.pc)
    ensures SignalInv(t, first)
  {
    hide SignalInv, KnownId, RestoreStep, ReturnStep, FinishEarly;
    if s.pc.Deferred? || s.pc.Restoring? || s.pc.Restored? || s.pc.Verified? || s.pc.Cleared? {
      RestoreSignals(c, s, t, first);
    } else {
      EndSignals(c, s, t, first);
    }
  }

  lemma NextSignal(s: State, t: State, first: nat)
    requires SignalInv(s, first) && SignalStep(s, t)
    ensures SignalInv(t, first)
  {}

  lemma StepSignals(c: Config, s: State, t: State, first: nat)
    requires SignalInv(s, first) && Step(c, s, t)
    ensures SignalInv(t, first)
  {
    hide ProgramStep, SignalStep;
    if ProgramStep(c, s, t) {
      if BeforePlant(s.pc) {
        PlanSignals(c, s, t, first);
      } else {
        LateSignals(c, s, t, first);
      }
    } else if SignalStep(s, t) {
      NextSignal(s, t, first);
    }
  }

  lemma {:induction false} RunSignals(c: Config, run: seq<State>)
    requires IsRun(c, run)
    ensures SignalInv(run[|run| - 1], run[0].signals)
  {
    hide Step, SignalInv;
    var n := |run| - 1;
    if n == 0 {
      NoSignalYet(run[0]);
    } else {
      var front := run[..n];
      forall i | 0 <= i < |front| - 1
        ensures Step(c, front[i], front[i + 1])
      {
        assert Step(c, run[i], run[i + 1]);
      }
      RunSignals(c, front);
      assert Step(c, run[n - 1], run[n - 1 + 1]);
      StepSignals(c, run[n - 1], run[n], run[0].signals);
    }
  }

  lemma NoSignalYet(s: State)
    requires IsFirst(s)
    ensures SignalInv(s, s.signals)
  {}

  /**
   * A run that succeeds was not signalled, wherever in it a signal could have landed; a run
   * that exits with 5 was.
   */
  lemma StatusTellsSignals(c: Config, run: seq<State>)
    requires IsRun(c, run) && run[|run| - 1].pc.Exited?
    ensures var s := run[|run| - 1];
            && (s.pc.status in {0, 4} ==> s.signals == run[0].signals)
            && (s.pc.status == 5 ==> s.signals < run[0].signals)
  {
    hide Step;
    RunSignals(c, run);
  }
}
