/** The exit status tells the truth about the files, and a signal during a restore stops the run. */
module MutantExit {
  import opened MutantRunner
  import opened MutantSafety

  predicate NoneFailed(s: State) {
    forall o <- s.outcomes :: !Failed(o)
  }

  /** A file planted before the current mutant is settled unless an outcome says otherwise. */
  predicate EarlierSettled(c: Config, s: State, f: Path) {
    NoneFailed(s) && f in s.planted ==> Settled(c, s.w, f)
  }

  predicate OthersSettled(c: Config, s: State) {
    forall f <- s.planted :: f != s.cur.file ==> EarlierSettled(c, s, f)
  }

  predicate AllSettled(c: Config, s: State) {
    forall f <- s.planted :: Settled(c, s.w, f)
  }

  predicate NotPlantedYet(s: State) {
    !s.cur.planted && s.cur.restoreOk
  }

  /** The flags of the current mutant against its file, at each place inside a mutant. */
  predicate Flags(c: Config, s: State) {
    var f := s.cur.file;
    match s.pc
    case Checked => NotPlantedYet(s) && Clean(c, s.w, f) && EarlierSettled(c, s, f)
    case Saving => NotPlantedYet(s) && Clean(c, s.w, f) && EarlierSettled(c, s, f)
    case Saved => NotPlantedYet(s) && Clean(c, s.w, f) && EarlierSettled(c, s, f)
    case Marked => s.cur.planted && s.cur.restoreOk && EarlierSettled(c, s, f)
    case Armed => Failed(s.cur) && EarlierSettled(c, s, f)
    case Refused => Failed(s.cur) && EarlierSettled(c, s, f)
    case Recorded => Failed(s.cur)
    case Writing => Failed(s.cur)
    case Planted => Failed(s.cur)
    case Finally => Failed(s.cur)
    case Restoring => s.cur.planted && (s.cur.restoreOk ==> f !in s.w.marker)
    case Restored => s.cur.planted && (s.cur.restoreOk ==> f !in s.w.marker) && Clean(c, s.w, f)
    case Verified => s.cur.planted && (s.cur.restoreOk ==> f !in s.w.marker) && Clean(c, s.w, f)
    case Cleared => s.cur.planted && Settled(c, s.w, f)
    case Returned =>
      if s.cur.planted then s.cur.restoreOk ==> Settled(c, s.w, f)
      else s.cur.restoreOk && EarlierSettled(c, s, f)
    case _ => s.cur.planted && (s.cur.restoreOk ==> Settled(c, s.w, f))
  }

  predicate ExitInv(c: Config, s: State) {
    && s.w.files.Keys == c.head.Keys
    && if InMutant(s.pc) then Current(c, s) && OthersSettled(c, s) && Flags(c, s)
       else match s.pc
         case Stopping(status) => status != EXIT_FAILED && (AnyFailed(s) || AllSettled(c, s))
         case Exited(status) => status != EXIT_FAILED ==> AllSettled(c, s)
         case Killed => true
         case Start => s.planted == {} && !Failed(s.cur)
         case _ => (NoneFailed(s) ==> AllSettled(c, s)) && (Failed(s.cur) ==> !NoneFailed(s))
  }

  // ------------------------------------------------------------------
  // Other files
  // ------------------------------------------------------------------

  lemma WriteOthers(c: Config, s: State, b: Bytes)
    requires OthersSettled(c, s)
    ensures OthersSettled(c, SetFile(s, b))
  {
    var t := SetFile(s, b);
    forall f | f in t.planted && f != t.cur.file
      ensures EarlierSettled(c, t, f)
    {
      assert EarlierSettled(c, s, f);
    }
  }

  lemma ClearOthers(c: Config, s: State, t: State)
    requires OthersSettled(c, s)
    requires t.w == s.w.(marker := s.w.marker - {s.cur.file})
    requires t.planted == s.planted && t.outcomes == s.outcomes && t.cur.file == s.cur.file
    ensures OthersSettled(c, t)
  {
    forall f | f in t.planted && f != t.cur.file
      ensures EarlierSettled(c, t, f)
    {
      assert EarlierSettled(c, s, f);
    }
  }

  lemma SameOthers(c: Config, s: State, t: State)
    requires OthersSettled(c, s)
    requires t.w.files == s.w.files && t.w.marker == s.w.marker
    requires t.planted == s.planted && t.outcomes == s.outcomes && t.cur.file == s.cur.file
    ensures OthersSettled(c, t)
    ensures EarlierSettled(c, t, s.cur.file) == EarlierSettled(c, s, s.cur.file)
  {
    forall f | f in t.planted && f != t.cur.file
      ensures EarlierSettled(c, t, f)
    {
      assert EarlierSettled(c, s, f);
    }
  }

  lemma RecordOthers(c: Config, s: State, t: State)
    requires OthersSettled(c, s) && s.cur.file in s.w.files
    requires s.k < |s.chosen| && t.w == s.w.(marker := s.w.marker[s.cur.file := CurrentCopy(s)])
    requires t.planted == s.planted + {s.cur.file} && t.outcomes == s.outcomes && t.cur.file == s.cur.file
    ensures OthersSettled(c, t)
  {
    forall f | f in t.planted && f != t.cur.file
      ensures EarlierSettled(c, t, f)
    {
      assert EarlierSettled(c, s, f);
    }
  }

  /** At the end of a mutant that did not fail, nothing this run planted is left unsettled. */
  lemma AllAreSettled(c: Config, s: State, outcomes: seq<Outcome>)
    requires OthersSettled(c, s) && s.outcomes <= outcomes
    requires Settled(c, s.w, s.cur.file) || EarlierSettled(c, s, s.cur.file)
    ensures (forall o <- outcomes :: !Failed(o)) ==> AllSettled(c, s)
  {
    if forall o <- outcomes :: !Failed(o) {
      assert forall o <- s.outcomes :: o in outcomes;
      forall f | f in s.planted
        ensures Settled(c, s.w, f)
      {
        assert f != s.cur.file ==> EarlierSettled(c, s, f);
        assert NoneFailed(s);
      }
    }
  }

  // ------------------------------------------------------------------
  // The steps
  // ------------------------------------------------------------------

  lemma StartExit(c: Config, s: State, t: State)
    requires ExitInv(c, s) && ProgramStep(c, s, t) && s.pc.Start?
    ensures ExitInv(c, t)
  {
    hide Clean;
  }

  lemma TakeExit(c: Config, s: State, t: State)
    requires ExitInv(c, s) && ProgramStep(c, s, t) && s.pc.Loop? && s.k < |s.chosen|
    ensures ExitInv(c, t)
  {
    hide AllSettled, Settled;
    AllSettledFrame(c, s, t);
    assert forall o <- s.outcomes :: o in t.outcomes;
    if NoneFailed(s) {
      EverySettled(c, t);
    }
  }

  lemma EverySettled(c: Config, s: State)
    requires AllSettled(c, s)
    ensures forall f <- s.planted :: Settled(c, s.w, f)
  {}

  lemma FinishExit(c: Config, s: State, t: State)
    requires ExitInv(c, s) && ProgramStep(c, s, t) && s.pc.Loop? && s.k >= |s.chosen|
    ensures ExitInv(c, t)
  {
    hide AllSettled;
    AllSettledFrame(c, s, t);
  }

  lemma PlanExit(c: Config, s: State, t: State)
    requires ExitInv(c, s) && ProgramStep(c, s, t)
    requires s.pc.Checked? || s.pc.Saving? || s.pc.Saved? || s.pc.Marked?
    ensures ExitInv(c, t)
  {
    hide OthersSettled, EarlierSettled, Settled;
    SameOthers(c, s, t);
  }

  lemma ArmedExit(c: Config, s: State, t: State)
    requires ExitInv(c, s) && ProgramStep(c, s, t) && s.pc.Armed?
    ensures ExitInv(c, t)
  {
    hide OthersSettled, EarlierSettled, Settled;
    if t.pc.Recorded? {
      RecordOthers(c, s, t);
    } else {
      SameOthers(c, s, t);
    }
  }

  lemma RaiseExit(c: Config, s: State, t: State)
    requires ExitInv(c, s) && (s.pc.Recorded? || s.pc.Writing?) && Raise(s, t)
    ensures ExitInv(c, t)
  {
    hide OthersSettled, EarlierSettled, Settled;
    SameOthers(c, s, t);
  }

  lemma WroteExit(c: Config, s: State, t: State, pc: Pc)
    requires ExitInv(c, s) && (s.pc.Recorded? || s.pc.Writing?) && (pc.Writing? || pc.Planted?) && WroteSome(s, t, pc)
    ensures ExitInv(c, t)
  {
    hide OthersSettled, EarlierSettled, Settled;
    WriteOthers(c, s, t.w.files[s.cur.file]);
    SameOthers(c, SetFile(s, t.w.files[s.cur.file]), t);
  }

  lemma WriteExit(c: Config, s: State, t: State)
    requires ExitInv(c, s) && ProgramStep(c, s, t) && (s.pc.Recorded? || s.pc.Writing?)
    ensures ExitInv(c, t)
  {
    hide ExitInv, KnownId, WroteSome, Raise;
    if Raise(s, t) {
      RaiseExit(c, s, t);
    } else {
      WroteExit(c, s, t, if s.pc.Recorded? then Writing else Planted);
    }
  }

  lemma OpenExit(c: Config, s: State, t: State)
    requires ExitInv(c, s) && ProgramStep(c, s, t) && s.pc.Deferred?
    ensures ExitInv(c, t)
  {
    hide OthersSettled, EarlierSettled, StartStep, TakeStep, FinishStep, SaveStep, RecordStep, PlantStep,
      ReturnStep;
    if t.pc.Judged? {
      SameOthers(c, s, t);
    } else {
      WriteOthers(c, s, t.w.files[s.cur.file]);
      SameOthers(c, SetFile(s, t.w.files[s.cur.file]), t);
    }
  }

  lemma PutBackExit(c: Config, s: State, t: State)
    requires ExitInv(c, s) && ProgramStep(c, s, t) && s.pc.Restoring?
    ensures ExitInv(c, t)
  {
    hide OthersSettled, EarlierSettled, StartStep, TakeStep, FinishStep, SaveStep, RecordStep, PlantStep,
      ReturnStep;
    if t.pc.Judged? {
      SameOthers(c, s, t);
    } else {
      WriteOthers(c, s, s.original);
      SameOthers(c, SetFile(s, s.original), t);
    }
  }

  lemma FrameExit(c: Config, s: State, t: State)
    requires ExitInv(c, s) && ProgramStep(c, s, t)
    requires s.pc.Planted? || s.pc.Refused? || s.pc.Finally? || s.pc.Trying? || s.pc.Handling? || s.pc.Judged? || s.pc.Released?
    ensures ExitInv(c, t)
  {
    hide OthersSettled, EarlierSettled, Settled, Clean, KnownId, StartStep, TakeStep, FinishStep, SaveStep, RecordStep,
      RestoreStep, ReturnStep, AllSettled;
    SameOthers(c, s, t);
  }

  lemma CheckExit(c: Config, s: State, t: State)
    requires ExitInv(c, s) && ProgramStep(c, s, t) && (s.pc.Restored? || s.pc.Verified? || s.pc.Cleared?)
    ensures ExitInv(c, t)
  {
    hide OthersSettled, EarlierSettled, KnownId, StartStep, TakeStep, FinishStep, SaveStep, RecordStep, PlantStep,
      ReturnStep, AllSettled;
    if t.w == s.w {
      SameOthers(c, s, t);
    } else {
      ClearOthers(c, s, t);
    }
  }

  lemma ReturnExit(c: Config, s: State, t: State)
    requires ExitInv(c, s) && ProgramStep(c, s, t) && s.pc.Returned?
    ensures ExitInv(c, t)
  {
    hide OthersSettled, EarlierSettled, Settled, AllSettled, KnownId, StartStep, TakeStep, FinishStep, SaveStep, RecordStep,
      PlantStep, RestoreStep;
    var outcomes := t.outcomes;
    if !Failed(s.cur) {
      AllAreSettled(c, s, outcomes);
      AllSettledFrame(c, s, t);
    } else if outcomes != s.outcomes {
      assert outcomes[|s.outcomes|] in outcomes;
    }
  }

  lemma AllSettledFrame(c: Config, s: State, t: State)
    requires t.w == s.w && t.planted == s.planted
    ensures AllSettled(c, t) == AllSettled(c, s)
  {}

  lemma StoppingExit(c: Config, s: State, t: State)
    requires ExitInv(c, s) && ProgramStep(c, s, t) && s.pc.Stopping?
    ensures ExitInv(c, t)
  {
    hide AllSettled;
    AllSettledFrame(c, s, t);
  }

  lemma SignalInside(c: Config, s: State, t: State)
    requires ExitInv(c, s) && SignalStep(s, t) && InMutant(s.pc) && InMutant(t.pc)
    ensures ExitInv(c, t)
  {
    hide OthersSettled, EarlierSettled, Settled;
    SameOthers(c, s, t);
  }

  lemma SignalStops(c: Config, s: State, t: State)
    requires ExitInv(c, s) && SignalStep(s, t) && !(InMutant(s.pc) && InMutant(t.pc))
    ensures ExitInv(c, t)
  {
    hide OthersSettled, EarlierSettled, Settled, AllSettled;
    AllSettledFrame(c, s, t);
    if InMutant(s.pc) && !Failed(s.cur) {
      AllAreSettled(c, s, s.outcomes);
    }
  }

  lemma StepExit(c: Config, s: State, t: State)
    requires ExitInv(c, s) && Step(c, s, t)
    ensures ExitInv(c, t)
  {
    hide ProgramStep, SignalStep, ExitInv;
    if ProgramStep(c, s, t) {
      EndedHasNoStep(c, s, t);
      match s.pc
      case Start => StartExit(c, s, t);
      case Loop =>
        if s.k < |s.chosen| {
          TakeExit(c, s, t);
        } else {
          FinishExit(c, s, t);
        }
      case Checked => PlanExit(c, s, t);
      case Saving => PlanExit(c, s, t);
      case Saved => PlanExit(c, s, t);
      case Marked => PlanExit(c, s, t);
      case Armed => ArmedExit(c, s, t);
      case Recorded => WriteExit(c, s, t);
      case Writing => WriteExit(c, s, t);
      case Deferred => OpenExit(c, s, t);
      case Restoring => PutBackExit(c, s, t);
      case Restored => CheckExit(c, s, t);
      case Verified => CheckExit(c, s, t);
      case Cleared => CheckExit(c, s, t);
      case Returned => ReturnExit(c, s, t);
      case Stopping(_) => StoppingExit(c, s, t);
      case _ => FrameExit(c, s, t);
    } else if SignalStep(s, t) {
      if InMutant(s.pc) && InMutant(t.pc) {
        SignalInside(c, s, t);
      } else {
        SignalStops(c, s, t);
      }
    } else {
      KillExit(c, s, t);
    }
  }

  lemma KillExit(c: Config, s: State, t: State)
    requires ExitInv(c, s) && KillStep(s, t)
    ensures ExitInv(c, t)
  {}

  lemma NewRunExit(c: Config, s: State, t: State)
    requires ExitInv(c, s) && NewRun(s, t)
    ensures ExitInv(c, t)
  {}

  lemma FirstExit(c: Config, s: State)
    requires StartsClean(c, s)
    ensures ExitInv(c, s)
  {}

  lemma {:induction false} HistoryExit(c: Config, h: seq<State>)
    requires History(c, h)
    ensures ExitInv(c, h[|h| - 1])
  {
    hide Step, NewRun, ExitInv, StartsClean;
    var n := |h| - 1;
    if n == 0 {
      FirstExit(c, h[0]);
    } else {
      var front := h[..n];
      HistoryPrefix(c, h, n);
      HistoryExit(c, front);
      assert front[|front| - 1] == h[n - 1];
      assert Step(c, h[n - 1], h[n - 1 + 1]) || NewRun(h[n - 1], h[n - 1 + 1]);
      if Step(c, h[n - 1], h[n]) {
        StepExit(c, h[n - 1], h[n]);
      } else {
        NewRunExit(c, h[n - 1], h[n]);
      }
    }
  }

  lemma HistoryPrefix(c: Config, h: seq<State>, n: nat)
    requires History(c, h) && 0 < n <= |h|
    ensures History(c, h[..n])
  {
    hide Step, NewRun, StartsClean;
    forall i | 0 <= i < n - 1
      ensures Step(c, h[..n][i], h[..n][i + 1]) || NewRun(h[..n][i], h[..n][i + 1])
    {
      assert Step(c, h[i], h[i + 1]) || NewRun(h[i], h[i + 1]);
    }
  }

  /**
   * Whatever signals land wherever they land: a run that exits with a status other than 1
   * has left every file it planted with its committed bytes and without a marker entry.
   */
  lemma ExitStatusIsHonest(c: Config, h: seq<State>, i: nat)
    requires History(c, h) && i < |h|
    requires h[i].pc.Exited? && h[i].pc.status != EXIT_FAILED
    ensures forall f <- h[i].planted :: Settled(c, h[i].w, f)
  {
    HistoryPrefix(c, h, i + 1);
    HistoryExit(c, h[..i + 1]);
  }

  // ------------------------------------------------------------------
  // A signal during a restore stops the run
  // ------------------------------------------------------------------

  /** The places from which a file can still be planted. */
  predicate BeforePlant(pc: Pc) {
    || pc.Start? || pc.Loop? || pc.Checked? || pc.Saving? || pc.Saved? || pc.Marked? || pc.Armed? || pc.Recorded? || pc.Writing?
    || pc.Planted?
  }

  lemma LateStays(c: Config, s: State, t: State)
    requires Step(c, s, t)
    ensures s.late ==> t.late
    ensures (s.late ==> !BeforePlant(s.pc)) ==> (t.late ==> !BeforePlant(t.pc))
    ensures s.late && !BeforePlant(s.pc) ==> t.planted == s.planted
  {
    hide ProgramStep, SignalStep;
    if SignalStep(s, t) {
      SignalLate(s, t);
    } else if ProgramStep(c, s, t) {
      if BeforePlant(s.pc) {
        PlanLate(c, s, t);
      } else {
        RestoreLate(c, s, t);
      }
    }
  }

  lemma SignalLate(s: State, t: State)
    requires SignalStep(s, t)
    ensures s.late ==> t.late
    ensures (s.late ==> !BeforePlant(s.pc)) ==> (t.late ==> !BeforePlant(t.pc))
    ensures t.planted == s.planted
  {}

  /** Before the restore no step of the program touches the late flag. */
  lemma PlanLate(c: Config, s: State, t: State)
    requires ProgramStep(c, s, t) && BeforePlant(s.pc)
    ensures t.late == s.late
  {
    hide Clean, KnownId, AnyFailed, CurrentCopy;
  }

  /** From the restore on, a run with a late signal does not come back to a plant. */
  lemma RestoreLate(c: Config, s: State, t: State)
    requires ProgramStep(c, s, t) && !BeforePlant(s.pc)
    ensures s.late ==> t.late
    ensures t.planted == s.planted && (t.late ==> !BeforePlant(t.pc))
  {
    hide Clean, KnownId, AnyFailed, CurrentCopy, RestoreStep;
    if s.pc.Deferred? || s.pc.Restoring? || s.pc.Restored? || s.pc.Verified? || s.pc.Cleared? {
      RestoreStepLate(c, s, t);
    }
  }

  lemma RestoreStepLate(c: Config, s: State, t: State)
    requires s.pc.Deferred? || s.pc.Restoring? || s.pc.Restored? || s.pc.Verified? || s.pc.Cleared?
    requires s.k < |s.chosen| && RestoreStep(c, s, t)
    ensures t.late == s.late && t.planted == s.planted && !BeforePlant(t.pc)
  {
    hide Clean, KnownId, CurrentCopy;
  }

  lemma {:induction false} LateNeverPlants(c: Config, run: seq<State>)
    requires run != [] && run[0].late && !BeforePlant(run[0].pc)
    requires forall i :: 0 <= i < |run| - 1 ==> Step(c, run[i], run[i + 1])
    ensures run[|run| - 1].late && !BeforePlant(run[|run| - 1].pc) && run[|run| - 1].planted == run[0].planted
  {
    hide Step;
    if |run| > 1 {
      assert Step(c, run[0], run[0 + 1]);
      LateStays(c, run[0], run[1]);
      forall i | 0 <= i < |run[1..]| - 1
        ensures Step(c, run[1..][i], run[1..][i + 1])
      {
        assert Step(c, run[i + 1], run[i + 1 + 1]);
      }
      LateNeverPlants(c, run[1..]);
    }
  }

  /** A signal that lands during a restore is recorded, and the run plants nothing after it. */
  lemma SignalDuringRestoreStops(c: Config, s: State, run: seq<State>)
    requires run != [] && SignalStep(s, run[0]) && IsDeferring(s.pc)
    requires forall i :: 0 <= i < |run| - 1 ==> Step(c, run[i], run[i + 1])
    ensures run[0].late
    ensures !BeforePlant(run[|run| - 1].pc) && run[|run| - 1].planted == s.planted
  {
    hide Step;
    LateNeverPlants(c, run);
  }
}
