/** What every step of every run keeps: no original is lost, and the exit status does not lie. */
module MutantSafety {
  import opened MutantRunner

  // ------------------------------------------------------------------
  // No original is lost
  // ------------------------------------------------------------------

  /** The file holds its original bytes, or the marker names a copy that does. */
  predicate Recoverable(c: Config, w: World, f: Path) {
    || Clean(c, w, f)
    || (f in c.head && f in w.marker && w.marker[f] in w.saved && w.saved[w.marker[f]] == c.head[f])
  }

  /** A marker entry names a copy of the file it is filed under. */
  predicate MarkerOk(c: Config, w: World) {
    forall f <- w.marker :: KnownId(c, w.marker[f].id) && c.fileOf[w.marker[f].id] == f
  }

  predicate AllRecoverable(c: Config, w: World) {
    forall f <- c.head :: Recoverable(c, w, f)
  }

  /** The marker names the current mutant's copy, and the copy is whole. */
  predicate HasBackup(s: State)
    requires s.k < |s.chosen|
  {
    && s.cur.file in s.w.marker && s.w.marker[s.cur.file] == CurrentCopy(s)
    && CurrentCopy(s) in s.w.saved && s.w.saved[CurrentCopy(s)] == s.original
  }

  predicate HasCopy(s: State)
    requires s.k < |s.chosen|
  {
    CurrentCopy(s) in s.w.saved && s.w.saved[CurrentCopy(s)] == s.original
  }

  /** The file is as committed and the marker does not name it. */
  predicate Settled(c: Config, w: World, f: Path) {
    Clean(c, w, f) && f !in w.marker
  }

  /** What is known of the current mutant. */
  predicate Current(c: Config, s: State) {
    && s.k < |s.chosen| && KnownId(c, s.chosen[s.k])
    && s.cur.file == c.fileOf[s.chosen[s.k]] && s.original == c.head[s.cur.file]
  }

  /** What holds of the current file at each place, in runs whose restores are not repeated after they succeed. */
  predicate CurrentFile(c: Config, s: State)
    requires Current(c, s)
  {
    match s.pc
    case Checked => Clean(c, s.w, s.cur.file)
    case Saving => Clean(c, s.w, s.cur.file)
    case Saved => Clean(c, s.w, s.cur.file) && HasCopy(s)
    case Marked => Clean(c, s.w, s.cur.file) && HasCopy(s)
    case Armed => Clean(c, s.w, s.cur.file) && HasCopy(s)
    case Refused => Clean(c, s.w, s.cur.file)
    case Verified => Clean(c, s.w, s.cur.file) && HasBackup(s)
    case Cleared => Settled(c, s.w, s.cur.file)
    case Judged => if s.cur.restoreOk then Settled(c, s.w, s.cur.file) else HasBackup(s)
    case Released => if s.cur.restoreOk then Settled(c, s.w, s.cur.file) else HasBackup(s)
    case Returned => Clean(c, s.w, s.cur.file) || HasBackup(s)
    case _ => HasBackup(s)
  }

  predicate Inv(c: Config, s: State) {
    && s.w.files.Keys == c.head.Keys
    && MarkerOk(c, s.w)
    && AllRecoverable(c, s.w)
    && (InMutant(s.pc) ==> Current(c, s) && CurrentFile(c, s))
  }

  /**
   * A signal that starts a restore the marker does not cover: one that lands while the plant
   * is being recorded, or one that lands between a restore that succeeded and its return.
   */
  predicate UncoveredRestore(s: State, t: State) {
    || (s.pc.Armed? && t.pc.Finally?)
    || (s.pc.Released? && s.cur.restoreOk && t.pc.Handling?)
  }

  predicate SafeStep(c: Config, s: State, t: State) {
    Step(c, s, t) && !UncoveredRestore(s, t)
  }

  /** Rewriting a saved copy harms no file but the one it is a copy of, and that one is clean. */
  lemma SaveKeeps(c: Config, s: State, b: Bytes)
    requires MarkerOk(c, s.w) && AllRecoverable(c, s.w) && Current(c, s) && Clean(c, s.w, s.cur.file)
    ensures AllRecoverable(c, s.w.(saved := s.w.saved[CurrentCopy(s) := b]))
  {
    var w' := s.w.(saved := s.w.saved[CurrentCopy(s) := b]);
    forall f | f in c.head
      ensures Recoverable(c, w', f)
    {
      assert Recoverable(c, s.w, f);
      if f in s.w.marker && s.w.marker[f] == CurrentCopy(s) {
        assert f == s.cur.file;
      }
    }
  }

  /** Writing to the current file harms no file once the backup is in place. */
  lemma WriteKeeps(c: Config, s: State, b: Bytes)
    requires AllRecoverable(c, s.w) && Current(c, s) && (HasBackup(s) || b == s.original)
    requires s.cur.file in s.w.files
    ensures AllRecoverable(c, SetFile(s, b).w)
  {
    var w' := SetFile(s, b).w;
    forall f | f in c.head
      ensures Recoverable(c, w', f)
    {
      assert Recoverable(c, s.w, f);
    }
  }

  lemma RecordKeeps(c: Config, s: State)
    requires MarkerOk(c, s.w) && AllRecoverable(c, s.w) && Current(c, s) && HasCopy(s)
    ensures var w' := s.w.(marker := s.w.marker[s.cur.file := CurrentCopy(s)]);
            MarkerOk(c, w') && AllRecoverable(c, w')
  {
    var w' := s.w.(marker := s.w.marker[s.cur.file := CurrentCopy(s)]);
    forall f | f in c.head
      ensures Recoverable(c, w', f)
    {
      assert Recoverable(c, s.w, f);
    }
  }

  lemma ClearKeeps(c: Config, s: State)
    requires MarkerOk(c, s.w) && AllRecoverable(c, s.w) && Current(c, s) && Clean(c, s.w, s.cur.file)
    ensures var w' := s.w.(marker := s.w.marker - {s.cur.file});
            MarkerOk(c, w') && AllRecoverable(c, w') && Settled(c, w', s.cur.file)
  {
    var w' := s.w.(marker := s.w.marker - {s.cur.file});
    forall f | f in c.head
      ensures Recoverable(c, w', f)
    {
      assert Recoverable(c, s.w, f);
    }
  }

  lemma PlanKeeps(c: Config, s: State, t: State)
    requires Inv(c, s) && ProgramStep(c, s, t)
    requires s.pc.Start? || s.pc.Loop? || s.pc.Checked? || s.pc.Saving? || s.pc.Saved? || s.pc.Marked? || s.pc.Armed?
    ensures Inv(c, t)
  {
    hide Inv, ProgramStep;
    if s.pc.Start? || s.pc.Loop? {
      TakeKeeps(c, s, t);
    } else if s.pc.Checked? || s.pc.Saving? {
      SavingKeeps(c, s, t);
    } else if s.pc.Armed? {
      ArmedKeeps(c, s, t);
    } else {
      FlagKeeps(c, s, t);
    }
  }

  lemma TakeKeeps(c: Config, s: State, t: State)
    requires Inv(c, s) && ProgramStep(c, s, t) && (s.pc.Start? || s.pc.Loop?)
    ensures Inv(c, t)
  {
    hide AllRecoverable, MarkerOk, HasBackup, HasCopy, Settled, RestoreStep, ReturnStep, SaveStep, RecordStep, PlantStep, AnyFailed;
  }

  lemma SavingKeeps(c: Config, s: State, t: State)
    requires Inv(c, s) && ProgramStep(c, s, t) && (s.pc.Checked? || s.pc.Saving?)
    ensures Inv(c, t)
  {
    hide AllRecoverable, HasBackup, Settled, RestoreStep, ReturnStep, TakeStep, RecordStep, PlantStep, AnyFailed, StartStep, FinishStep;
    SaveKeeps(c, s, s.original);
    if t.pc.Saving? {
      SaveKeeps(c, s, t.w.saved[CurrentCopy(s)]);
    }
  }

  lemma FlagKeeps(c: Config, s: State, t: State)
    requires Inv(c, s) && ProgramStep(c, s, t) && (s.pc.Saved? || s.pc.Marked?)
    ensures Inv(c, t)
  {
    hide AllRecoverable, MarkerOk, HasBackup, Settled, RestoreStep, ReturnStep, TakeStep, RecordStep, PlantStep, SaveStep, AnyFailed, StartStep,
      FinishStep, Clean, KnownId;
  }

  lemma ArmedKeeps(c: Config, s: State, t: State)
    requires Inv(c, s) && ProgramStep(c, s, t) && s.pc.Armed?
    ensures Inv(c, t)
  {
    hide AllRecoverable, MarkerOk, Settled, RestoreStep, ReturnStep, TakeStep, PlantStep, SaveStep, AnyFailed, StartStep, FinishStep, KnownId;
    RecordKeeps(c, s);
  }

  lemma PlantKeeps(c: Config, s: State, t: State)
    requires Inv(c, s) && ProgramStep(c, s, t)
    requires s.pc.Recorded? || s.pc.Writing? || s.pc.Planted? || s.pc.Refused? || s.pc.Finally?
    ensures Inv(c, t)
  {
    hide Inv, ProgramStep;
    if s.pc.Recorded? || s.pc.Writing? {
      WritingKeeps(c, s, t);
    } else {
      AfterPlantKeeps(c, s, t);
    }
  }

  /** Writing anything to a file with a backup, on the way to a place that asks for no more. */
  lemma WriteIsSafe(c: Config, s: State, b: Bytes, pc: Pc)
    requires Inv(c, s) && InMutant(s.pc) && HasBackup(s) && s.cur.file in s.w.files
    requires pc.Writing? || pc.Planted? || pc.Restoring? || pc.Restored?
    ensures Inv(c, SetFile(s, b).(pc := pc))
  {
    hide AllRecoverable, Settled, KnownId, Clean;
    WriteKeeps(c, s, b);
  }

  lemma CurrentIsThere(c: Config, s: State)
    requires Inv(c, s) && InMutant(s.pc)
    ensures Current(c, s) && CurrentFile(c, s) && s.cur.file in s.w.files
  {
    hide AllRecoverable, MarkerOk, CurrentFile;
  }

  lemma ErrorIsSafe(c: Config, s: State, t: State)
    requires Inv(c, s) && InMutant(s.pc) && HasBackup(s) && (Raise(s, t) || RestoreFails(s, t))
    ensures Inv(c, t)
  {
    hide AllRecoverable, MarkerOk, Settled, KnownId, Clean;
  }

  lemma WritingKeeps(c: Config, s: State, t: State)
    requires Inv(c, s) && ProgramStep(c, s, t) && (s.pc.Recorded? || s.pc.Writing?)
    ensures Inv(c, t)
  {
    hide Inv, RestoreStep, ReturnStep, TakeStep, RecordStep, SaveStep, AnyFailed, StartStep, FinishStep, KnownId, HasCopy, HasBackup, Clean, Settled,
      MarkerOk, AllRecoverable;
    CurrentIsThere(c, s);
    if Raise(s, t) {
      ErrorIsSafe(c, s, t);
    } else {
      WriteIsSafe(c, s, t.w.files[s.cur.file], t.pc);
    }
  }

  lemma AfterPlantKeeps(c: Config, s: State, t: State)
    requires Inv(c, s) && ProgramStep(c, s, t) && (s.pc.Planted? || s.pc.Refused? || s.pc.Finally?)
    ensures Inv(c, t)
  {
    hide AllRecoverable, MarkerOk, Settled, RestoreStep, ReturnStep, TakeStep, RecordStep, SaveStep, PlantStep, AnyFailed, StartStep, FinishStep,
      KnownId, HasCopy, Clean;
  }

  lemma RestoreWriteKeeps(c: Config, s: State, t: State)
    requires Inv(c, s) && ProgramStep(c, s, t) && (s.pc.Deferred? || s.pc.Restoring?)
    ensures Inv(c, t)
  {
    hide Inv, ProgramStep;
    if s.pc.Deferred? {
      OpenKeeps(c, s, t);
    } else {
      PutBackKeeps(c, s, t);
    }
  }

  lemma OpenKeeps(c: Config, s: State, t: State)
    requires Inv(c, s) && ProgramStep(c, s, t) && s.pc.Deferred?
    ensures Inv(c, t)
  {
    hide Inv, ReturnStep, TakeStep, RecordStep, SaveStep, PlantStep, AnyFailed, StartStep, FinishStep, KnownId, HasCopy, HasBackup, Clean, Settled,
      MarkerOk, AllRecoverable;
    CurrentIsThere(c, s);
    if RestoreFails(s, t) {
      ErrorIsSafe(c, s, t);
    } else {
      WriteIsSafe(c, s, t.w.files[s.cur.file], Restoring);
    }
  }

  lemma PutBackKeeps(c: Config, s: State, t: State)
    requires Inv(c, s) && ProgramStep(c, s, t) && s.pc.Restoring?
    ensures Inv(c, t)
  {
    hide Inv, ReturnStep, TakeStep, RecordStep, SaveStep, PlantStep, AnyFailed, StartStep, FinishStep, KnownId, HasCopy, HasBackup, Clean, Settled,
      MarkerOk, AllRecoverable;
    CurrentIsThere(c, s);
    if RestoreFails(s, t) {
      ErrorIsSafe(c, s, t);
    } else {
      WriteIsSafe(c, s, s.original, Restored);
    }
  }

  lemma RestoreCheckKeeps(c: Config, s: State, t: State)
    requires Inv(c, s) && ProgramStep(c, s, t) && (s.pc.Restored? || s.pc.Verified? || s.pc.Cleared?)
    ensures Inv(c, t)
  {
    hide Inv, ProgramStep;
    if s.pc.Verified? {
      VerifiedKeeps(c, s, t);
    } else {
      RestoredKeeps(c, s, t);
    }
  }

  lemma VerifiedKeeps(c: Config, s: State, t: State)
    requires Inv(c, s) && ProgramStep(c, s, t) && s.pc.Verified?
    ensures Inv(c, t)
  {
    hide AllRecoverable, MarkerOk, ReturnStep, TakeStep, RecordStep, SaveStep, PlantStep, AnyFailed, StartStep, FinishStep, KnownId, HasCopy, Clean;
    VerifiedIsClean(c, s);
    ClearKeeps(c, s);
  }

  lemma RestoredKeeps(c: Config, s: State, t: State)
    requires Inv(c, s) && ProgramStep(c, s, t) && (s.pc.Restored? || s.pc.Cleared?)
    ensures Inv(c, t)
  {
    hide AllRecoverable, MarkerOk, ReturnStep, TakeStep, RecordStep, SaveStep, PlantStep, AnyFailed, StartStep, FinishStep, KnownId, HasCopy;
  }

  lemma RestoreFrameKeeps(c: Config, s: State, t: State)
    requires Inv(c, s) && ProgramStep(c, s, t)
    requires s.pc.Trying? || s.pc.Handling? || s.pc.Judged? || s.pc.Released? || s.pc.Returned? || s.pc.Stopping?
    ensures Inv(c, t)
  {
    hide Inv, ProgramStep;
    if s.pc.Returned? || s.pc.Stopping? {
      LeaveKeeps(c, s, t);
    } else {
      FrameKeeps(c, s, t);
    }
  }

  /** The mutant's outcome is recorded, or the run ends: nothing of the world changes. */
  lemma LeaveKeeps(c: Config, s: State, t: State)
    requires Inv(c, s) && ProgramStep(c, s, t) && (s.pc.Returned? || s.pc.Stopping?)
    ensures Inv(c, t)
  {
    hide AllRecoverable, MarkerOk, RestoreStep, TakeStep, RecordStep, SaveStep, PlantStep, AnyFailed, StartStep, FinishStep, KnownId, HasCopy,
      HasBackup, Clean, Current;
  }

  lemma FrameKeeps(c: Config, s: State, t: State)
    requires Inv(c, s) && ProgramStep(c, s, t) && (s.pc.Trying? || s.pc.Handling? || s.pc.Judged? || s.pc.Released?)
    ensures Inv(c, t)
  {
    hide AllRecoverable, MarkerOk, RestoreStep, ReturnStep, TakeStep, RecordStep, SaveStep, PlantStep, AnyFailed, StartStep, FinishStep, KnownId,
      HasCopy, Clean;
  }

  lemma VerifiedIsClean(c: Config, s: State)
    requires Inv(c, s) && s.pc.Verified?
    ensures Clean(c, s.w, s.cur.file)
  {}

  lemma SafeSignalKeeps(c: Config, s: State, t: State)
    requires Inv(c, s) && SignalStep(s, t) && !UncoveredRestore(s, t)
    ensures Inv(c, t)
  {
    hide Inv, SignalStep;
    if IsDeferring(s.pc) {
      DeferredSignalKeeps(c, s, t);
    } else if InMutant(s.pc) && InMutant(t.pc) {
      InnerSignalKeeps(c, s, t);
    } else {
      EndingSignalKeeps(c, s, t);
    }
  }

  lemma DeferredSignalKeeps(c: Config, s: State, t: State)
    requires Inv(c, s) && SignalStep(s, t) && IsDeferring(s.pc)
    ensures Inv(c, t)
  {
    hide AllRecoverable, MarkerOk, KnownId, Clean, HasCopy;
  }

  lemma InnerSignalKeeps(c: Config, s: State, t: State)
    requires Inv(c, s) && SignalStep(s, t) && !UncoveredRestore(s, t) && !IsDeferring(s.pc) && InMutant(s.pc) && InMutant(t.pc)
    ensures Inv(c, t)
  {
    hide AllRecoverable, MarkerOk, KnownId, Clean, HasCopy;
  }

  lemma EndingSignalKeeps(c: Config, s: State, t: State)
    requires Inv(c, s) && SignalStep(s, t) && !IsDeferring(s.pc) && !(InMutant(s.pc) && InMutant(t.pc))
    ensures Inv(c, t)
  {
    hide AllRecoverable, MarkerOk, CurrentFile, Current;
  }

  lemma SafeStepKeeps(c: Config, s: State, t: State)
    requires Inv(c, s) && SafeStep(c, s, t)
    ensures Inv(c, t)
  {
    hide ProgramStep, SignalStep, Inv;
    if ProgramStep(c, s, t) {
      EndedHasNoStep(c, s, t);
      if s.pc.Start? || s.pc.Loop? || s.pc.Checked? || s.pc.Saving? || s.pc.Saved? || s.pc.Marked? || s.pc.Armed? {
        PlanKeeps(c, s, t);
      } else if s.pc.Recorded? || s.pc.Writing? || s.pc.Planted? || s.pc.Refused? || s.pc.Finally? {
        PlantKeeps(c, s, t);
      } else if s.pc.Deferred? || s.pc.Restoring? {
        RestoreWriteKeeps(c, s, t);
      } else if s.pc.Restored? || s.pc.Verified? || s.pc.Cleared? {
        RestoreCheckKeeps(c, s, t);
      } else {
        RestoreFrameKeeps(c, s, t);
      }
    } else if SignalStep(s, t) {
      SafeSignalKeeps(c, s, t);
    } else {
      KillKeeps(c, s, t);
    }
  }

  lemma KillKeeps(c: Config, s: State, t: State)
    requires Inv(c, s) && KillStep(s, t)
    ensures Inv(c, t)
  {}

  /** A history: runs one after another on one tree that starts clean, with no marker entry. */
  ghost predicate StartsClean(c: Config, s: State) {
    IsFirst(s) && s.w.files == c.head && s.w.marker == map[]
  }

  ghost predicate History(c: Config, h: seq<State>) {
    && h != [] && StartsClean(c, h[0])
    && forall i :: 0 <= i < |h| - 1 ==> Step(c, h[i], h[i + 1]) || NewRun(h[i], h[i + 1])
  }

  ghost predicate SafeHistory(c: Config, h: seq<State>) {
    && h != [] && StartsClean(c, h[0])
    && forall i :: 0 <= i < |h| - 1 ==> SafeStep(c, h[i], h[i + 1]) || NewRun(h[i], h[i + 1])
  }

  lemma {:induction false} SafeHistoryInv(c: Config, h: seq<State>)
    requires SafeHistory(c, h)
    ensures Inv(c, h[|h| - 1])
  {
    hide SafeStep, IsFirst;
    var n := |h| - 1;
    if n == 0 {
      StartInv(c, h[0]);
    } else {
      var front := h[..n];
      forall i | 0 <= i < |front| - 1
        ensures SafeStep(c, front[i], front[i + 1]) || NewRun(front[i], front[i + 1])
      {
        assert front[i] == h[i] && front[i + 1] == h[i + 1];
      }
      SafeHistoryInv(c, front);
      assert h[n - 1] == front[|front| - 1];
      assert SafeStep(c, h[n - 1], h[n - 1 + 1]) || NewRun(h[n - 1], h[n - 1 + 1]);
      if SafeStep(c, h[n - 1], h[n]) {
        SafeStepKeeps(c, h[n - 1], h[n]);
      } else {
        NewRunKeeps(c, h[n - 1], h[n]);
      }
    }
  }

  lemma StartInv(c: Config, s: State)
    requires StartsClean(c, s)
    ensures Inv(c, s)
  {}

  lemma NewRunKeeps(c: Config, s: State, t: State)
    requires Inv(c, s) && NewRun(s, t)
    ensures Inv(c, t)
  {
    hide AllRecoverable, MarkerOk;
  }

  /**
   * In every state of every history, kills included, every file either holds its original
   * bytes or is named in the marker with a copy that holds them, as long as no signal
   * starts a restore that the marker does not cover.
   */
  lemma OriginalsAreNeverLost(c: Config, h: seq<State>, i: nat)
    requires SafeHistory(c, h) && i < |h|
    ensures AllRecoverable(c, h[i].w)
  {
    hide AllRecoverable;
    var front := h[..i + 1];
    forall j | 0 <= j < |front| - 1
      ensures SafeStep(c, front[j], front[j + 1]) || NewRun(front[j], front[j + 1])
    {
      assert front[j] == h[j] && front[j + 1] == h[j + 1];
    }
    SafeHistoryInv(c, front);
  }

  /**
   * The condition is exact: after any such signal, if the marker does not name the file, three
   * more steps reach a state where a kill leaves the file without its bytes and without an entry.
   */
  lemma UncoveredRestoreCanLose(c: Config, s: State, t: State) returns (run: seq<State>)
    requires Inv(c, s) && SignalStep(s, t) && UncoveredRestore(s, t)
    requires s.cur.file !in s.w.marker && c.head[s.cur.file] != []
    ensures |run| >= 2 && run[0] == s && run[1] == t
    ensures forall i :: 0 <= i < |run| - 1 ==> Step(c, run[i], run[i + 1])
    ensures !Recoverable(c, run[|run| - 1].w, s.cur.file)
  {
    hide AllRecoverable, MarkerOk, CurrentFile, Step;
    SignalKeepsCurrent(c, s, t);
    var a := t.(pc := Trying, late := t.late || t.pc.Handling?);
    var b := a.(pc := Deferred);
    var d := SetFile(b, []).(pc := Restoring);
    StepsToTheWrite(c, t, a, b, d);
    run := [s, t, a, b, d];
    assert Step(c, s, t) by { SignalIsStep(c, s, t); }
    assert d.w.files[s.cur.file] == [];
  }

  lemma SignalIsStep(c: Config, s: State, t: State)
    requires SignalStep(s, t)
    ensures Step(c, s, t)
  {
    hide SignalStep, ProgramStep;
  }

  lemma SignalKeepsCurrent(c: Config, s: State, t: State)
    requires Inv(c, s) && SignalStep(s, t) && UncoveredRestore(s, t)
    ensures Current(c, t) && t.cur.file == s.cur.file && t.w == s.w && t.cur.file in t.w.files && t.cur.file in c.head
  {
    hide AllRecoverable, MarkerOk;
  }

  lemma StepsToTheWrite(c: Config, t: State, a: State, b: State, d: State)
    requires Current(c, t) && (t.pc.Finally? || t.pc.Handling?)
    requires a == t.(pc := Trying, late := t.late || t.pc.Handling?) && b == a.(pc := Deferred)
    requires d == SetFile(b, []).(pc := Restoring)
    ensures Step(c, t, a) && Step(c, a, b) && Step(c, b, d)
  {
    hide SignalStep, KillStep;
    assert ProgramStep(c, t, a);
    assert ProgramStep(c, a, b);
    assert WroteSome(b, d, Restoring);
    assert ProgramStep(c, b, d);
  }

  const LOST_CONFIG := Config(map["a.py" := [1, 2, 3]], map["M1" := "a.py"], map[])

  ghost predicate Steps(c: Config, h: seq<State>) {
    h != [] && forall i :: 0 <= i < |h| - 1 ==> Step(c, h[i], h[i + 1])
  }

  lemma JoinSteps(c: Config, a: seq<State>, b: seq<State>)
    requires Steps(c, a) && Steps(c, b) && a[|a| - 1] == b[0]
    ensures Steps(c, a + b[1..])
    ensures (a + b[1..])[0] == a[0] && (a + b[1..])[|a + b[1..]| - 1] == b[|b| - 1]
  {
    hide Step;
    var h := a + b[1..];
    forall i | 0 <= i < |h| - 1
      ensures Step(c, h[i], h[i + 1])
    {
      if i >= |a| - 1 {
        assert h[i] == b[i - |a| + 1] && h[i + 1] == b[i - |a| + 2];
      }
    }
  }

  /** The mutant of the one file, before its plant is recorded. */
  predicate Unrecorded(s: State, pc: Pc) {
    && s.pc == pc && s.k == 0 && s.chosen == ["M1"]
    && s.w.files == LOST_CONFIG.head && s.w.marker == map[] && s.cur.file == "a.py"
  }

  /** A run on a clean tree, up to where the saved copy is complete. */
  lemma SavesCopy() returns (h: seq<State>)
    ensures Steps(LOST_CONFIG, h) && StartsClean(LOST_CONFIG, h[0])
    ensures Unrecorded(h[|h| - 1], Saved) && h[|h| - 1].signals == 1
  {
    var c, copy := LOST_CONFIG, Copy("logs", "M1");
    var w0 := World(c.head, map[], map[]);
    var s0 := State(w0, Start, "logs", ["M1"], 0, [], Outcome("", false, true, false, ""), [], Nothing, false, {}, 1);
    var s1 := s0.(pc := Loop);
    var s2 := s1.(cur := Outcome("a.py", false, true, true, ""), original := [1, 2, 3], pc := Checked);
    var s3 := s2.(pc := Saving, w := w0.(saved := map[copy := []]));
    var s4 := s3.(pc := Saved, w := w0.(saved := map[copy := [1, 2, 3]]));
    assert ProgramStep(c, s0, s1);
    assert ProgramStep(c, s1, s2);
    assert s2.w.saved[copy := []] == map[copy := []];
    assert ProgramStep(c, s2, s3);
    assert s3.w.saved[copy := [1, 2, 3]] == map[copy := [1, 2, 3]];
    assert ProgramStep(c, s3, s4);
    h := [s0, s1, s2, s3, s4];
  }

  /** The flags are set, and the signal lands before the plant is recorded. */
  lemma SignalLands(s: State) returns (h: seq<State>)
    requires Unrecorded(s, Saved) && s.signals == 1
    ensures Steps(LOST_CONFIG, h) && h[0] == s && Unrecorded(h[|h| - 1], Finally)
  {
    var marked := s.(pc := Marked, cur := s.cur.(planted := true));
    var armed := marked.(pc := Armed, cur := marked.cur.(restoreOk := false));
    var signalled := armed.(pc := Finally, pending := Interrupt, signals := 0);
    assert ProgramStep(LOST_CONFIG, s, marked);
    assert ProgramStep(LOST_CONFIG, marked, armed);
    assert SignalStep(armed, signalled);
    h := [s, marked, armed, signalled];
  }

  /** The restore empties the file, and the run is killed. */
  lemma RestoreIsKilled(s: State) returns (h: seq<State>)
    requires Unrecorded(s, Finally)
    ensures Steps(LOST_CONFIG, h) && h[0] == s
    ensures h[|h| - 1].pc.Killed? && !Recoverable(LOST_CONFIG, h[|h| - 1].w, "a.py")
  {
    var trying := s.(pc := Trying);
    var deferred := trying.(pc := Deferred);
    var restoring := SetFile(deferred, []).(pc := Restoring);
    var killed := restoring.(pc := Killed);
    assert ProgramStep(LOST_CONFIG, s, trying);
    assert ProgramStep(LOST_CONFIG, trying, deferred);
    assert WroteSome(deferred, restoring, Restoring);
    assert ProgramStep(LOST_CONFIG, deferred, restoring);
    assert KillStep(restoring, killed);
    h := [s, trying, deferred, restoring, killed];
  }

  /** A mutant of one file, a signal while its plant is recorded, and a kill: the original is lost. */
  lemma OriginalCanBeLost() returns (c: Config, h: seq<State>)
    ensures History(c, h) && h[|h| - 1].pc.Killed?
    ensures !AllRecoverable(c, h[|h| - 1].w)
  {
    hide Step, Recoverable, StartsClean;
    c := LOST_CONFIG;
    var saves := SavesCopy();
    var lands := SignalLands(saves[|saves| - 1]);
    var killed := RestoreIsKilled(lands[|lands| - 1]);
    JoinSteps(c, saves, lands);
    JoinSteps(c, saves + lands[1..], killed);
    h := saves + lands[1..] + killed[1..];
    assert "a.py" in c.head;
  }
}
