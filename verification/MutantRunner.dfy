/**
 * The mutation runner as a state machine: one step per write to the file, the saved copy
 * or the marker, and per assignment the signal handling depends on. A handled signal or a
 * kill can come between any two steps, and runs follow one another on the same tree.
 */
module MutantRunner {

  type Path = string
  type Id = string
  type Bytes = seq<int>

  /** The saved copy of mutant `id`'s file, in the log directory `dir`. */
  datatype Copy = Copy(dir: string, id: Id)

  /** What outlives a run: the tree, the saved copies and the marker in the git directory. */
  datatype World = World(files: map<Path, Bytes>, saved: map<Copy, Bytes>, marker: map<Path, Copy>)

  /** The committed bytes of each file, the file each mutant edits, and its mirror. */
  datatype Config = Config(head: map<Path, Bytes>, fileOf: map<Id, Path>, mirror: map<Id, Id>)

  /** `bad` unless the killers killed the mutant; `text` is the message of the first that failed. */
  datatype Outcome = Outcome(file: Path, planted: bool, restoreOk: bool, bad: bool, text: string)

  datatype Pending = Nothing | Interrupt | ToolFailure | OtherError

  datatype Pc =
    | Start          // the run holds the lock and has touched nothing
    | Loop           // about to take the next mutant, or to finish
    | Checked        // the file is clean and the anchor was found
    | Saving         // the saved copy is open and may be incomplete
    | Saved          // the saved copy is complete
    | Marked         // out.planted is set, out.restore_ok not yet cleared
    | Armed          // both flags say: planted, not restored
    | Recorded       // the marker names the file
    | Writing        // the file is open for the mutant's bytes
    | Planted        // the mutant is in place and the killers may run
    | Refused        // recording was refused; nothing was written
    | Finally        // in the finally block, before the restore is called
    | Trying         // inside restore_until_done's try, signals not deferred
    | Handling       // in its except clause
    | Deferred       // signals are recorded from here
    | Restoring      // the file is open for the original bytes
    | Restored       // the original bytes are back
    | Verified       // every check held
    | Cleared        // the marker entry is gone
    | Judged         // out.restore_ok holds the verdict
    | Released       // signals are no longer deferred; still inside the try
    | Returned       // restore_until_done has returned
    | Stopping(status: nat) // an interrupt or a tool failure has reached the run's handler
    | Exited(status: nat)
    | Killed

  datatype State = State(
    w: World,
    pc: Pc,
    dir: string,
    chosen: seq<Id>,
    k: nat,
    outcomes: seq<Outcome>,
    cur: Outcome,
    original: Bytes,
    pending: Pending,
    late: bool,             // a signal was recorded during a restore of this run
    planted: set<Path>,     // the files this run has recorded as planted
    signals: nat)           // handled signals still to come

  const EXIT_OK := 0
  const EXIT_FAILED := 1
  const EXIT_REFUSED := 2
  const EXIT_NO_TOOL := 3
  const EXIT_SHARED := 4
  const EXIT_INTERRUPTED := 5

  // ------------------------------------------------------------------
  // Reading the state
  // ------------------------------------------------------------------

  predicate Clean(c: Config, w: World, f: Path) {
    f in w.files && f in c.head && w.files[f] == c.head[f]
  }

  predicate KnownId(c: Config, id: Id) {
    id in c.fileOf && c.fileOf[id] in c.head
  }

  predicate Failed(o: Outcome) {
    o.planted && !o.restoreOk
  }

  /** A planted file of this run is not known to be restored. */
  predicate AnyFailed(s: State) {
    Failed(s.cur) || exists o <- s.outcomes :: Failed(o)
  }

  function CurrentCopy(s: State): Copy
    requires s.k < |s.chosen|
  {
    Copy(s.dir, s.chosen[s.k])
  }

  predicate Ended(s: State) {
    s.pc.Exited? || s.pc.Killed?
  }

  function SetFile(s: State, b: Bytes): State {
    s.(w := s.w.(files := s.w.files[s.cur.file := b]))
  }

  /** The file's content after an incomplete write: anything. */
  predicate WroteSome(s: State, t: State, pc: Pc) {
    s.cur.file in t.w.files && t == SetFile(s, t.w.files[s.cur.file]).(pc := pc)
  }

  // ------------------------------------------------------------------
  // The steps of the program
  // ------------------------------------------------------------------

  /** The clean-tree check of the whole run. */
  predicate StartStep(c: Config, s: State, t: State)
    requires forall id <- s.chosen :: id in c.fileOf && c.fileOf[id] in c.head
  {
    || (t == s.(pc := Exited(EXIT_REFUSED)))
    || (t == s.(pc := Exited(EXIT_NO_TOOL)))
    || ((forall id <- s.chosen :: Clean(c, s.w, c.fileOf[id])) && t == s.(pc := Loop))
  }

  /** The last of the chosen mutants with the id: its outcome stands for the id. */
  predicate StandsFor(s: State, id: Id, j: nat) {
    j < |s.chosen| && s.chosen[j] == id && forall k :: j < k < |s.chosen| ==> s.chosen[k] != id
  }

  predicate HasPartner(c: Config, s: State, i: nat)
    requires i < |s.chosen|
  {
    s.chosen[i] in c.mirror && c.mirror[s.chosen[i]] in s.chosen
  }

  /** Outcome i is the first of its pair of ids, so it is compared. */
  predicate IsCompared(c: Config, s: State, i: nat)
    requires i < |s.chosen|
  {
    && HasPartner(c, s, i)
    && forall h :: 0 <= h < i && HasPartner(c, s, h) ==>
         {s.chosen[h], c.mirror[s.chosen[h]]} != {s.chosen[i], c.mirror[s.chosen[i]]}
  }

  /** A mutant and its mirror failed with the same message. */
  predicate Shared(c: Config, s: State)
    requires |s.outcomes| == |s.chosen|
  {
    exists i, j :: 0 <= i < |s.chosen| && 0 <= j < |s.chosen| && IsCompared(c, s, i) && StandsFor(s, c.mirror[s.chosen[i]], j)
      && s.outcomes[i].text != "" && s.outcomes[i].text == s.outcomes[j].text
  }

  /** The end of the loop: the exit status from the outcomes; a tree that changed meanwhile is a failure too. */
  predicate FinishStep(c: Config, s: State, t: State) {
    || t == s.(pc := Stopping(EXIT_NO_TOOL))
    || t == s.(pc := Exited(EXIT_FAILED))
    || (&& |s.outcomes| == |s.chosen| && (forall o <- s.outcomes :: o.restoreOk && !o.bad)
        && t == s.(pc := Exited(if Shared(c, s) then EXIT_SHARED else EXIT_OK)))
  }

  /** Take the next mutant: check that its file is clean, read it, find the anchor. */
  predicate TakeStep(c: Config, s: State, t: State)
    requires s.k < |s.chosen| && KnownId(c, s.chosen[s.k])
  {
    var f := c.fileOf[s.chosen[s.k]];
    var taken := Outcome(f, false, true, true, "");
    || t == s.(cur := taken, pc := Stopping(EXIT_NO_TOOL))
    || t == s.(cur := taken, outcomes := s.outcomes + [taken], k := s.k + 1)
    || (Clean(c, s.w, f) && t == s.(cur := taken, original := s.w.files[f], pc := Checked, pending := Nothing))
  }

  predicate SaveStep(s: State, t: State)
    requires s.k < |s.chosen|
  {
    var copy := CurrentCopy(s);
    || t == s.(pc := Exited(EXIT_FAILED))
    || (s.pc == Checked && copy in t.w.saved && t == s.(pc := Saving, w := s.w.(saved := s.w.saved[copy := t.w.saved[copy]])))
    || (s.pc == Saving && t == s.(pc := Saved, w := s.w.(saved := s.w.saved[copy := s.original])))
  }

  /** Record the plant: the marker is replaced atomically, or the plant is refused. */
  predicate RecordStep(s: State, t: State)
    requires s.k < |s.chosen|
  {
    || t == s.(pc := Refused)
    || t == s.(pc := Recorded, planted := s.planted + {s.cur.file},
               w := s.w.(marker := s.w.marker[s.cur.file := CurrentCopy(s)]))
  }

  /** An error on the way to the verdict leads to the finally block with that error pending. */
  predicate Raise(s: State, t: State) {
    t == s.(pc := Finally, pending := ToolFailure) || t == s.(pc := Finally, pending := OtherError)
  }

  /** The mutant's bytes go in; which bytes they are does not matter here. */
  predicate PlantStep(s: State, t: State) {
    || Raise(s, t)
    || (s.pc == Recorded && WroteSome(s, t, Writing))
    || (s.pc == Writing && WroteSome(s, t, Planted))
  }

  /** Any check or write of a restore can fail; the verdict is then that it failed. */
  predicate RestoreFails(s: State, t: State) {
    t == s.(pc := Judged, cur := s.cur.(restoreOk := false))
  }

  predicate RestoreStep(c: Config, s: State, t: State)
    requires s.pc.Deferred? || s.pc.Restoring? || s.pc.Restored? || s.pc.Verified? || s.pc.Cleared?
    requires s.k < |s.chosen|
  {
    match s.pc
    case Deferred => RestoreFails(s, t) || WroteSome(s, t, Restoring)
    case Restoring => RestoreFails(s, t) || t == SetFile(s, s.original).(pc := Restored)
    case Restored =>
      || RestoreFails(s, t)
      || (var copy := CurrentCopy(s);
          && s.cur.file in s.w.files && s.w.files[s.cur.file] == s.original
          && copy in s.w.saved && s.w.saved[copy] == s.w.files[s.cur.file]
          && Clean(c, s.w, s.cur.file)
          && t == s.(pc := Verified))
    case Verified => RestoreFails(s, t) || t == s.(pc := Cleared, w := s.w.(marker := s.w.marker - {s.cur.file}))
    case Cleared => t == s.(pc := Judged, cur := s.cur.(restoreOk := true))
  }

  /** After the restore: re-raise what was pending, or record the outcome and go on; only killers can acquit a mutant. */
  predicate ReturnStep(s: State, t: State) {
    match s.pending
    case Interrupt => t == s.(pc := Stopping(EXIT_INTERRUPTED))
    case ToolFailure => t == s.(pc := Stopping(EXIT_NO_TOOL))
    case OtherError => t == s.(pc := Exited(EXIT_FAILED))
    case Nothing =>
      var out := if s.cur.planted then s.cur.(bad := t.cur.bad, text := if t.cur.bad then "" else t.cur.text)
                 else s.cur.(bad := true);
      var done := s.(cur := out, outcomes := s.outcomes + [out], k := s.k + 1);
      t == done.(pc := if s.late then Stopping(EXIT_INTERRUPTED) else Loop)
  }

  function FinishEarly(s: State): nat
    requires s.pc.Stopping?
  {
    if AnyFailed(s) then EXIT_FAILED else s.pc.status
  }

  predicate ProgramStep(c: Config, s: State, t: State) {
    && ((s.pc.Loop? && s.k < |s.chosen|) || InMutant(s.pc) ==> s.k < |s.chosen| && KnownId(c, s.chosen[s.k]))
    && match s.pc
       case Start => (forall id <- s.chosen :: id in c.fileOf && c.fileOf[id] in c.head) && StartStep(c, s, t)
       case Loop => if s.k < |s.chosen| then TakeStep(c, s, t) else FinishStep(c, s, t)
       case Checked => SaveStep(s, t)
       case Saving => SaveStep(s, t)
       case Saved => t == s.(pc := Marked, cur := s.cur.(planted := true))
       case Marked => t == s.(pc := Armed, cur := s.cur.(restoreOk := false))
       case Armed => RecordStep(s, t)
       case Recorded => PlantStep(s, t)
       case Writing => PlantStep(s, t)
       case Planted => Raise(s, t) || t == s.(pc := Finally)
       case Refused => t == s.(pc := Returned, cur := s.cur.(planted := false, restoreOk := true))
       case Finally => t == s.(pc := Trying)
       case Trying => t == s.(pc := Deferred)
       case Handling => t == s.(pc := Trying, late := true)
       case Deferred => RestoreStep(c, s, t)
       case Restoring => RestoreStep(c, s, t)
       case Restored => RestoreStep(c, s, t)
       case Verified => RestoreStep(c, s, t)
       case Cleared => RestoreStep(c, s, t)
       case Judged => t == s.(pc := Released)
       case Released => t == s.(pc := Returned)
       case Returned => ReturnStep(s, t)
       case Stopping(_) => t == s.(pc := Exited(FinishEarly(s)))
       case Exited(_) => false
       case Killed => false
  }

  predicate InMutant(pc: Pc) {
    !(pc.Start? || pc.Loop? || pc.Stopping? || pc.Exited? || pc.Killed?)
  }

  // ------------------------------------------------------------------
  // Signals, kills and further runs
  // ------------------------------------------------------------------

  predicate IsDeferring(pc: Pc) {
    pc.Deferred? || pc.Restoring? || pc.Restored? || pc.Verified? || pc.Cleared? || pc.Judged?
  }

  /** Where a handled signal takes the run. */
  predicate SignalStep(s: State, t: State) {
    && s.signals > 0
    && var u := s.(signals := s.signals - 1);
       if IsDeferring(s.pc) then t == u.(late := true)
       else match s.pc
         case Recorded => t == u.(pc := Finally, pending := Interrupt)
         case Writing => t == u.(pc := Finally, pending := Interrupt)
         case Planted => t == u.(pc := Finally, pending := Interrupt)
         case Armed => t == u.(pc := Finally, pending := Interrupt) || t == u.(pc := Stopping(EXIT_INTERRUPTED))
         case Refused => t == u.(pending := Interrupt) || t == u.(pc := Stopping(EXIT_INTERRUPTED))
         case Trying => t == u.(pc := Handling)
         case Released => t == u.(pc := Handling)
         case Stopping(_) => t == u.(pc := Exited(EXIT_FAILED)) || t == u.(pc := Killed)
         case Start => t == u.(pc := Exited(EXIT_FAILED)) || t == u.(pc := Killed)
         case Exited(_) => false
         case Killed => false
         case _ => t == u.(pc := Stopping(EXIT_INTERRUPTED))
  }

  predicate KillStep(s: State, t: State) {
    !Ended(s) && t == s.(pc := Killed)
  }

  predicate Step(c: Config, s: State, t: State) {
    ProgramStep(c, s, t) || SignalStep(s, t) || KillStep(s, t)
  }

  /** A later run on the tree and the marker the last one left. */
  predicate NewRun(s: State, t: State) {
    Ended(s) && IsFirst(t) && t.w == s.w
  }

  predicate IsFirst(s: State) {
    && s.pc.Start? && s.k == 0 && s.outcomes == [] && s.planted == {} && !s.late && s.pending == Nothing
    && !Failed(s.cur)
  }

  // ------------------------------------------------------------------
  // Every step ends
  // ------------------------------------------------------------------

  const PER_MUTANT := 40

  function PcRank(pc: Pc): (r: nat)
    ensures r < PER_MUTANT
  {
    match pc
    case Start => 39
    case Loop => 30
    case Checked => 29
    case Saving => 28
    case Saved => 27
    case Marked => 26
    case Armed => 25
    case Recorded => 24
    case Writing => 23
    case Planted => 22
    case Refused => 21
    case Finally => 20
    case Handling => 19
    case Trying => 18
    case Deferred => 17
    case Restoring => 16
    case Restored => 15
    case Verified => 14
    case Cleared => 13
    case Judged => 12
    case Released => 11
    case Returned => 10
    case Stopping(_) => 1
    case Exited(_) => 0
    case Killed => 0
  }

  /** Mutants still to take, then the place inside the current one. */
  function Rank(s: State): nat {
    (if s.k < |s.chosen| then |s.chosen| - s.k else 0) * PER_MUTANT + PcRank(s.pc)
  }

  function Bound(s: State): nat {
    (|s.chosen| + 1) * PER_MUTANT
  }

  /** The steps left: at most Bound + 1 between two signals. */
  function StepsLeft(s: State): nat {
    s.signals * (Bound(s) + 1) + Rank(s)
  }

  lemma RankBound(s: State)
    ensures Rank(s) < Bound(s)
  {}

  lemma SignalDrops(signals: nat, bound: nat, r: nat, r': nat)
    requires signals > 0 && r' <= bound
    ensures (signals - 1) * (bound + 1) + r' < signals * (bound + 1) + r
  {
    assert signals * (bound + 1) == (signals - 1) * (bound + 1) + bound + 1;
  }

  /** Every step of a run, signals and repeated restores included, brings its end nearer. */
  lemma StepProgress(c: Config, s: State, t: State)
    requires Step(c, s, t)
    ensures StepsLeft(t) < StepsLeft(s)
  {
    hide ProgramStep, PcRank;
    RankBound(t);
    if SignalStep(s, t) {
      SignalDrops(s.signals, Bound(s), Rank(s), Rank(t));
    } else {
      ProgramStepRank(c, s, t);
    }
  }

  /** A step of the program goes down the list of places, or on to the next mutant. */
  predicate GoesOn(s: State, t: State) {
    && t.signals == s.signals && t.chosen == s.chosen
    && ((t.k == s.k && PcRank(t.pc) < PcRank(s.pc)) || (t.k == s.k + 1 && s.k < |s.chosen|))
  }

  lemma PlanGoesOn(c: Config, s: State, t: State)
    requires ProgramStep(c, s, t)
    requires s.pc.Start? || s.pc.Loop? || s.pc.Checked? || s.pc.Saving? || s.pc.Saved? || s.pc.Marked? || s.pc.Armed?
          || s.pc.Recorded? || s.pc.Writing? || s.pc.Planted? || s.pc.Refused? || s.pc.Finally?
    ensures GoesOn(s, t)
  {
    hide Clean, KnownId, CurrentCopy, Shared, RestoreStep, ReturnStep;
  }

  lemma RestoreGoesOn(c: Config, s: State, t: State)
    requires ProgramStep(c, s, t)
    requires s.pc.Trying? || s.pc.Handling? || IsDeferring(s.pc) || s.pc.Released? || s.pc.Returned? || s.pc.Stopping?
    ensures GoesOn(s, t)
  {
    hide Clean, KnownId, CurrentCopy, AnyFailed, RestoreStep, ReturnStep, PcRank;
    if s.pc.Returned? {
      ReturnGoesOn(s, t);
    } else if IsDeferring(s.pc) && !s.pc.Judged? {
      RestoreStepGoesOn(c, s, t);
    } else {
      ShortStepGoesOn(s, t);
    }
  }

  lemma ReturnGoesOn(s: State, t: State)
    requires s.pc.Returned? && s.k < |s.chosen| && ReturnStep(s, t)
    ensures GoesOn(s, t)
  {}

  lemma RestoreStepGoesOn(c: Config, s: State, t: State)
    requires IsDeferring(s.pc) && !s.pc.Judged? && s.k < |s.chosen| && RestoreStep(c, s, t)
    ensures GoesOn(s, t)
  {
    hide Clean, KnownId, CurrentCopy, AnyFailed, ReturnStep, TakeStep, SaveStep;
  }

  lemma ShortStepGoesOn(s: State, t: State)
    requires match s.pc
             case Trying => t == s.(pc := Deferred)
             case Handling => t == s.(pc := Trying, late := true)
             case Judged => t == s.(pc := Released)
             case Released => t == s.(pc := Returned)
             case Stopping(_) => t == s.(pc := Exited(FinishEarly(s)))
             case _ => false
    ensures GoesOn(s, t)
  {
    hide AnyFailed;
  }

  lemma ProgramStepRank(c: Config, s: State, t: State)
    requires ProgramStep(c, s, t) || KillStep(s, t)
    ensures t.signals == s.signals && t.chosen == s.chosen && Rank(t) < Rank(s)
  {
    hide ProgramStep, RestoreStep;
    if !KillStep(s, t) {
      if s.pc.Trying? || s.pc.Handling? || IsDeferring(s.pc) || s.pc.Released? || s.pc.Returned? || s.pc.Stopping? {
        RestoreGoesOn(c, s, t);
      } else {
        EndedHasNoStep(c, s, t);
        PlanGoesOn(c, s, t);
      }
      assert GoesOn(s, t);
    }
  }

  lemma EndedHasNoStep(c: Config, s: State, t: State)
    requires ProgramStep(c, s, t)
    ensures !Ended(s)
  {}

  /** So a run of any number of signals is finite: no restore is retried for ever. */
  lemma {:induction false} RunIsFinite(c: Config, run: seq<State>)
    requires run != [] && forall i :: 0 <= i < |run| - 1 ==> Step(c, run[i], run[i + 1])
    ensures |run| <= StepsLeft(run[0]) + 1
  {
    if |run| > 1 {
      StepProgress(c, run[0], run[1]);
      forall i | 0 <= i < |run[1..]| - 1
        ensures Step(c, run[1..][i], run[1..][i + 1])
      {
        assert Step(c, run[i + 1], run[i + 1 + 1]);
      }
      RunIsFinite(c, run[1..]);
    }
  }
}
