/** Reconciling the flight recorder: every event read from the journal ends in one bucket. */
module ReconcileJournal {

  /** An event's natural key; two events that agree on it are the same event. */
  datatype Key = Key(mission: string, at: string, step: string, event: string, note: string)

  /** What reading a mission's stored journal gave. */
  datatype Answer = Rows(rows: seq<Key>, capped: bool) | Raised

  datatype Bucket = Created | Skipped | Failed | SkippedFetchFailed | SkippedJournalCap | OutOfScope

  /** The rows sent so far, where each event ended, and the writes tried. */
  datatype Run = Run(sent: seq<Key>, outcomes: seq<Bucket>, requests: nat)

  type Tally = map<Bucket, nat>

  // ------------------------------------------------------------------
  // One pass
  // ------------------------------------------------------------------

  predicate Usable(a: Answer) {
    a.Rows? && !a.capped
  }

  /** Whether the service already answered with this event. */
  predicate Held(missions: seq<string>, answers: string -> Answer, k: Key) {
    exists m <- missions :: Usable(answers(m)) && k in answers(m).rows
  }

  /** Where event k ends, given whether the service would take the write. */
  function Outcome(missions: seq<string>, answers: string -> Answer, k: Key, taken: bool): Bucket {
    if k.mission !in missions then OutOfScope
    else if answers(k.mission).Raised? then SkippedFetchFailed
    else if answers(k.mission).capped then SkippedJournalCap
    else if Held(missions, answers, k) then Skipped
    else if taken then Created
    else Failed
  }

  predicate Writes(b: Bucket) {
    b == Created || b == Failed
  }

  function StepOne(r: Run, missions: seq<string>, answers: string -> Answer, k: Key, accepts: nat -> bool): Run {
    var b := Outcome(missions, answers, k, accepts(r.requests));
    Run(if b == Created then r.sent + [k] else r.sent, r.outcomes + [b], if Writes(b) then r.requests + 1 else r.requests)
  }

  function Pass(missions: seq<string>, answers: string -> Answer, events: seq<Key>, accepts: nat -> bool): (r: Run)
    ensures |r.outcomes| == |events|
  {
    if events == [] then Run([], [], 0)
    else StepOne(Pass(missions, answers, events[..|events| - 1], accepts), missions, answers, events[|events| - 1], accepts)
  }

  // ------------------------------------------------------------------
  // Counting
  // ------------------------------------------------------------------

  /** The events of the missions in `of` that ended in bucket b. */
  function CountIn(events: seq<Key>, outcomes: seq<Bucket>, of: set<string>, b: Bucket): nat
    requires |outcomes| == |events|
  {
    if events == [] then 0
    else
      var n := |events| - 1;
      CountIn(events[..n], outcomes[..n], of, b) + (if events[n].mission in of && outcomes[n] == b then 1 else 0)
  }

  function Missions(events: seq<Key>): set<string> {
    set k | k in events :: k.mission
  }

  function Zero(): Tally {
    map[Created := 0, Skipped := 0, Failed := 0, SkippedFetchFailed := 0, SkippedJournalCap := 0, OutOfScope := 0]
  }

  /** The sum over every bucket. */
  function Sum(events: seq<Key>, outcomes: seq<Bucket>, of: set<string>): nat
    requires |outcomes| == |events|
  {
    CountIn(events, outcomes, of, Created) + CountIn(events, outcomes, of, Skipped) + CountIn(events, outcomes, of, Failed)
    + CountIn(events, outcomes, of, SkippedFetchFailed) + CountIn(events, outcomes, of, SkippedJournalCap)
    + CountIn(events, outcomes, of, OutOfScope)
  }

  lemma CountOneMore(events: seq<Key>, outcomes: seq<Bucket>, k: Key, b: Bucket, of: set<string>, bucket: Bucket)
    requires |outcomes| == |events|
    ensures CountIn(events + [k], outcomes + [b], of, bucket)
              == CountIn(events, outcomes, of, bucket) + (if k.mission in of && b == bucket then 1 else 0)
  {
    assert (events + [k])[..|events|] == events && (outcomes + [b])[..|events|] == outcomes;
  }

  lemma SumOneMore(events: seq<Key>, outcomes: seq<Bucket>, k: Key, b: Bucket, of: set<string>)
    requires |outcomes| == |events|
    ensures Sum(events + [k], outcomes + [b], of) == Sum(events, outcomes, of) + (if k.mission in of then 1 else 0)
  {
    hide CountIn;
    forall bucket
      ensures CountIn(events + [k], outcomes + [b], of, bucket)
                == CountIn(events, outcomes, of, bucket) + (if k.mission in of && b == bucket then 1 else 0)
    {
      CountOneMore(events, outcomes, k, b, of, bucket);
    }
  }

  /** Every event is in exactly one bucket, so the buckets sum to the number parsed. */
  lemma {:induction false} SumIsLength(events: seq<Key>, outcomes: seq<Bucket>, of: set<string>)
    requires |outcomes| == |events| && Missions(events) <= of
    ensures Sum(events, outcomes, of) == |events|
  {
    if events != [] {
      var n := |events| - 1;
      assert events == events[..n] + [events[n]] && outcomes == outcomes[..n] + [outcomes[n]];
      assert events[n].mission in Missions(events);
      SumIsLength(events[..n], outcomes[..n], of);
      SumOneMore(events[..n], outcomes[..n], events[n], outcomes[n], of);
    }
  }

  /** The missions of the list that the test holds of. */
  function CountOf(missions: seq<string>, which: string -> bool): nat {
    if missions == [] then 0
    else CountOf(missions[..|missions| - 1], which) + (if which(missions[|missions| - 1]) then 1 else 0)
  }

  predicate Distinct(missions: seq<string>) {
    forall i, j :: 0 <= i < j < |missions| ==> missions[i] != missions[j]
  }

  function SumOver(missions: seq<string>, events: seq<Key>, outcomes: seq<Bucket>): nat
    requires |outcomes| == |events|
  {
    if missions == [] then 0
    else SumOver(missions[..|missions| - 1], events, outcomes) + Sum(events, outcomes, {missions[|missions| - 1]})
  }

  lemma {:induction false} SumOverOneMore(missions: seq<string>, events: seq<Key>, outcomes: seq<Bucket>, k: Key, b: Bucket)
    requires |outcomes| == |events| && Distinct(missions)
    ensures SumOver(missions, events + [k], outcomes + [b])
              == SumOver(missions, events, outcomes) + (if k.mission in missions then 1 else 0)
  {
    hide Sum;
    if missions != [] {
      var front, m := missions[..|missions| - 1], missions[|missions| - 1];
      assert missions == front + [m];
      SumOverOneMore(front, events, outcomes, k, b);
      SumOneMore(events, outcomes, k, b, {m});
      assert m !in front;
    }
  }

  lemma {:induction false} SumOverNothing(missions: seq<string>)
    ensures SumOver(missions, [], []) == 0
  {
    if missions != [] {
      SumOverNothing(missions[..|missions| - 1]);
    }
  }

  /** The missions' own tallies and the events of no mission of this run sum to the number parsed. */
  lemma {:induction false} TalliesSumToParsed(missions: seq<string>, answers: string -> Answer, events: seq<Key>, accepts: nat -> bool, all: set<string>)
    requires Distinct(missions) && Missions(events) <= all
    ensures var outcomes := Pass(missions, answers, events, accepts).outcomes;
            SumOver(missions, events, outcomes) + CountIn(events, outcomes, all, OutOfScope) == |events|
  {
    hide SumOver, CountIn, Missions, Outcome;
    if events == [] {
      SumOverNothing(missions);
      CountNothing(all);
    } else {
      var front, k := events[..|events| - 1], events[|events| - 1];
      assert events == front + [k];
      MissionsOneMore(front, k);
      TalliesSumToParsed(missions, answers, front, accepts, all);
      var r := Pass(missions, answers, front, accepts);
      var b := Outcome(missions, answers, k, accepts(r.requests));
      ScopeOf(missions, answers, k, accepts(r.requests));
      SumOverOneMore(missions, front, r.outcomes, k, b);
      CountOneMore(front, r.outcomes, k, b, all, OutOfScope);
    }
  }

  lemma CountNothing(of: set<string>)
    ensures forall b :: CountIn([], [], of, b) == 0
  {}

  lemma MissionsOneMore(events: seq<Key>, k: Key)
    ensures Missions(events + [k]) == Missions(events) + {k.mission}
  {}

  lemma ScopeOf(missions: seq<string>, answers: string -> Answer, k: Key, taken: bool)
    ensures Outcome(missions, answers, k, taken) == OutOfScope <==> k.mission !in missions
  {}

  // ------------------------------------------------------------------
  // The pass as the script runs it
  // ------------------------------------------------------------------

  /** The counts of each bucket over the events of the missions in `of`. */
  predicate Tallies(t: Tally, events: seq<Key>, outcomes: seq<Bucket>, of: set<string>)
    requires |outcomes| == |events|
  {
    forall b :: b in t && t[b] == CountIn(events, outcomes, of, b)
  }

  /** One tally for each mission of the run that has events. */
  ghost predicate TalliesOf(per: map<string, Tally>, missions: seq<string>, events: seq<Key>, outcomes: seq<Bucket>)
    requires |outcomes| == |events|
  {
    && (forall m :: m in per <==> m in missions && m in Missions(events))
    && (forall m <- per :: Tallies(per[m], events, outcomes, {m}))
  }

  method ReconcileJournal(missions: seq<string>, answers: string -> Answer, events: seq<Key>, accepts: nat -> bool)
    returns (counts: Tally, perMission: map<string, Tally>, warned: nat, fetchFailed: nat, run: Run)
    ensures run == Pass(missions, answers, events, accepts)
    ensures Tallies(counts, events, run.outcomes, Missions(events))
    ensures counts[Created] + counts[Skipped] + counts[Failed] + counts[SkippedFetchFailed]
              + counts[SkippedJournalCap] + counts[OutOfScope] == |events|
    ensures TalliesOf(perMission, missions, events, run.outcomes)
    ensures warned == CountOf(missions, m => answers(m).Rows? && answers(m).capped)
    ensures fetchFailed == CountOf(missions, m => answers(m).Raised?)
  {
    hide Outcome, CountIn, Missions;
    var held: set<Key> := {};
    var failed: set<string>, capped: set<string> := {}, {};
    warned, fetchFailed := 0, 0;
    for i := 0 to |missions|
      invariant forall m :: m in failed <==> m in missions[..i] && answers(m).Raised?
      invariant forall m :: m in capped <==> m in missions[..i] && answers(m).Rows? && answers(m).capped
      invariant forall k :: k in held <==> Held(missions[..i], answers, k)
      invariant warned == CountOf(missions[..i], m => answers(m).Rows? && answers(m).capped)
      invariant fetchFailed == CountOf(missions[..i], m => answers(m).Raised?)
    {
      assert missions[..i + 1] == missions[..i] + [missions[i]];
      assert missions[..i + 1][..i] == missions[..i];
      var answer := answers(missions[i]);
      if answer.Raised? {
        failed, fetchFailed := failed + {missions[i]}, fetchFailed + 1;
      } else if answer.capped {
        capped, warned := capped + {missions[i]}, warned + 1;
      } else {
        held := held + set k | k in answer.rows;
      }
      HeldOneMore(missions[..i], missions[i], answers);
    }
    assert missions[..|missions|] == missions;
    ghost var all := Missions(events);
    counts, perMission, run := Zero(), map[], Run([], [], 0);
    ZeroTallies(all);
    NoMissions();
    for i := 0 to |events|
      invariant run == Pass(missions, answers, events[..i], accepts)
      invariant Tallies(counts, events[..i], run.outcomes, all)
      invariant TalliesOf(perMission, missions, events[..i], run.outcomes)
    {
      var k := events[i];
      ghost var was := run;
      assert events[..i + 1][..i] == events[..i] && events[..i + 1] == events[..i] + [k];
      var taken := accepts(run.requests);
      var b: Bucket;
      if k.mission !in missions {
        b := OutOfScope;
      } else if k.mission in capped {
        b := SkippedJournalCap;
      } else if k.mission in failed {
        b := SkippedFetchFailed;
      } else if k in held {
        b := Skipped;
      } else if !taken {
        b := Failed;
      } else {
        b := Created;
      }
      OutcomeIs(missions, answers, k, taken, b);
      run := Run(if b == Created then run.sent + [k] else run.sent, run.outcomes + [b], if Writes(b) then run.requests + 1 else run.requests);
      MissionIn(events, i);
      TallyOneMore(counts, events[..i], was.outcomes, k, b, all);
      TalliesOneMore(perMission, missions, events[..i], was.outcomes, k, b);
      counts := Bump(counts, b);
      if k.mission in missions {
        var tally := if k.mission in perMission then perMission[k.mission] else Zero();
        perMission := perMission[k.mission := Bump(tally, b)];
      }
    }
    assert events[..|events|] == events;
    SumIsLength(events, run.outcomes, all);
  }

  function Bump(t: Tally, b: Bucket): Tally {
    t[b := (if b in t then t[b] else 0) + 1]
  }

  lemma HeldOneMore(missions: seq<string>, m: string, answers: string -> Answer)
    ensures forall k :: Held(missions + [m], answers, k) <==> Held(missions, answers, k) || (Usable(answers(m)) && k in answers(m).rows)
  {}

  lemma ZeroTallies(of: set<string>)
    ensures Tallies(Zero(), [], [], of)
  {
    forall b: Bucket
      ensures b in Zero() && Zero()[b] == 0
    {
      match b case Created => case Skipped => case Failed => case SkippedFetchFailed => case SkippedJournalCap => case OutOfScope =>
    }
  }

  lemma NoMissions()
    ensures Missions([]) == {}
  {}

  lemma MissionIn(events: seq<Key>, i: nat)
    requires i < |events|
    ensures events[i].mission in Missions(events)
  {}

  lemma OutcomeIs(missions: seq<string>, answers: string -> Answer, k: Key, taken: bool, b: Bucket)
    requires b == (if k.mission !in missions then OutOfScope
                   else if answers(k.mission).Rows? && answers(k.mission).capped then SkippedJournalCap
                   else if answers(k.mission).Raised? then SkippedFetchFailed
                   else if Held(missions, answers, k) then Skipped
                   else if taken then Created else Failed)
    ensures b == Outcome(missions, answers, k, taken)
  {}

  lemma TallyOneMore(t: Tally, events: seq<Key>, outcomes: seq<Bucket>, k: Key, b: Bucket, of: set<string>)
    requires |outcomes| == |events| && Tallies(t, events, outcomes, of)
    ensures Tallies(if k.mission in of then Bump(t, b) else t, events + [k], outcomes + [b], of)
  {
    hide CountIn;
    forall bucket
      ensures CountIn(events + [k], outcomes + [b], of, bucket)
                == CountIn(events, outcomes, of, bucket) + (if k.mission in of && b == bucket then 1 else 0)
    {
      CountOneMore(events, outcomes, k, b, of, bucket);
    }
  }

  lemma {:induction false} NoEventsOf(events: seq<Key>, outcomes: seq<Bucket>, m: string)
    requires |outcomes| == |events| && m !in Missions(events)
    ensures Tallies(Zero(), events, outcomes, {m})
  {
    if events == [] {
      ZeroTallies({m});
    } else {
      var n := |events| - 1;
      assert events == events[..n] + [events[n]] && outcomes == outcomes[..n] + [outcomes[n]];
      MissionsOneMore(events[..n], events[n]);
      NoEventsOf(events[..n], outcomes[..n], m);
      TallyOneMore(Zero(), events[..n], outcomes[..n], events[n], outcomes[n], {m});
    }
  }

  lemma TalliesOneMore(per: map<string, Tally>, missions: seq<string>, events: seq<Key>, outcomes: seq<Bucket>, k: Key, b: Bucket)
    requires |outcomes| == |events| && TalliesOf(per, missions, events, outcomes)
    ensures var tally := if k.mission in per then per[k.mission] else Zero();
            TalliesOf(if k.mission in missions then per[k.mission := Bump(tally, b)] else per, missions, events + [k], outcomes + [b])
  {
    hide Tallies, Missions;
    var more, outs := events + [k], outcomes + [b];
    MissionsOneMore(events, k);
    forall m | m in per
      ensures Tallies(if m == k.mission then Bump(per[m], b) else per[m], more, outs, {m})
    {
      TallyOneMore(per[m], events, outcomes, k, b, {m});
    }
    if k.mission !in per && k.mission in missions {
      NoEventsOf(events, outcomes, k.mission);
      TallyOneMore(Zero(), events, outcomes, k, b, {k.mission});
    }
  }

  // ------------------------------------------------------------------
  // Two passes
  // ------------------------------------------------------------------

  /** A mission's rows, when they could be read, are the stored rows of that mission. */
  ghost predicate ReadsStore(answers: string -> Answer, store: seq<Key>, m: string) {
    Usable(answers(m)) ==> forall k :: k in answers(m).rows <==> k in store && k.mission == m
  }

  lemma HeldIsStored(missions: seq<string>, answers: string -> Answer, store: seq<Key>, k: Key)
    requires forall m <- missions :: ReadsStore(answers, store, m)
    requires k.mission in missions && Usable(answers(k.mission))
    ensures Held(missions, answers, k) <==> k in store
  {}

  /** Event i ended where its answers put it, and was sent if it was created. */
  lemma {:induction false} EventEnds(missions: seq<string>, answers: string -> Answer, events: seq<Key>, accepts: nat -> bool, i: nat)
    requires i < |events|
    ensures var r := Pass(missions, answers, events, accepts);
            && (exists taken :: r.outcomes[i] == Outcome(missions, answers, events[i], taken))
            && (r.outcomes[i] == Created ==> events[i] in r.sent)
  {
    hide Outcome;
    var front, k := events[..|events| - 1], events[|events| - 1];
    var r := Pass(missions, answers, front, accepts);
    if i < |front| {
      EventEnds(missions, answers, front, accepts, i);
      assert front[i] == events[i];
    } else {
      var b := Outcome(missions, answers, k, accepts(r.requests));
      assert Pass(missions, answers, events, accepts).outcomes[i] == b;
    }
  }

  lemma {:induction false} SentWasCreated(missions: seq<string>, answers: string -> Answer, events: seq<Key>, accepts: nat -> bool, k: Key)
    requires k in Pass(missions, answers, events, accepts).sent
    ensures exists i :: 0 <= i < |events| && events[i] == k && Pass(missions, answers, events, accepts).outcomes[i] == Created
  {
    hide Outcome;
    var front, last := events[..|events| - 1], events[|events| - 1];
    var r := Pass(missions, answers, front, accepts);
    var b := Outcome(missions, answers, last, accepts(r.requests));
    if k in r.sent {
      SentWasCreated(missions, answers, front, accepts, k);
      var i :| 0 <= i < |front| && front[i] == k && r.outcomes[i] == Created;
      assert events[i] == k && Pass(missions, answers, events, accepts).outcomes[i] == Created;
    } else {
      assert Pass(missions, answers, events, accepts).outcomes[|front|] == b;
    }
  }

  lemma {:induction false} NoRequestIffNoWrite(missions: seq<string>, answers: string -> Answer, events: seq<Key>, accepts: nat -> bool)
    ensures var r := Pass(missions, answers, events, accepts);
            r.requests == 0 <==> forall i :: 0 <= i < |events| ==> !Writes(r.outcomes[i])
  {
    hide Outcome;
    if events != [] {
      var front := events[..|events| - 1];
      var r, f := Pass(missions, answers, events, accepts), Pass(missions, answers, front, accepts);
      NoRequestIffNoWrite(missions, answers, front, accepts);
      assert forall i :: 0 <= i < |front| ==> r.outcomes[i] == f.outcomes[i];
      assert r.requests == f.requests + (if Writes(r.outcomes[|front|]) then 1 else 0);
    }
  }

  /** An event whose first pass ended well: the service has it now. */
  predicate Settled(b: Bucket) {
    b == Created || b == Skipped
  }

  /** The service's rows before, plus what the first pass sent, hold every event that ended well. */
  lemma SettledIsStored(missions: seq<string>, answers: string -> Answer, store: seq<Key>, events: seq<Key>, accepts: nat -> bool, i: nat)
    requires forall m <- missions :: ReadsStore(answers, store, m)
    requires i < |events| && Settled(Pass(missions, answers, events, accepts).outcomes[i])
    ensures events[i] in store + Pass(missions, answers, events, accepts).sent
  {
    hide Pass, Held;
    var r := Pass(missions, answers, events, accepts);
    EventEnds(missions, answers, events, accepts, i);
    if r.outcomes[i] == Skipped {
      HeldIsStored(missions, answers, store, events[i]);
    }
  }

  /**
   * A second pass that reads every mission in full writes an event exactly when it belongs to
   * a mission of the run and neither the service held it before nor the first pass created it.
   */
  lemma SecondPassWrites(missions: seq<string>, first: string -> Answer, second: string -> Answer, store: seq<Key>,
                         events: seq<Key>, accepts: nat -> bool, again: nat -> bool, i: nat)
    requires i < |events|
    requires var sent := Pass(missions, first, events, accepts).sent;
             forall m <- missions :: Usable(second(m)) && ReadsStore(second, store + sent, m)
    ensures Writes(Pass(missions, second, events, again).outcomes[i]) <==>
              events[i].mission in missions && events[i] !in store
              && forall j :: 0 <= j < |events| && events[j] == events[i] ==> Pass(missions, first, events, accepts).outcomes[j] != Created
  {
    hide Pass, Held;
    var sent := Pass(missions, first, events, accepts).sent;
    EventEnds(missions, second, events, again, i);
    if events[i].mission in missions {
      HeldIsStored(missions, second, store + sent, events[i]);
    }
    forall j | 0 <= j < |events| && events[j] == events[i] && Pass(missions, first, events, accepts).outcomes[j] == Created
      ensures events[i] in sent
    {
      EventEnds(missions, first, events, accepts, j);
    }
    if events[i] in sent {
      SentWasCreated(missions, first, events, accepts, events[i]);
    }
  }

  /** When the first pass read every mission and no write failed, the second writes nothing. */
  lemma SecondPassIsQuiet(missions: seq<string>, first: string -> Answer, second: string -> Answer, store: seq<Key>,
                          events: seq<Key>, accepts: nat -> bool, again: nat -> bool)
    requires forall m <- missions :: ReadsStore(first, store, m)
    requires var r := Pass(missions, first, events, accepts);
             && (forall m <- missions :: Usable(second(m)) && ReadsStore(second, store + r.sent, m))
             && (forall i :: 0 <= i < |events| ==> Settled(r.outcomes[i]) || r.outcomes[i] == OutOfScope)
    ensures Pass(missions, second, events, again).requests == 0
  {
    hide Pass;
    var r, s := Pass(missions, first, events, accepts), Pass(missions, second, events, again);
    forall i | 0 <= i < |events|
      ensures !Writes(s.outcomes[i])
    {
      SecondPassWrites(missions, first, second, store, events, accepts, again, i);
      EventEnds(missions, first, events, accepts, i);
      if Settled(r.outcomes[i]) {
        SettledIsStored(missions, first, store, events, accepts, i);
        if events[i] in r.sent {
          SentWasCreated(missions, first, events, accepts, events[i]);
        }
      }
    }
    NoRequestIffNoWrite(missions, second, events, again);
  }
}
