/** Reconciling missions: creating the missing ones and patching the fields that drifted. */
module ReconcileMissions {
  import opened Options
  import opened ReconcileText

  /** A mission read from the files. */
  datatype Parsed = Parsed(id: string, title: string, status: string, outcome: string, next: string)

  /** A stored mission; the empty string stands for NULL. */
  datatype Row = Row(status: string, outcome: string, next: string, harness: string)

  type Store = map<string, Row>

  /** The fields of a PATCH; an absent one keeps what is stored. */
  datatype Patch = Patch(status: Option<string>, outcome: Option<string>, next: Option<string>, harness: Option<string>)

  // ------------------------------------------------------------------
  // The service
  // ------------------------------------------------------------------

  function Or(o: Option<string>, kept: string): string {
    if o.Some? then o.value else kept
  }

  /** A mission's harness is filled once and never replaced. */
  function Apply(r: Row, p: Patch): Row {
    Row(Or(p.status, r.status), Or(p.outcome, r.outcome), Or(p.next, r.next),
        if r.harness != "" then r.harness else Or(p.harness, ""))
  }

  /** A mission created without a status is not started. */
  function Insert(status: string, harness: string): Row {
    Row(if status == "" then "not-started" else status, "", "", harness)
  }

  const MAX_NAME := 128
  const MAX_NEXT := 2000

  predicate IsStatus(s: string) {
    s in {"not-started", "in-progress", "blocked", "complete"}
  }

  /** What the service validates on a create. The title was shortened before it was sent. */
  predicate CreateAccepted(p: Parsed, harness: string) {
    && p.id != "" && |p.id| <= MAX_NAME && p.title != "" && |harness| <= MAX_NAME
    && (p.status == "" || IsStatus(p.status))
  }

  /** What it validates on a PATCH: a field that is sent must be one it can store, the empty outcome included. */
  predicate PatchAccepted(p: Patch) {
    && (p.status.Some? ==> IsStatus(p.status.value))
    && (p.outcome.Some? ==> p.outcome.value in {"done", "failed"})
    && (p.next.Some? ==> |p.next.value| <= MAX_NEXT)
    && (p.harness.Some? ==> |p.harness.value| <= MAX_NAME)
  }

  // ------------------------------------------------------------------
  // One pass
  // ------------------------------------------------------------------

  function Changed(differs: bool, value: string): Option<string> {
    if differs then Some(value) else None
  }

  function Drift(r: Row, p: Parsed, harness: string): Patch {
    Patch(Changed(r.status != p.status, p.status),
          Changed(r.outcome != p.outcome, p.outcome),
          Changed(CleanValue(p.next) != CleanValue(r.next), p.next),
          Changed(harness != "" && r.harness == "", harness))
  }

  /** What a create cannot set and a PATCH follows up with. */
  function FollowUp(p: Parsed): Patch {
    Patch(None, Changed(p.outcome != "", p.outcome), Changed(p.next != "", p.next), None)
  }

  const NOTHING := Patch(None, None, None, None)

  datatype Run = Run(store: Store, requests: nat, created: nat, updated: nat, skipped: nat, failed: nat)

  /** `answers(n)` says whether the n-th write reaches the service and is answered. */
  function UpdateOne(r: Run, row: Row, p: Parsed, harness: string, answers: nat -> bool): Run {
    var patch := Drift(row, p, harness);
    if patch == NOTHING then r.(skipped := r.skipped + 1)
    else if !answers(r.requests) || !PatchAccepted(patch) then r.(requests := r.requests + 1, failed := r.failed + 1)
    else
      var now := if p.id in r.store then r.store[p.id] else row;
      r.(store := r.store[p.id := Apply(now, patch)], requests := r.requests + 1, updated := r.updated + 1)
  }

  function CreateOne(r: Run, p: Parsed, harness: string, answers: nat -> bool): Run {
    if !answers(r.requests) || !CreateAccepted(p, harness) then r.(requests := r.requests + 1, failed := r.failed + 1)
    else
      var row := Insert(p.status, harness);
      var c := r.(store := r.store[p.id := row], requests := r.requests + 1, created := r.created + 1);
      if FollowUp(p) == NOTHING then c
      else if !answers(c.requests) || !PatchAccepted(FollowUp(p)) then c.(requests := c.requests + 1, failed := c.failed + 1)
      else c.(store := c.store[p.id := Apply(row, FollowUp(p))], requests := c.requests + 1)
  }

  function StepOne(r: Run, listed: Store, p: Parsed, harness: string, answers: nat -> bool): Run {
    if p.id in listed then UpdateOne(r, listed[p.id], p, harness, answers) else CreateOne(r, p, harness, answers)
  }

  function Pass(listed: Store, missions: seq<Parsed>, harness: string, answers: nat -> bool): Run {
    if missions == [] then Run(listed, 0, 0, 0, 0, 0)
    else StepOne(Pass(listed, missions[..|missions| - 1], harness, answers), listed, missions[|missions| - 1], harness, answers)
  }

  /**
   * The pass. A mission whose create succeeds and whose follow-up fails is counted twice,
   * under created and under failed; every other one is counted once.
   */
  method ReconcileMissions(listed: Store, missions: seq<Parsed>, harness: string, answers: nat -> bool) returns (r: Run)
    ensures r == Pass(listed, missions, harness, answers)
    ensures |missions| <= r.created + r.updated + r.skipped + r.failed <= |missions| + r.created
    ensures r.created + r.updated + r.skipped <= |missions|
    ensures r.created + r.updated + r.failed <= r.requests
  {
    hide UpdateOne, CreateOne;
    r := Run(listed, 0, 0, 0, 0, 0);
    for i := 0 to |missions|
      invariant r == Pass(listed, missions[..i], harness, answers)
      invariant i <= r.created + r.updated + r.skipped + r.failed <= i + r.created
      invariant r.created + r.updated + r.skipped <= i
      invariant r.created + r.updated + r.failed <= r.requests
    {
      assert missions[..i + 1][..i] == missions[..i];
      var p := missions[i];
      StepCounts(r, listed, p, harness, answers);
      if p.id in listed {
        r := UpdateOne(r, listed[p.id], p, harness, answers);
      } else {
        r := CreateOne(r, p, harness, answers);
      }
    }
    assert missions[..|missions|] == missions;
  }

  lemma StepCounts(r: Run, listed: Store, p: Parsed, harness: string, answers: nat -> bool)
    ensures var q := StepOne(r, listed, p, harness, answers);
            var done := (q.created + q.updated + q.skipped) - (r.created + r.updated + r.skipped);
            && 0 <= done <= 1 && q.created >= r.created
            && 1 <= done + q.failed - r.failed <= 1 + q.created - r.created
            && (q.created + q.updated + q.failed) - (r.created + r.updated + r.failed) <= q.requests - r.requests
            && q == if p.id in listed then UpdateOne(r, listed[p.id], p, harness, answers) else CreateOne(r, p, harness, answers)
  {
    hide Drift, FollowUp, Insert, Apply, CreateAccepted, PatchAccepted;
  }

  // ------------------------------------------------------------------
  // Any pass
  // ------------------------------------------------------------------

  /** Whatever fails, no mission is lost and none moves from one harness to another. */
  lemma {:induction false} HarnessNeverMoves(listed: Store, missions: seq<Parsed>, harness: string, answers: nat -> bool, id: string)
    requires id in listed
    ensures var after := Pass(listed, missions, harness, answers).store;
            && id in after
            && (listed[id].harness != "" ==> after[id].harness == listed[id].harness)
            && (after[id].harness in {listed[id].harness, harness})
            && ((forall p <- missions :: p.id != id) ==> after[id] == listed[id])
  {
    hide CleanValue, CreateAccepted, PatchAccepted;
    if missions != [] {
      HarnessNeverMoves(listed, missions[..|missions| - 1], harness, answers, id);
    }
  }

  // ------------------------------------------------------------------
  // Two passes
  // ------------------------------------------------------------------

  function Always(): nat -> bool {
    n => true
  }

  predicate DistinctIds(missions: seq<Parsed>) {
    forall i, j :: 0 <= i < j < |missions| ==> missions[i].id != missions[j].id
  }

  /** The row a mission has after a pass in which every request is answered, if it has one. */
  function Reconciled(listed: Store, p: Parsed, harness: string): Option<Row> {
    if p.id in listed then
      var patch := Drift(listed[p.id], p, harness);
      Some(if PatchAccepted(patch) then Apply(listed[p.id], patch) else listed[p.id])
    else if !CreateAccepted(p, harness) then None
    else Some(if PatchAccepted(FollowUp(p)) then Apply(Insert(p.status, harness), FollowUp(p)) else Insert(p.status, harness))
  }

  lemma ApplyNothing(r: Row)
    ensures Apply(r, NOTHING) == r
  {}

  /** The store with a mission's row, if it has one. */
  function With(store: Store, id: string, row: Option<Row>): Store {
    if row.Some? then store[id := row.value] else store
  }

  /** One step leaves its own mission reconciled and every other one alone. */
  lemma StepAlways(r: Run, listed: Store, p: Parsed, harness: string)
    requires p.id in r.store <==> p.id in listed
    requires p.id in listed ==> r.store[p.id] == listed[p.id]
    ensures StepOne(r, listed, p, harness, Always()).store == With(r.store, p.id, Reconciled(listed, p, harness))
    ensures RowOf(With(r.store, p.id, Reconciled(listed, p, harness)), p.id) == Reconciled(listed, p, harness)
  {
    hide Drift, FollowUp, Insert, Apply, CreateAccepted, PatchAccepted;
    if p.id in listed {
      ApplyNothing(listed[p.id]);
    } else {
      ApplyNothing(Insert(p.status, harness));
    }
  }

  predicate IsCurrent(listed: Store, p: Parsed, harness: string) {
    p.id in listed && Drift(listed[p.id], p, harness) == NOTHING
  }

  lemma RequestsGrow(r: Run, listed: Store, p: Parsed, harness: string, answers: nat -> bool)
    ensures var q := StepOne(r, listed, p, harness, answers);
            q.requests >= r.requests && (q.requests == r.requests <==> IsCurrent(listed, p, harness))
  {
    hide Drift, FollowUp, Insert, Apply, CreateAccepted, PatchAccepted;
  }

  predicate Absent(missions: seq<Parsed>, id: string) {
    forall p <- missions :: p.id != id
  }

  function RowOf(store: Store, id: string): Option<Row> {
    if id in store then Some(store[id]) else None
  }

  ghost predicate IsAfter(after: Store, listed: Store, missions: seq<Parsed>, harness: string) {
    && (forall p <- missions :: RowOf(after, p.id) == Reconciled(listed, p, harness))
    && (forall id :: Absent(missions, id) ==> RowOf(after, id) == RowOf(listed, id))
  }

  lemma {:induction false} AfterIs(listed: Store, missions: seq<Parsed>, harness: string)
    requires DistinctIds(missions)
    ensures IsAfter(Pass(listed, missions, harness, Always()).store, listed, missions, harness)
  {
    hide StepOne, IsCurrent, Reconciled, IsAfter;
    if missions == [] {
      NothingDone(listed, harness);
    } else {
      var front, p := missions[..|missions| - 1], missions[|missions| - 1];
      AfterIs(listed, front, harness);
      AfterOneMore(Pass(listed, front, harness, Always()), listed, front, p, harness);
      assert missions == front + [p];
    }
  }

  lemma NothingDone(listed: Store, harness: string)
    ensures IsAfter(listed, listed, [], harness)
  {}

  lemma AbsentFront(front: seq<Parsed>, p: Parsed, id: string)
    requires Absent(front + [p], id)
    ensures Absent(front, id) && id != p.id
  {
    assert p in front + [p] && forall q <- front :: q in front + [p];
  }

  lemma AfterOneMore(r: Run, listed: Store, front: seq<Parsed>, p: Parsed, harness: string)
    requires DistinctIds(front + [p]) && IsAfter(r.store, listed, front, harness)
    ensures IsAfter(StepOne(r, listed, p, harness, Always()).store, listed, front + [p], harness)
  {
    hide StepOne, IsCurrent, Reconciled;
    var missions := front + [p];
    forall q | q in front
      ensures q.id != p.id
    {
      var i :| 0 <= i < |front| && front[i] == q;
      assert missions[i] == q && missions[|front|] == p;
    }
    assert Absent(front, p.id);
    StepAlways(r, listed, p, harness);
    var after := StepOne(r, listed, p, harness, Always()).store;
    assert forall q <- missions :: q in front || q == p;
    forall id | Absent(missions, id)
      ensures Absent(front, id) && id != p.id
    {
      AbsentFront(front, p, id);
    }
  }

  lemma {:induction false} NoWritesIff(listed: Store, missions: seq<Parsed>, harness: string, answers: nat -> bool)
    ensures Pass(listed, missions, harness, answers).requests == 0 <==> forall p <- missions :: IsCurrent(listed, p, harness)
  {
    hide StepOne, IsCurrent;
    if missions != [] {
      var front, p := missions[..|missions| - 1], missions[|missions| - 1];
      assert missions == front + [p];
      NoWritesIff(listed, front, harness, answers);
      RequestsGrow(Pass(listed, front, harness, answers), listed, p, harness, answers);
    }
  }

  lemma EmptyIsEmpty()
    ensures CleanValue("") == ""
  {}

  /**
   * What must hold of a mission before the first pass: the service accepts the PATCH it asks
   * for, or accepts its create with a status, and then the follow-up if that sets anything.
   */
  predicate Converges(listed: Store, p: Parsed, harness: string) {
    if p.id in listed then PatchAccepted(Drift(listed[p.id], p, harness))
    else
      && CreateAccepted(p, harness) && p.status != ""
      && (PatchAccepted(FollowUp(p)) || (p.outcome == "" && CleanValue(p.next) == ""))
  }

  /** A mission is current after a pass exactly when it converges. */
  lemma CurrentIff(after: Store, listed: Store, p: Parsed, harness: string)
    requires RowOf(after, p.id) == Reconciled(listed, p, harness)
    ensures IsCurrent(after, p, harness) <==> Converges(listed, p, harness)
  {
    EmptyIsEmpty();
    if p.id in listed {
      ListedCurrentIff(listed[p.id], p, harness);
    } else {
      CreatedCurrentIff(p, harness);
    }
  }

  lemma ListedCurrentIff(row: Row, p: Parsed, harness: string)
    ensures var patch := Drift(row, p, harness);
            Drift(if PatchAccepted(patch) then Apply(row, patch) else row, p, harness) == NOTHING <==> PatchAccepted(patch)
  {
    hide CleanValue;
  }

  lemma CreatedCurrentIff(p: Parsed, harness: string)
    ensures var row := Insert(p.status, harness);
            Drift(if PatchAccepted(FollowUp(p)) then Apply(row, FollowUp(p)) else row, p, harness) == NOTHING <==>
              p.status != "" && (PatchAccepted(FollowUp(p)) || (p.outcome == "" && CleanValue(p.next) == ""))
  {
    EmptyIsEmpty();
    hide CleanValue;
  }

  /**
   * Two passes over the same missions with every request answered: from any store, the second
   * writes nothing exactly when every mission converges.
   */
  lemma SecondPassIsQuiet(listed: Store, missions: seq<Parsed>, harness: string, answers: nat -> bool)
    requires DistinctIds(missions)
    ensures Pass(Pass(listed, missions, harness, Always()).store, missions, harness, answers).requests == 0 <==>
              forall p <- missions :: Converges(listed, p, harness)
  {
    hide Pass, Reconciled, DistinctIds, IsCurrent, Converges, RowOf;
    var after := Pass(listed, missions, harness, Always()).store;
    AfterIs(listed, missions, harness);
    NoWritesIff(after, missions, harness, answers);
    forall p | p in missions
      ensures IsCurrent(after, p, harness) <==> Converges(listed, p, harness)
    {
      CurrentIff(after, listed, p, harness);
    }
  }

  /** What the files are parsed into. */
  predicate FromFiles(p: Parsed) {
    IsStatus(p.status) && p.outcome in {"", "done", "failed"}
  }

  /**
   * For missions read from the files, what is left to ask: an outcome is not taken back, a next
   * action that is new fits, and a mission that is created has a title and names that fit.
   */
  predicate CanSettle(listed: Store, p: Parsed, harness: string) {
    if p.id in listed then
      var row := listed[p.id];
      && (p.outcome != "" || row.outcome == "")
      && (|p.next| <= MAX_NEXT || CleanValue(p.next) == CleanValue(row.next))
      && (|harness| <= MAX_NAME || row.harness != "")
    else
      && p.id != "" && |p.id| <= MAX_NAME && p.title != "" && |harness| <= MAX_NAME
      && (|p.next| <= MAX_NEXT || (p.outcome == "" && CleanValue(p.next) == ""))
  }

  lemma ParsedMissionsConverge(listed: Store, missions: seq<Parsed>, harness: string, answers: nat -> bool)
    requires DistinctIds(missions) && forall p <- missions :: FromFiles(p)
    ensures Pass(Pass(listed, missions, harness, Always()).store, missions, harness, answers).requests == 0 <==>
              forall p <- missions :: CanSettle(listed, p, harness)
  {
    hide Pass, DistinctIds, Converges, CanSettle, FromFiles;
    SecondPassIsQuiet(listed, missions, harness, answers);
    forall p | p in missions
      ensures Converges(listed, p, harness) <==> CanSettle(listed, p, harness)
    {
      SettlesIff(listed, p, harness);
    }
  }

  lemma SettlesIff(listed: Store, p: Parsed, harness: string)
    requires FromFiles(p)
    ensures Converges(listed, p, harness) <==> CanSettle(listed, p, harness)
  {
    hide CleanValue;
  }

  /** An outcome the service holds and the file does not: the PATCH that takes it back is refused on every pass. */
  lemma OutcomeIsAskedAgain(answers: nat -> bool)
    ensures var listed := map["mission-20261002-01" := Row("complete", "done", "", "")];
            var missions := [Parsed("mission-20261002-01", "title", "complete", "", "")];
            FromFiles(missions[0]) && Pass(Pass(listed, missions, "", Always()).store, missions, "", answers).requests > 0
  {
    hide Pass, CleanValue;
    var listed := map["mission-20261002-01" := Row("complete", "done", "", "")];
    var missions := [Parsed("mission-20261002-01", "title", "complete", "", "")];
    assert !CanSettle(listed, missions[0], "");
    assert missions[0] in missions;
    ParsedMissionsConverge(listed, missions, "", answers);
  }
}
