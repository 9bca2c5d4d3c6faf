/** What the passes over missions, steps and findings count, and what they leave in the store, field by field. */
module ReconcileTallies {
  import opened Options
  import opened ReconcileText
  import M = ReconcileMissions
  import S = ReconcileSteps
  import F = ReconcileFindings

  /** How many items the test holds of. */
  function Count<T>(items: seq<T>, which: T -> bool): (n: nat)
    ensures n <= |items|
  {
    if items == [] then 0
    else Count(items[..|items| - 1], which) + (if which(items[|items| - 1]) then 1 else 0)
  }

  // ------------------------------------------------------------------
  // Missions
  // ------------------------------------------------------------------

  /** The file and the service differ: in the status, the outcome, the next action, or a harness that is missing. */
  predicate Differs(row: M.Row, p: M.Parsed, harness: string) {
    || row.status != p.status || row.outcome != p.outcome
    || CleanValue(p.next) != CleanValue(row.next)
    || (harness != "" && row.harness == "")
  }

  predicate IsUpdate(listed: M.Store, p: M.Parsed, harness: string) {
    p.id in listed && Differs(listed[p.id], p, harness)
  }

  predicate IsSame(listed: M.Store, p: M.Parsed, harness: string) {
    p.id in listed && !Differs(listed[p.id], p, harness)
  }

  lemma DriftIff(row: M.Row, p: M.Parsed, harness: string)
    ensures M.Drift(row, p, harness) == M.NOTHING <==> !Differs(row, p, harness)
  {
    hide CleanValue;
  }

  /** Every request of the mission is one the service takes. */
  predicate IsTaken(listed: M.Store, p: M.Parsed, harness: string) {
    if p.id in listed then M.PatchAccepted(M.Drift(listed[p.id], p, harness))
    else M.CreateAccepted(p, harness) && M.PatchAccepted(M.FollowUp(p))
  }

  lemma MissionCounts(r: M.Run, listed: M.Store, p: M.Parsed, harness: string, answers: nat -> bool)
    ensures var q := M.StepOne(r, listed, p, harness, answers);
            && q.skipped == r.skipped + (if IsSame(listed, p, harness) then 1 else 0)
            && q.updated <= r.updated + (if IsUpdate(listed, p, harness) then 1 else 0)
            && q.created <= r.created + (if p.id !in listed then 1 else 0)
            && q.updated + q.created + q.failed >= r.updated + r.created + r.failed + (if IsSame(listed, p, harness) then 0 else 1)
            && (IsTaken(listed, p, harness) && (forall n :: answers(n)) ==>
                  && q.failed == r.failed
                  && q.updated == r.updated + (if IsUpdate(listed, p, harness) then 1 else 0)
                  && q.created == r.created + (if p.id !in listed then 1 else 0))
  {
    hide M.Drift, M.FollowUp, M.Insert, M.Apply, M.CreateAccepted, M.PatchAccepted, Differs;
    if p.id in listed {
      DriftIff(listed[p.id], p, harness);
    }
  }

  /**
   * Missions counted as skipped are those listed that do not differ; as updated, only listed ones
   * that do; as created, only ones not listed. Every other one failed, and none does when every
   * request is taken.
   */
  lemma {:induction false} MissionTallies(listed: M.Store, missions: seq<M.Parsed>, harness: string, answers: nat -> bool)
    ensures var r := M.Pass(listed, missions, harness, answers);
            var updates, creates := Count(missions, p => IsUpdate(listed, p, harness)), Count(missions, (p: M.Parsed) => p.id !in listed);
            && r.skipped == Count(missions, p => IsSame(listed, p, harness))
            && r.updated <= updates && r.created <= creates && updates + creates <= r.updated + r.created + r.failed
            && ((forall n :: answers(n)) && (forall p <- missions :: IsTaken(listed, p, harness)) ==>
                  r.failed == 0 && r.updated == updates && r.created == creates)
  {
    hide M.StepOne, IsUpdate, IsSame, IsTaken;
    if missions != [] {
      var front, p := missions[..|missions| - 1], missions[|missions| - 1];
      MissionTallies(listed, front, harness, answers);
      MissionCounts(M.Pass(listed, front, harness, answers), listed, p, harness, answers);
      UpdateOrSame(listed, p, harness);
      assert p in missions && forall q <- front :: q in missions;
    }
  }

  lemma UpdateOrSame(listed: M.Store, p: M.Parsed, harness: string)
    ensures p.id in listed <==> IsUpdate(listed, p, harness) || IsSame(listed, p, harness)
    ensures !(IsUpdate(listed, p, harness) && IsSame(listed, p, harness))
  {}

  /** The service can store what the file says where it differs. */
  predicate CanUpdate(row: M.Row, p: M.Parsed, harness: string) {
    && (row.status != p.status ==> p.status in {"not-started", "in-progress", "blocked", "complete"})
    && (row.outcome != p.outcome ==> p.outcome in {"done", "failed"})
    && (CleanValue(p.next) != CleanValue(row.next) ==> |p.next| <= 2000)
    && (harness != "" && row.harness == "" ==> |harness| <= 128)
  }

  predicate CanCreate(p: M.Parsed, harness: string) {
    && 1 <= |p.id| <= 128 && p.title != "" && |harness| <= 128
    && p.status in {"", "not-started", "in-progress", "blocked", "complete"}
  }

  /** What the follow-up of a create sets. */
  predicate CanFollow(p: M.Parsed) {
    p.outcome in {"", "done", "failed"} && |p.next| <= 2000
  }

  /** The row of a mission after a pass in which every request reached the service. */
  predicate MissionReads(before: Option<M.Row>, after: Option<M.Row>, p: M.Parsed, harness: string) {
    if before.Some? then
      var row := before.value;
      && after.Some?
      && if !CanUpdate(row, p, harness) then after.value == row
         else
           && after.value.status == p.status && after.value.outcome == p.outcome
           && after.value.next == (if CleanValue(p.next) == CleanValue(row.next) then row.next else p.next)
           && after.value.harness == (if row.harness == "" then harness else row.harness)
    else if !CanCreate(p, harness) then after.None?
    else
      && after.Some? && after.value.harness == harness
      && after.value.status == (if p.status == "" then "not-started" else p.status)
      && after.value.outcome == (if CanFollow(p) then p.outcome else "")
      && after.value.next == (if CanFollow(p) then p.next else "")
  }

  lemma ReconciledReads(listed: M.Store, p: M.Parsed, harness: string)
    ensures MissionReads(M.RowOf(listed, p.id), M.Reconciled(listed, p, harness), p, harness)
  {
    hide CleanValue;
  }

  /** After a pass in which every request is answered, each mission's row says what the file says. */
  lemma AnsweredPassStores(listed: M.Store, missions: seq<M.Parsed>, harness: string)
    requires M.DistinctIds(missions)
    ensures var after := M.Pass(listed, missions, harness, M.Always()).store;
            && (forall p <- missions :: MissionReads(M.RowOf(listed, p.id), M.RowOf(after, p.id), p, harness))
            && (forall id :: (forall p <- missions :: p.id != id) ==> M.RowOf(after, id) == M.RowOf(listed, id))
  {
    hide MissionReads, M.Pass, M.Reconciled, M.RowOf, M.DistinctIds;
    M.AfterIs(listed, missions, harness);
    var after := M.Pass(listed, missions, harness, M.Always()).store;
    forall p | p in missions
      ensures MissionReads(M.RowOf(listed, p.id), M.RowOf(after, p.id), p, harness)
    {
      ReconciledReads(listed, p, harness);
    }
    forall id | forall p <- missions :: p.id != id
      ensures M.RowOf(after, id) == M.RowOf(listed, id)
    {
      assert M.Absent(missions, id);
    }
  }

  // ------------------------------------------------------------------
  // Steps
  // ------------------------------------------------------------------

  /** The stored row holds a field of the file; the file says nothing with the empty text. */
  predicate Holds(row: S.Fields, f: S.Field, value: string) {
    value != "" ==> f in row && row[f] == value
  }

  /** The stored row says what the step says. */
  predicate StepReads(row: S.Fields, p: S.Parsed) {
    && Holds(row, S.Label, p.step) && Holds(row, S.Phase, p.phase) && Holds(row, S.Agent, p.agent)
    && Holds(row, S.Status, p.status) && Holds(row, S.Notes, p.notes)
  }

  predicate IsFetched(existing: S.Store, i: S.Item) {
    S.Key(i.mission, i.parsed.step) in existing
  }

  predicate IsUnchanged(existing: S.Store, i: S.Item) {
    IsFetched(existing, i) && StepReads(existing[S.Key(i.mission, i.parsed.step)], i.parsed)
  }

  lemma CoversIff(row: S.Fields, p: S.Parsed)
    ensures S.Covers(row, S.Payload(p)) <==> StepReads(row, p)
  {
    var payload := S.Payload(p);
    assert (S.Label in payload <==> p.step != "") && (S.Phase in payload <==> p.phase != "") && (S.Agent in payload <==> p.agent != "");
    assert (S.Status in payload <==> p.status != "") && (S.Notes in payload <==> p.notes != "");
  }

  lemma CurrentIff(existing: S.Store, i: S.Item)
    ensures S.IsCurrent(existing, i) <==> IsUnchanged(existing, i)
  {
    hide S.Covers, StepReads;
    if IsFetched(existing, i) {
      CoversIff(existing[S.KeyOf(i)], i.parsed);
    }
  }

  predicate IsChanged(existing: S.Store, i: S.Item) {
    IsFetched(existing, i) && !IsUnchanged(existing, i)
  }

  /**
   * Steps counted as the same are those whose fetched row says what they say; as updated, only
   * ones whose key was fetched with another row; as created, only ones whose key was not. Every
   * other one failed.
   */
  lemma {:induction false} StepTallies(store: S.Store, existing: S.Store, items: seq<S.Item>, accepts: nat -> bool)
    ensures var p := S.PassOver(S.Pass(store, 0, 0, 0, 0, 0), existing, items, accepts);
            var updates, creates := Count(items, i => IsChanged(existing, i)), Count(items, i => !IsFetched(existing, i));
            && p.same == Count(items, i => IsUnchanged(existing, i))
            && p.updated <= updates && p.created <= creates && updates + creates == p.updated + p.created + p.failed
            && ((forall n :: accepts(n)) ==> p.failed == 0)
  {
    hide IsUnchanged, S.IsCurrent, S.Upsert;
    if items != [] {
      var front, i := items[..|items| - 1], items[|items| - 1];
      StepTallies(store, existing, front, accepts);
      CurrentIff(existing, i);
      FetchedIfUnchanged(existing, i);
    }
  }

  lemma FetchedIfUnchanged(existing: S.Store, i: S.Item)
    ensures IsUnchanged(existing, i) ==> IsFetched(existing, i)
  {}

  lemma UpsertReads(store: S.Store, i: S.Item)
    ensures var row := S.Upsert(store, i)[S.KeyOf(i)];
            && StepReads(row, i.parsed)
            && forall f <- row :: f !in S.Payload(i.parsed) ==> S.KeyOf(i) in store && f in store[S.KeyOf(i)] && row[f] == store[S.KeyOf(i)][f]
  {
    CoversIff(S.Upsert(store, i)[S.KeyOf(i)], i.parsed);
  }

  /** No item behind position j writes the same key. */
  predicate IsLastWrite(existing: S.Store, items: seq<S.Item>, j: nat) {
    && j < |items| && !IsUnchanged(existing, items[j])
    && forall k :: j < k < |items| ==> S.KeyOf(items[k]) != S.KeyOf(items[j]) || IsUnchanged(existing, items[k])
  }

  /** When every write is taken, the stored row of a key says what the last step written to it says. */
  lemma {:induction false} LastWriteStands(p: S.Pass, existing: S.Store, items: seq<S.Item>, accepts: nat -> bool, j: nat)
    requires IsLastWrite(existing, items, j) && forall n :: accepts(n)
    ensures var after := S.PassOver(p, existing, items, accepts).store;
            S.KeyOf(items[j]) in after && StepReads(after[S.KeyOf(items[j])], items[j].parsed)
  {
    hide IsUnchanged, StepReads, S.IsCurrent;
    var n := |items| - 1;
    var front := items[..n];
    CurrentIff(existing, items[n]);
    var before := S.PassOver(p, existing, front, accepts);
    if j == n {
      UpsertReads(before.store, items[j]);
    } else {
      assert IsLastWrite(existing, front, j);
      LastWriteStands(p, existing, front, accepts, j);
    }
  }

  // ------------------------------------------------------------------
  // Findings
  // ------------------------------------------------------------------

  /** Some stored finding has the entry's target and suggestion, whatever its date. */
  predicate HasFinding(listed: seq<F.Row>, f: F.Finding) {
    exists r <- listed :: r.key.target == f.key.target && r.key.suggestion == f.key.suggestion
  }

  /** The file records a decision. */
  predicate HasDecision(f: F.Finding) {
    f.written in {"approved", "applied", "rejected", "retired", "superseded"}
  }

  /** The entry has a decision that its row, if there is one, does not. */
  predicate Asks(listed: seq<F.Row>, f: F.Finding) {
    var row := F.Match(listed, f.key);
    HasDecision(f) && (row.Some? ==> listed[row.value].status != f.written)
  }

  lemma MatchIff(listed: seq<F.Row>, f: F.Finding)
    ensures F.Match(listed, f.key).Some? <==> HasFinding(listed, f)
  {
    hide F.Oldest, F.Newest;
  }

  lemma WantedIs(f: F.Finding)
    ensures F.Decided(f) <==> HasDecision(f)
    ensures HasDecision(f) ==> F.Wanted(f) == f.written
  {}

  lemma FindingCounts(r: F.Run, listed: seq<F.Row>, f: F.Finding, answers: nat -> bool)
    requires |listed| <= |r.rows|
    ensures var q := F.StepOne(r, listed, f, answers);
            && q.skipped == r.skipped + (if HasFinding(listed, f) then 1 else 0)
            && r.created <= q.created <= r.created + (if HasFinding(listed, f) then 0 else 1)
            && r.decided <= q.decided <= r.decided + (if Asks(listed, f) then 1 else 0)
            && q.failed >= r.failed
            && (q.failed == r.failed ==>
                  && q.created == r.created + (if HasFinding(listed, f) then 0 else 1)
                  && q.decided == r.decided + (if Asks(listed, f) then 1 else 0))
  {
    hide F.Match, F.Wanted, F.Accepted, HasDecision, HasFinding;
    MatchIff(listed, f);
    WantedIs(f);
  }

  /**
   * Findings counted as skipped are those the service has; as created, only ones it has not; as
   * decided, only ones whose decision it lacks. A pass in which nothing fails counts them all.
   */
  lemma {:induction false} FindingTallies(listed: seq<F.Row>, findings: seq<F.Finding>, answers: nat -> bool)
    ensures var r := F.Pass(listed, findings, answers);
            var creates, asks := Count(findings, f => !HasFinding(listed, f)), Count(findings, f => Asks(listed, f));
            && r.skipped == Count(findings, f => HasFinding(listed, f))
            && r.created <= creates && r.decided <= asks
            && (r.failed == 0 ==> r.created == creates && r.decided == asks)
  {
    hide F.StepOne, HasFinding, Asks;
    if findings != [] {
      var front, f := findings[..|findings| - 1], findings[|findings| - 1];
      FindingTallies(listed, front, answers);
      FindingCounts(F.Pass(listed, front, answers), listed, f, answers);
    }
  }

  /** The service takes the entry's decision on a row of that status. */
  predicate TakesDecision(f: F.Finding, status: string) {
    |f.approver| <= 128 && |f.dateApproved| <= 64 && (status == f.written || F.CanMove(status, f.written))
  }

  /**
   * One entry of a pass in which the service answers: a decision the service lacks is counted as
   * decided when it takes it on the row as it then is, and as failed otherwise; a row that is
   * created is proposed first.
   */
  lemma AnsweredEntryCounts(r: F.Run, listed: seq<F.Row>, f: F.Finding, answers: nat -> bool)
    requires |listed| <= |r.rows| && forall n :: answers(n)
    ensures var q, row := F.StepOne(r, listed, f, answers), F.Match(listed, f.key);
            var taken := TakesDecision(f, if row.Some? then r.rows[row.value].status else "proposed");
            && q.created == r.created + (if row.Some? then 0 else 1)
            && q.decided == r.decided + (if Asks(listed, f) && taken then 1 else 0)
            && q.failed == r.failed + (if Asks(listed, f) && !taken then 1 else 0)
  {
    hide F.Match, F.Wanted, F.CanMove, HasDecision;
    WantedIs(f);
  }

  /** What a finding that is created ends with: its decision, unless a name or a date is too long to send. */
  lemma CreatedReads(f: F.Finding)
    ensures F.NewStatus(f) == if HasDecision(f) && |f.approver| <= 128 && |f.dateApproved| <= 64 then f.written else "proposed"
  {}
}
