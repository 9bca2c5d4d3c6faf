/** Choosing one decision per directive id from a harness's proposals. */
module DirectiveTargets {

  /** A proposal as the service lists it; an absent harness, time or id is empty or zero. */
  datatype Listed = Listed(state: string, did: string, harness: string, decidedAt: string, id: int, text: string)

  /** Only a decision for this harness, or for none, counts. */
  predicate Counts(p: Listed, harness: string) {
    && (p.state == "accepted" || p.state == "declined") && p.did != ""
    && (p.harness == "" || p.harness == harness)
  }

  // ------------------------------------------------------------------
  // The order of decisions
  // ------------------------------------------------------------------

  /** String comparison, by code point. */
  predicate Before(a: string, b: string) {
    if b == "" then false
    else if a == "" then true
    else if a[0] != b[0] then a[0] < b[0]
    else Before(a[1..], b[1..])
  }

  lemma {:induction false} BeforeTransitive(a: string, b: string, c: string)
    requires Before(a, b) && Before(b, c)
    ensures Before(a, c)
  {
    if a != "" && a[0] == b[0] && b[0] == c[0] {
      BeforeTransitive(a[1..], b[1..], c[1..]);
    }
  }

  lemma {:induction false} BeforeTotal(a: string, b: string)
    ensures Before(a, b) || a == b || Before(b, a)
    ensures !(Before(a, b) && Before(b, a)) && (a == b ==> !Before(a, b))
  {
    if a != "" && b != "" && a[0] == b[0] {
      BeforeTotal(a[1..], b[1..]);
      assert a == [a[0]] + a[1..] && b == [b[0]] + b[1..];
    }
  }

  /** The decision times, then the ids. */
  predicate Later(p: Listed, q: Listed) {
    Before(q.decidedAt, p.decidedAt) || (p.decidedAt == q.decidedAt && p.id > q.id)
  }

  lemma LaterTransitive(p: Listed, q: Listed, r: Listed)
    requires !Later(q, p) && !Later(r, q)
    ensures !Later(r, p)
  {
    BeforeTotal(p.decidedAt, q.decidedAt);
    BeforeTotal(q.decidedAt, r.decidedAt);
    BeforeTotal(p.decidedAt, r.decidedAt);
    if Before(r.decidedAt, q.decidedAt) && Before(q.decidedAt, p.decidedAt) {
      BeforeTransitive(r.decidedAt, q.decidedAt, p.decidedAt);
    }
  }

  // ------------------------------------------------------------------
  // One target per id
  // ------------------------------------------------------------------

  /** Every id that some counting proposal names has the latest of them, and no other id has a target. */
  ghost predicate AreLatest(best: map<string, Listed>, proposals: seq<Listed>, harness: string) {
    && (forall did :: did in best <==> exists p <- proposals :: Counts(p, harness) && p.did == did)
    && (forall did <- best :: best[did] in proposals && Counts(best[did], harness) && best[did].did == did)
    && (forall p <- proposals :: Counts(p, harness) ==> p.did in best && !Later(p, best[p.did]))
  }

  /** The text is smaller at the first place where the two differ, or ends there. */
  predicate Smaller(a: string, b: string) {
    exists k :: 0 <= k <= |a| && k < |b| && a[..k] == b[..k] && (k == |a| || a[k] < b[k])
  }

  lemma {:induction false} BeforeIff(a: string, b: string)
    ensures Before(a, b) <==> Smaller(a, b)
  {
    if a != "" && b != "" && a[0] == b[0] {
      BeforeIff(a[1..], b[1..]);
      if Smaller(a[1..], b[1..]) {
        var k :| 0 <= k <= |a| - 1 && k < |b| - 1 && a[1..][..k] == b[1..][..k] && (k == |a| - 1 || a[1..][k] < b[1..][k]);
        assert a[..k + 1] == [a[0]] + a[1..][..k] && b[..k + 1] == [b[0]] + b[1..][..k];
      }
      if Smaller(a, b) {
        var k :| 0 <= k <= |a| && k < |b| && a[..k] == b[..k] && (k == |a| || a[k] < b[k]);
        assert k > 0;
        assert a[1..][..k - 1] == a[..k][1..] && b[1..][..k - 1] == b[..k][1..];
      }
    } else if b != "" {
      assert a[..0] == b[..0];
      if a != "" && Smaller(a, b) {
        FirstNotAbove(a, b);
      }
    }
  }

  lemma FirstNotAbove(a: string, b: string)
    requires a != "" && b != "" && Smaller(a, b)
    ensures a[0] <= b[0]
  {
    var k :| 0 <= k <= |a| && k < |b| && a[..k] == b[..k] && (k == |a| || a[k] < b[k]);
    if k > 0 {
      assert a[..k][0] == b[..k][0];
    }
  }

  /** A decision that counts: accepted or declined, on some id, for this harness or for none. */
  predicate IsDecision(p: Listed, harness: string) {
    p.state in {"accepted", "declined"} && p.did != "" && p.harness in {"", harness}
  }

  /** Each id has a decision on it, and no other on that id has a later time, or the same time and a higher number. */
  predicate StandLatest(best: map<string, Listed>, proposals: seq<Listed>, harness: string) {
    && (forall did <- best :: best[did] in proposals && IsDecision(best[did], harness) && best[did].did == did)
    && (forall p <- proposals :: IsDecision(p, harness) ==> p.did in best && NotAfter(p, best[p.did]))
  }

  predicate NotAfter(p: Listed, q: Listed) {
    Smaller(p.decidedAt, q.decidedAt) || (p.decidedAt == q.decidedAt && p.id <= q.id)
  }

  lemma NotAfterIff(p: Listed, q: Listed)
    ensures NotAfter(p, q) <==> !Later(p, q)
  {
    hide Before, Smaller;
    BeforeIff(p.decidedAt, q.decidedAt);
    BeforeTotal(p.decidedAt, q.decidedAt);
  }

  lemma LatestStand(best: map<string, Listed>, proposals: seq<Listed>, harness: string)
    requires AreLatest(best, proposals, harness)
    ensures StandLatest(best, proposals, harness)
  {
    hide Later, NotAfter;
    forall p | p in proposals && IsDecision(p, harness)
      ensures p.did in best && NotAfter(p, best[p.did])
    {
      NotAfterIff(p, best[p.did]);
    }
  }

  method BuildTargets(proposals: seq<Listed>, harness: string) returns (best: map<string, Listed>)
    ensures AreLatest(best, proposals, harness)
    ensures StandLatest(best, proposals, harness)
  {
    best := map[];
    for i := 0 to |proposals|
      invariant AreLatest(best, proposals[..i], harness)
    {
      var p := proposals[i];
      assert proposals[..i + 1] == proposals[..i] + [p];
      LatestOneMore(best, proposals[..i], p, harness);
      if Counts(p, harness) && (p.did !in best || Later(p, best[p.did])) {
        best := best[p.did := p];
      }
    }
    assert proposals[..|proposals|] == proposals;
    LatestStand(best, proposals, harness);
  }

  lemma LatestOneMore(best: map<string, Listed>, proposals: seq<Listed>, p: Listed, harness: string)
    requires AreLatest(best, proposals, harness)
    ensures AreLatest(if Counts(p, harness) && (p.did !in best || Later(p, best[p.did])) then best[p.did := p] else best,
                      proposals + [p], harness)
  {
    hide Before, Later, Counts;
    var wins := Counts(p, harness) && (p.did !in best || Later(p, best[p.did]));
    var now := if wins then best[p.did := p] else best;
    var more := proposals + [p];
    assert p in more && forall q <- proposals :: q in more;
    forall q | q in more && Counts(q, harness)
      ensures q.did in now && !Later(q, now[q.did])
    {
      NotLaterThanItself(q);
      if q in proposals && wins && q.did == p.did {
        LaterIsNotBefore(p, best[p.did]);
        LaterTransitive(p, best[p.did], q);
      }
    }
  }

  lemma NotLaterThanItself(p: Listed)
    ensures !Later(p, p)
  {
    BeforeTotal(p.decidedAt, p.decidedAt);
  }

  lemma LaterIsNotBefore(p: Listed, q: Listed)
    requires Later(p, q)
    ensures !Later(q, p)
  {
    BeforeTotal(p.decidedAt, q.decidedAt);
  }

  lemma NeitherLater(p: Listed, q: Listed)
    requires !Later(p, q) && !Later(q, p)
    ensures p.decidedAt == q.decidedAt && p.id == q.id
  {
    BeforeTotal(p.decidedAt, q.decidedAt);
  }

  /** When no two decisions on an id have the same time and number, the order of the list does not matter. */
  lemma ListingOrderDoesNotMatter(a: map<string, Listed>, b: map<string, Listed>, proposals: seq<Listed>, others: seq<Listed>, harness: string)
    requires AreLatest(a, proposals, harness) && AreLatest(b, others, harness)
    requires forall p :: p in proposals <==> p in others
    requires forall p <- proposals, q <- proposals ::
               Counts(p, harness) && Counts(q, harness) && p.did == q.did && p.decidedAt == q.decidedAt && p.id == q.id ==> p == q
    ensures a == b
  {
    hide Before, Counts, Later;
    forall did
      ensures did in a <==> did in b
    {
      if p :| p in proposals && Counts(p, harness) && p.did == did {
        assert p in others;
      }
      if p :| p in others && Counts(p, harness) && p.did == did {
        assert p in proposals;
      }
    }
    forall did | did in a
      ensures a[did] == b[did]
    {
      assert a[did] in others && b[did] in proposals;
      NeitherLater(a[did], b[did]);
    }
    assert a.Keys == b.Keys;
  }

  /** A decision later than every other one on its id is the target, so the last of accept and decline stands. */
  lemma LastDecisionStands(best: map<string, Listed>, proposals: seq<Listed>, harness: string, p: Listed)
    requires AreLatest(best, proposals, harness) && p in proposals && Counts(p, harness)
    requires forall q <- proposals :: Counts(q, harness) && q.did == p.did && q != p ==> Later(p, q)
    ensures best[p.did] == p
  {
    hide Before, Counts;
  }
}
