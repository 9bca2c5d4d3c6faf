/** Reconciling mission steps: comparison-based writes against a store that keeps what it is sent. */
module ReconcileSteps {

  datatype Field = Label | Phase | Agent | Status | Notes

  /** A step's fields without the empty ones: what is sent, and what a stored row holds. */
  type Fields = map<Field, string>

  /** One parsed step; an empty string is a field the file says nothing about. */
  datatype Parsed = Parsed(step: string, phase: string, agent: string, status: string, notes: string)

  datatype Key = Key(mission: string, step: string)

  type Store = map<Key, Fields>

  datatype Item = Item(mission: string, parsed: Parsed)

  function FieldOf(p: Parsed, f: Field): string {
    match f
    case Label => p.step
    case Phase => p.phase
    case Agent => p.agent
    case Status => p.status
    case Notes => p.notes
  }

  /** The payload: every field the file fills. */
  function Payload(p: Parsed): Fields {
    map f | f in {Label, Phase, Agent, Status, Notes} && FieldOf(p, f) != "" :: FieldOf(p, f)
  }

  function KeyOf(i: Item): Key {
    Key(i.mission, i.parsed.step)
  }

  /** The stored row already says what the payload says. */
  predicate Covers(row: Fields, payload: Fields) {
    forall f <- payload :: f in row && row[f] == payload[f]
  }

  predicate IsCurrent(existing: Store, i: Item) {
    KeyOf(i) in existing && Covers(existing[KeyOf(i)], Payload(i.parsed))
  }

  /** The upsert: sent fields replace stored ones, omitted fields keep theirs. */
  function Upsert(store: Store, i: Item): Store {
    store[KeyOf(i) := (if KeyOf(i) in store then store[KeyOf(i)] else map[]) + Payload(i.parsed)]
  }

  // ------------------------------------------------------------------
  // One pass
  // ------------------------------------------------------------------

  datatype Counts = Counts(parsed: nat, created: nat, updated: nat, same: nat, failed: nat, skipped: nat)

  /** The store after the steps, the requests made so far and the tallies. */
  datatype Pass = Pass(store: Store, requests: nat, created: nat, updated: nat, same: nat, failed: nat)

  /** `accepts(n)` says whether the service takes the n-th write. */
  function StepOne(p: Pass, existing: Store, i: Item, accepts: nat -> bool): Pass {
    if IsCurrent(existing, i) then p.(same := p.same + 1)
    else if !accepts(p.requests) then p.(requests := p.requests + 1, failed := p.failed + 1)
    else if KeyOf(i) in existing then
      p.(store := Upsert(p.store, i), requests := p.requests + 1, updated := p.updated + 1)
    else
      p.(store := Upsert(p.store, i), requests := p.requests + 1, created := p.created + 1)
  }

  function PassOver(p: Pass, existing: Store, items: seq<Item>, accepts: nat -> bool): Pass {
    if items == [] then p
    else StepOne(PassOver(p, existing, items[..|items| - 1], accepts), existing, items[|items| - 1], accepts)
  }

  /** The steps of the missions whose fetch succeeded, in the order they are compared. */
  function Items(missions: seq<string>, steps: map<string, seq<Parsed>>, fetched: set<string>): seq<Item> {
    if missions == [] then []
    else
      var m := missions[|missions| - 1];
      Items(missions[..|missions| - 1], steps, fetched)
      + (if m in fetched && m in steps then ItemsOf(m, steps[m]) else [])
  }

  function ItemsOf(m: string, steps: seq<Parsed>): seq<Item> {
    seq(|steps|, i requires 0 <= i < |steps| => Item(m, steps[i]))
  }

  function ParsedCount(missions: seq<string>, steps: map<string, seq<Parsed>>): nat {
    if missions == [] then 0
    else
      var m := missions[|missions| - 1];
      ParsedCount(missions[..|missions| - 1], steps) + (if m in steps then |steps[m]| else 0)
  }

  /** The rows fetched before any write: those of the missions whose fetch succeeded. */
  function Existing(store: Store, fetched: set<string>): Store {
    map k | k in store && k.mission in fetched :: store[k]
  }

  /** The steps of one mission, compared one after another. */
  method CompareSteps(before: Pass, existing: Store, m: string, mine: seq<Parsed>, accepts: nat -> bool, ghost start: Pass, ghost items: seq<Item>)
    returns (p: Pass)
    requires before == PassOver(start, existing, items, accepts)
    ensures p == PassOver(start, existing, items + ItemsOf(m, mine), accepts)
    ensures p.created + p.updated + p.same + p.failed == before.created + before.updated + before.same + before.failed + |mine|
    ensures p.requests - before.requests == (p.created + p.updated + p.failed) - (before.created + before.updated + before.failed)
  {
    hide StepOne, PassOver;
    p := before;
    ghost var added := ItemsOf(m, mine);
    assert items + added[..0] == items;
    for j := 0 to |mine|
      invariant p == PassOver(start, existing, items + added[..j], accepts)
      invariant p.created + p.updated + p.same + p.failed == before.created + before.updated + before.same + before.failed + j
      invariant p.requests - before.requests == (p.created + p.updated + p.failed) - (before.created + before.updated + before.failed)
    {
      Appended(items, added, j);
      PassOneMore(start, existing, items + added[..j], added[j], accepts);
      StepOneCounts(p, existing, Item(m, mine[j]), accepts);
      p := StepOne(p, existing, Item(m, mine[j]), accepts);
    }
    assert added[..|mine|] == added;
  }

  /**
   * The pass over every mission. Each parsed step lands in exactly one bucket, whatever
   * fetches and writes fail.
   */
  method Reconcile(store: Store, missions: seq<string>, steps: map<string, seq<Parsed>>, fetched: set<string>, accepts: nat -> bool)
    returns (after: Store, counts: Counts, requests: nat)
    ensures counts.parsed == ParsedCount(missions, steps)
    ensures counts.parsed == counts.created + counts.updated + counts.same + counts.failed + counts.skipped
    ensures requests == counts.created + counts.updated + counts.failed
    ensures var p := PassOver(Pass(store, 0, 0, 0, 0, 0), Existing(store, fetched), Items(missions, steps, fetched), accepts);
            after == p.store && requests == p.requests && counts.created == p.created && counts.updated == p.updated
            && counts.same == p.same && counts.failed == p.failed
  {
    hide StepOne, Existing, PassOver;
    var existing := Existing(store, fetched);
    var start := Pass(store, 0, 0, 0, 0, 0);
    var p := start;
    var parsed: nat, skipped: nat := 0, 0;
    ghost var items: seq<Item> := [];
    NothingCompared(start, existing, accepts);
    for i := 0 to |missions|
      invariant items == Items(missions[..i], steps, fetched)
      invariant p == PassOver(start, existing, items, accepts)
      invariant parsed == ParsedCount(missions[..i], steps)
      invariant parsed == p.created + p.updated + p.same + p.failed + skipped
      invariant p.requests == p.created + p.updated + p.failed
    {
      assert missions[..i + 1][..i] == missions[..i];
      var m := missions[i];
      var mine := if m in steps then steps[m] else [];
      parsed := parsed + |mine|;
      if m !in fetched {
        skipped := skipped + |mine|;
        assert items + [] == items;
      } else {
        if m !in steps {
          assert items + ItemsOf(m, []) == items;
        }
        p := CompareSteps(p, existing, m, mine, accepts, start, items);
        items := items + ItemsOf(m, mine);
      }
    }
    assert missions[..|missions|] == missions;
    after, requests := p.store, p.requests;
    counts := Counts(parsed, p.created, p.updated, p.same, p.failed, skipped);
  }

  lemma Appended(items: seq<Item>, added: seq<Item>, j: nat)
    requires j < |added|
    ensures items + added[..j + 1] == items + added[..j] + [added[j]]
  {}

  lemma PassOneMore(start: Pass, existing: Store, items: seq<Item>, i: Item, accepts: nat -> bool)
    ensures PassOver(start, existing, items + [i], accepts) == StepOne(PassOver(start, existing, items, accepts), existing, i, accepts)
  {
    assert (items + [i])[..|items|] == items;
  }

  lemma NothingCompared(start: Pass, existing: Store, accepts: nat -> bool)
    ensures PassOver(start, existing, [], accepts) == start
  {}

  lemma StepOneCounts(p: Pass, existing: Store, i: Item, accepts: nat -> bool)
    ensures var q := StepOne(p, existing, i, accepts);
            && q.created + q.updated + q.same + q.failed == p.created + p.updated + p.same + p.failed + 1
            && q.requests - p.requests == (q.created + q.updated + q.failed) - (p.created + p.updated + p.failed)
  {}

  // ------------------------------------------------------------------
  // Two passes
  // ------------------------------------------------------------------

  function Always(): nat -> bool {
    n => true
  }

  /** The store after a pass in which nothing fails. */
  function After(store: Store, items: seq<Item>): Store {
    PassOver(Pass(store, 0, 0, 0, 0, 0), store, items, Always()).store
  }

  /** The writes of a pass in which nothing fails. */
  function Writes(store: Store, items: seq<Item>): nat {
    PassOver(Pass(store, 0, 0, 0, 0, 0), store, items, Always()).requests
  }

  /** Two rows of the same step agree on every field that both fill. */
  predicate Agree(a: Item, b: Item) {
    KeyOf(a) == KeyOf(b) ==>
      forall f :: f in Payload(a.parsed) && f in Payload(b.parsed) ==> Payload(a.parsed)[f] == Payload(b.parsed)[f]
  }

  predicate AllAgree(items: seq<Item>) {
    forall i, j :: 0 <= i < j < |items| ==> Agree(items[i], items[j])
  }

  lemma AfterLast(store: Store, items: seq<Item>, i: Item)
    ensures After(store, items + [i]) == if IsCurrent(store, i) then After(store, items) else Upsert(After(store, items), i)
    ensures Writes(store, items + [i]) == Writes(store, items) + (if IsCurrent(store, i) then 0 else 1)
  {
    hide IsCurrent, Upsert;
    assert (items + [i])[..|items|] == items;
  }

  /** The value of a field comes from the store or from a step of the same key. */
  predicate HasSource(store: Store, items: seq<Item>, k: Key, f: Field, v: string) {
    || (k in store && f in store[k] && store[k][f] == v)
    || exists i <- items :: KeyOf(i) == k && f in Payload(i.parsed) && Payload(i.parsed)[f] == v
  }

  lemma {:induction false} ValuesHaveSources(store: Store, items: seq<Item>, k: Key, f: Field)
    requires k in After(store, items) && f in After(store, items)[k]
    ensures HasSource(store, items, k, f, After(store, items)[k][f])
  {
    hide Payload, After, IsCurrent;
    if items == [] {
      AfterNothing(store);
    } else {
      var front, i := items[..|items| - 1], items[|items| - 1];
      assert items == front + [i];
      AfterLast(store, front, i);
      var before := After(store, front);
      if !IsCurrent(store, i) && KeyOf(i) == k && f in Payload(i.parsed) {
        assert i in items;
      } else {
        ValuesHaveSources(store, front, k, f);
        SourcesStay(store, front, i, k, f, before[k][f]);
      }
    }
  }

  lemma SourcesStay(store: Store, items: seq<Item>, i: Item, k: Key, f: Field, v: string)
    requires HasSource(store, items, k, f, v)
    ensures HasSource(store, items + [i], k, f, v)
  {
    hide Payload;
    if !(k in store && f in store[k] && store[k][f] == v) {
      var x :| x in items && KeyOf(x) == k && f in Payload(x.parsed) && Payload(x.parsed)[f] == v;
      assert x in items + [i];
    }
  }

  lemma AfterNothing(store: Store)
    ensures After(store, []) == store
  {}

  /** A pass never forgets a row or a filled field. */
  lemma {:induction false} RowsStay(store: Store, items: seq<Item>, k: Key)
    requires k in store
    ensures k in After(store, items)
    ensures forall f <- store[k] :: f in After(store, items)[k]
  {
    hide Payload, After, IsCurrent;
    if items == [] {
      AfterNothing(store);
    } else {
      var front, i := items[..|items| - 1], items[|items| - 1];
      assert items == front + [i];
      AfterLast(store, front, i);
      RowsStay(store, front, k);
    }
  }

  lemma AgreesWith(items: seq<Item>, a: Item, i: Item)
    requires AllAgree(items + [a]) && i in items
    ensures Agree(i, a)
  {
    hide Agree;
    var j :| 0 <= j < |items| && items[j] == i;
    assert (items + [a])[j] == i && (items + [a])[|items|] == a;
  }

  /** A step that is not written because the store had it is still current after the others were written. */
  lemma CurrentStays(store: Store, items: seq<Item>, a: Item)
    requires AllAgree(items + [a]) && IsCurrent(store, a)
    ensures IsCurrent(After(store, items), a)
  {
    hide Payload, After, AllAgree, Agree;
    var k := KeyOf(a);
    RowsStay(store, items, k);
    forall f | f in Payload(a.parsed)
      ensures f in After(store, items)[k] && After(store, items)[k][f] == Payload(a.parsed)[f]
    {
      ValuesHaveSources(store, items, k, f);
      var v := After(store, items)[k][f];
      if !(f in store[k] && store[k][f] == v) {
        var i :| i in items && KeyOf(i) == k && f in Payload(i.parsed) && Payload(i.parsed)[f] == v;
        AgreesWith(items, a, i);
        SameField(i, a, f);
      }
    }
  }

  lemma SameField(a: Item, b: Item, f: Field)
    requires Agree(a, b) && KeyOf(a) == KeyOf(b) && f in Payload(a.parsed) && f in Payload(b.parsed)
    ensures Payload(a.parsed)[f] == Payload(b.parsed)[f]
  {}

  /** If the steps agree, every one of them is current after the pass. */
  lemma {:induction false} AllCurrent(store: Store, items: seq<Item>)
    requires AllAgree(items)
    ensures forall i <- items :: IsCurrent(After(store, items), i)
  {
    hide Payload, After, Agree;
    if items != [] {
      var front, a := items[..|items| - 1], items[|items| - 1];
      assert items == front + [a];
      AllCurrent(store, front);
      AfterLast(store, front, a);
      var before := After(store, front);
      if IsCurrent(store, a) {
        CurrentStays(store, front, a);
      } else {
        forall i | i in front
          ensures IsCurrent(Upsert(before, a), i)
        {
          AgreesWith(front, a, i);
          if KeyOf(i) == KeyOf(a) {
            forall f | f in Payload(i.parsed) && f in Payload(a.parsed)
              ensures Payload(i.parsed)[f] == Payload(a.parsed)[f]
            {
              SameField(i, a, f);
            }
          }
        }
      }
      assert forall i <- items :: i in front || i == a;
    }
  }

  lemma {:induction false} NoWritesIff(store: Store, items: seq<Item>)
    ensures Writes(store, items) == 0 <==> forall i <- items :: IsCurrent(store, i)
  {
    hide IsCurrent, Writes;
    if items == [] {
      NoItemsNoWrites(store);
    } else {
      var front, a := items[..|items| - 1], items[|items| - 1];
      assert items == front + [a];
      AfterLast(store, front, a);
      NoWritesIff(store, front);
      assert forall i <- items :: i in front || i == a;
      assert forall i <- front :: i in items;
    }
  }

  lemma NoItemsNoWrites(store: Store)
    ensures Writes(store, []) == 0
  {}

  /**
   * Reconciling an unchanged tree twice: the second pass writes nothing exactly when any two
   * rows of the same step agree on every field both of them fill. Distinct labels are enough.
   */
  lemma SecondPassIsQuiet(store: Store, items: seq<Item>)
    ensures Writes(After(store, items), items) == 0 <==> AllAgree(items)
  {
    hide After, Writes, Payload;
    NoWritesIff(After(store, items), items);
    if AllAgree(items) {
      AllCurrent(store, items);
    } else {
      var i, j :| 0 <= i < j < |items| && !Agree(items[i], items[j]);
      assert items[i] in items && items[j] in items;
    }
  }

  lemma DistinctLabelsAgree(items: seq<Item>)
    requires forall i, j :: 0 <= i < j < |items| ==> KeyOf(items[i]) != KeyOf(items[j])
    ensures AllAgree(items)
  {
    hide Payload;
  }
}
