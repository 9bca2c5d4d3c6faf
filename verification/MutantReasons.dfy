/** The ids that the reason of a retired mutant names. */
module MutantReasons {
  import opened Options
  import opened Text

  predicate IsCap(c: char) {
    'A' <= c <= 'Z'
  }

  predicate IsCapOrDigit(c: char) {
    IsCap(c) || IsDigit(c)
  }

  predicate IsWord(c: char) {
    IsCapOrDigit(c) || 'a' <= c <= 'z' || c == '_'
  }

  /** `\b` between places p - 1 and p. */
  predicate Boundary(s: string, p: nat)
    requires p <= |s|
  {
    (p > 0 && IsWord(s[p - 1])) != (p < |s| && IsWord(s[p]))
  }

  /** The end of the run of capitals and digits that starts at i. */
  function RunEnd(s: string, i: nat): (e: nat)
    requires i <= |s|
    ensures i <= e <= |s|
    ensures forall k :: i <= k < e ==> IsCapOrDigit(s[k])
    ensures e < |s| ==> !IsCapOrDigit(s[e])
    decreases |s| - i
  {
    if i < |s| && IsCapOrDigit(s[i]) then RunEnd(s, i + 1) else i
  }

  /** The last end of a hyphen and a run, from e on, at which a word ends; `found` is the last one so far. */
  function LastEnd(s: string, e: nat, found: Option<nat>): (r: Option<nat>)
    requires e <= |s| && (found.Some? ==> found.value <= e && Boundary(s, found.value))
    ensures r.Some? ==> r.value <= |s| && Boundary(s, r.value) && (r == found || e < r.value)
    ensures r.Some? ==> forall k :: e <= k < r.value ==> IsCapOrDigit(s[k]) || s[k] == '-'
    decreases |s| - e
  {
    if e + 1 < |s| && s[e] == '-' && RunEnd(s, e + 1) > e + 1 then
      var next := RunEnd(s, e + 1);
      LastEnd(s, next, if Boundary(s, next) then Some(next) else found)
    else found
  }

  /** The end of the id that starts at i: a capital, capitals and digits, and hyphenated groups of them. */
  function IdEnd(s: string, i: nat): (r: Option<nat>)
    requires i < |s|
    ensures r.Some? ==> i < r.value <= |s| && IsCap(s[i]) && Boundary(s, i) && Boundary(s, r.value)
    ensures r.Some? ==> forall k :: i <= k < r.value ==> IsCapOrDigit(s[k]) || s[k] == '-'
  {
    if IsCap(s[i]) && Boundary(s, i) then LastEnd(s, RunEnd(s, i), None) else None
  }

  /** Every id in the text, from the left, none overlapping another. */
  function FindIds(s: string, i: nat): set<string>
    requires i <= |s|
    decreases |s| - i
  {
    if i == |s| then {}
    else
      var e := IdEnd(s, i);
      if e.Some? then {s[i..e.value]} + FindIds(s, e.value) else FindIds(s, i + 1)
  }

  /** The text stands at p with neither a word character nor a hyphen at its sides. */
  predicate StandsAt(s: string, id: string, p: int) {
    && OccursAt(s, id, p)
    && (p > 0 ==> !IsWord(s[p - 1]) && s[p - 1] != '-')
    && (p + |id| < |s| ==> !IsWord(s[p + |id|]) && s[p + |id|] != '-')
  }

  predicate Stands(s: string, id: string) {
    exists p :: 0 <= p <= |s| && StandsAt(s, id, p)
  }

  /** What a reason names: every id in it, and every known id, of any form, that stands in it; not its own. */
  function NamedIn(reason: string, known: set<string>, own: string): set<string> {
    FindIds(reason, 0) + (set id | id in known && Stands(reason, id)) - {own}
  }

  // ------------------------------------------------------------------
  // Which ids are found
  // ------------------------------------------------------------------

  /** A capital first, then capitals, digits and single hyphens, at least one; no hyphen last. */
  predicate IsId(id: string) {
    && id != "" && IsCap(id[0]) && '-' in id && IsGrouped(id, 0, |id|)
  }

  predicate IsGrouped(s: string, i: nat, e: nat)
    requires e <= |s|
  {
    forall k :: i <= k < e ==> InGroup(s, k, e)
  }

  /** A capital, a digit, or a hyphen in front of one of them. */
  predicate InGroup(s: string, k: nat, e: nat)
    requires k < e <= |s|
  {
    IsCapOrDigit(s[k]) || (s[k] == '-' && k + 1 < e && IsCapOrDigit(s[k + 1]))
  }

  lemma {:induction false} LastEndIsGrouped(s: string, i: nat, e: nat, found: Option<nat>)
    requires i < e <= |s| && (found.Some? ==> found.value <= e && Boundary(s, found.value))
    requires IsCap(s[i]) && IsGrouped(s, i, e)
    requires found.Some? ==> i < found.value && IsGrouped(s, i, found.value) && '-' in s[i..found.value]
    ensures var r := LastEnd(s, e, found); r.Some? ==> i < r.value && IsGrouped(s, i, r.value) && '-' in s[i..r.value]
    decreases |s| - e
  {
    hide Boundary;
    if e + 1 < |s| && s[e] == '-' && RunEnd(s, e + 1) > e + 1 {
      var next := RunEnd(s, e + 1);
      assert IsCapOrDigit(s[e + 1]);
      assert s[i..next][e - i] == '-';
      forall k | i <= k < next
        ensures InGroup(s, k, next)
      {
        if k < e {
          assert InGroup(s, k, e);
        }
      }
      LastEndIsGrouped(s, i, next, if Boundary(s, next) then Some(next) else found);
    }
  }

  lemma FoundIsId(s: string, i: nat)
    requires i < |s| && IdEnd(s, i).Some?
    ensures IsId(s[i..IdEnd(s, i).value])
  {
    hide Boundary, RunEnd, LastEnd;
    LastEndIsGrouped(s, i, RunEnd(s, i), None);
    SliceIsGrouped(s, i, IdEnd(s, i).value);
  }

  lemma InSlice(s: string, i: nat, e: nat, k: nat)
    requires i <= k < e <= |s|
    ensures InGroup(s[i..e], k - i, e - i) <==> InGroup(s, k, e)
  {}

  lemma SliceIsGrouped(s: string, i: nat, e: nat)
    requires i <= e <= |s|
    ensures IsGrouped(s[i..e], 0, e - i) <==> IsGrouped(s, i, e)
  {
    hide InGroup;
    forall k | i <= k < e
      ensures InGroup(s[i..e], k - i, e - i) <==> InGroup(s, k, e)
    {
      InSlice(s, i, e, k);
    }
    if IsGrouped(s[i..e], 0, e - i) {
      forall k | i <= k < e
        ensures InGroup(s, k, e)
      {
        assert InGroup(s[i..e], k - i, e - i);
      }
    }
    if IsGrouped(s, i, e) {
      var id, n := s[i..e], e - i;
      forall k | 0 <= k < n
        ensures InGroup(id, k, n)
      {
        assert InGroup(s, k + i, e);
        InSlice(s, i, e, k + i);
      }
    }
  }

  /** An id that is found is in the text, between word boundaries, and has the form of one. */
  lemma {:induction false} FoundIdsOccur(s: string, i: nat, id: string)
    requires i <= |s| && id in FindIds(s, i)
    ensures IsId(id)
    ensures exists p: nat :: p < |s| && OccursAt(s, id, p) && IsCap(s[p]) && Boundary(s, p) && Boundary(s, p + |id|)
    decreases |s| - i
  {
    hide IsId;
    var e := IdEnd(s, i);
    if e.Some? && id == s[i..e.value] {
      FoundIsId(s, i);
      assert OccursAt(s, id, i) && i + |id| == e.value;
    } else {
      FoundIdsOccur(s, if e.Some? then e.value else i + 1, id);
    }
  }

  /** From a group's end on, the groups up to `end` are taken, and none behind it. */
  lemma {:induction false} GroupsAreTaken(s: string, e: nat, end: nat, found: Option<nat>)
    requires e <= end <= |s| && (found.Some? ==> found.value <= e && Boundary(s, found.value))
    requires IsGrouped(s, e, end) && (e < end ==> s[e] == '-')
    requires end < |s| ==> !IsWord(s[end]) && s[end] != '-'
    requires e == end ==> found == Some(end)
    ensures LastEnd(s, e, found) == Some(end)
    decreases end - e
  {
    if e < end {
      var next := RunEnd(s, e + 1);
      assert InGroup(s, e, end);
      assert next <= end;
      assert next < end ==> InGroup(s, next, end);
      assert IsCapOrDigit(s[next - 1]);
      GroupsAreTaken(s, next, end, Some(next));
    }
  }

  lemma EndOfId(s: string, p: nat, end: nat)
    requires p < end <= |s| && IsId(s[p..end])
    requires p > 0 ==> !IsWord(s[p - 1])
    requires end < |s| ==> !IsWord(s[end]) && s[end] != '-'
    ensures IdEnd(s, p) == Some(end)
  {
    var id := s[p..end];
    assert forall k :: p <= k < end ==> s[k] == id[k - p];
    SliceIsGrouped(s, p, end);
    var e := RunEnd(s, p);
    var k :| 0 <= k < |id| && id[k] == '-';
    assert s[p + k] == '-';
    assert e <= p + k && InGroup(s, e, end);
    GroupsAreTaken(s, e, end, None);
  }

  /** Nothing else in the text hides an id that stands in it alone: it is found. */
  lemma {:induction false} StandingIdIsFound(s: string, i: nat, p: nat, id: string)
    requires i <= p && OccursAt(s, id, p) && IsId(id)
    requires p > 0 ==> !IsWord(s[p - 1]) && s[p - 1] != '-'
    requires p + |id| < |s| ==> !IsWord(s[p + |id|]) && s[p + |id|] != '-'
    ensures id in FindIds(s, i)
    decreases p - i
  {
    hide IsId;
    if i == p {
      NotEmpty(id);
      EndOfId(s, p, p + |id|);
    } else {
      var e := IdEnd(s, i);
      if e.Some? {
        EndsBefore(s, i, p);
        StandingIdIsFound(s, e.value, p, id);
      } else {
        StandingIdIsFound(s, i + 1, p, id);
      }
    }
  }

  lemma EndsBefore(s: string, i: nat, p: nat)
    requires i < p <= |s| && IdEnd(s, i).Some? && !IsWord(s[p - 1]) && s[p - 1] != '-'
    ensures IdEnd(s, i).value <= p
  {
    hide IdEnd, Boundary;
    var e := IdEnd(s, i).value;
    assert forall k :: i <= k < e ==> IsCapOrDigit(s[k]) || s[k] == '-';
  }

  lemma NotEmpty(id: string)
    requires IsId(id)
    ensures id != ""
  {}

  /** Neither a word character nor a hyphen stands at the inner ends of what is around. */
  predicate IsAlone(a: string, b: string) {
    && (a != "" ==> !IsWord(a[|a| - 1]) && a[|a| - 1] != '-')
    && (b != "" ==> !IsWord(b[0]) && b[0] != '-')
  }

  lemma StandsWithin(s: string, id: string, p: nat)
    requires p <= |s| && StandsAt(s, id, p)
    ensures s == s[..p] + id + s[p + |id|..] && IsAlone(s[..p], s[p + |id|..])
  {
    hide IsWord;
    assert s[p..p + |id|] == id;
  }

  lemma WithinStands(a: string, id: string, b: string)
    requires IsAlone(a, b)
    ensures StandsAt(a + id + b, id, |a|)
  {
    hide IsWord;
    var s := a + id + b;
    assert s[|a|..|a| + |id|] == id;
    assert a != "" ==> s[|a| - 1] == a[|a| - 1];
    assert b != "" ==> s[|a| + |id|] == b[0];
  }

  lemma StandsIff(s: string, id: string)
    ensures Stands(s, id) <==> exists a, b :: s == a + id + b && IsAlone(a, b)
  {
    hide IsAlone, StandsAt;
    if Stands(s, id) {
      var p: nat :| p <= |s| && StandsAt(s, id, p);
      StandsWithin(s, id, p);
    }
    if a, b :| s == a + id + b && IsAlone(a, b) {
      WithinStands(a, id, b);
    }
  }

  /** What a reason names: ids that are found, and known ones that stand in it alone, but not the row's own. */
  lemma NamedIff(reason: string, known: set<string>, own: string, id: string)
    ensures id in NamedIn(reason, known, own) <==>
              && id != own
              && (id in FindIds(reason, 0) || (id in known && exists a, b :: reason == a + id + b && IsAlone(a, b)))
  {
    hide FindIds, IsAlone, Stands;
    StandsIff(reason, id);
  }
}
