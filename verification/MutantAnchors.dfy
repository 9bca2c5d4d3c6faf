/** Finding the one place where a mutant's `before` text begins on its stated line, and planting there. */
module MutantAnchors {
  import opened Text

  /** The 1-based line on which offset pos falls. */
  function LineAt(text: string, pos: nat): nat
    requires pos <= |text|
  {
    if pos == 0 then 1 else LineAt(text, pos - 1) + (if text[pos - 1] == '\n' then 1 else 0)
  }

  predicate BeginsOn(text: string, line: int, before: string, pos: int) {
    OccursAt(text, before, pos) && LineAt(text, pos) == line
  }

  predicate Increasing(s: seq<nat>) {
    forall i, j :: 0 <= i < j < |s| ==> s[i] < s[j]
  }

  /** `hits` lists, in order, the offsets below `upto` that satisfy p. */
  predicate Lists(hits: seq<nat>, p: int -> bool, upto: int) {
    && Increasing(hits)
    && (forall h <- hits :: h < upto && p(h))
    && (forall i: nat :: i < upto && p(i) ==> i in hits)
  }

  lemma ListsMore(hits: seq<nat>, p: int -> bool, upto: nat, pos: nat)
    requires Lists(hits, p, upto) && upto <= pos
    requires forall i :: upto <= i < pos ==> !p(i)
    ensures Lists(if p(pos) then hits + [pos] else hits, p, pos + 1)
  {
    var more := if p(pos) then hits + [pos] else hits;
    forall i, j | 0 <= i < j < |more|
      ensures more[i] < more[j]
    {
      assert more[i] == hits[i] && hits[i] in hits;
    }
  }

  lemma ListsAll(hits: seq<nat>, p: int -> bool, upto: nat, end: nat)
    requires Lists(hits, p, upto) && upto <= end
    requires forall i :: upto <= i < end ==> !p(i)
    ensures Lists(hits, p, end)
  {}

  /** Every occurrence of `before` that begins on the line, overlapping ones included, in increasing order. */
  method AnchorOffsets(text: string, line: int, before: string) returns (hits: seq<nat>)
    ensures Increasing(hits)
    ensures forall pos :: pos in hits <==> pos >= 0 && BeginsOn(text, line, before, pos)
  {
    var p := pos => BeginsOn(text, line, before, pos);
    hits := [];
    var start := 0;
    while true
      invariant 0 <= start <= |text| + 1
      invariant Lists(hits, p, start)
      decreases |text| + 1 - start
    {
      var pos := Find(text, before, start);
      if pos < 0 {
        ListsAll(hits, p, start, |text| + 1);
        assert Lists(hits, p, |text| + 1);
        break;
      }
      ListsMore(hits, p, start, pos);
      if LineAt(text, pos) == line {
        hits := hits + [pos];
      }
      start := pos + 1;
    }
  }

  datatype Located =
    | At(pos: nat)                 // exactly one occurrence begins on the line
    | Repeated(hits: nat)          // several do
    | Elsewhere(lines: set<nat>)   // none does; the lines the text was found on

  /** Several occurrences begin on the line, and how many; or none does, and the lines where one does. */
  ghost predicate WhyNot(r: Located, text: string, line: int, before: string) {
    match r
    case At(pos) => false
    case Repeated(hits) =>
      hits >= 2 && exists offsets: seq<nat> ::
        |offsets| == hits && Increasing(offsets) && forall pos :: pos in offsets <==> pos >= 0 && BeginsOn(text, line, before, pos)
    case Elsewhere(lines) => forall n :: n in lines <==> n != line && exists pos :: BeginsOn(text, n, before, pos)
  }

  /** The offset to replace, or why there is none. */
  method Locate(text: string, line: int, before: string) returns (r: Located)
    ensures r.At? <==> exists pos :: BeginsOn(text, line, before, pos) && OnlyOne(text, line, before, pos)
    ensures r.At? ==> BeginsOn(text, line, before, r.pos)
    ensures !r.At? ==> WhyNot(r, text, line, before)
  {
    var hits := AnchorOffsets(text, line, before);
    if |hits| == 1 {
      assert hits[0] in hits;
      assert OnlyOne(text, line, before, hits[0]);
      return At(hits[0]);
    }
    if hits != [] {
      assert hits[0] in hits && hits[1] in hits && hits[0] < hits[1];
      return Repeated(|hits|);
    }
    assert forall pos :: BeginsOn(text, line, before, pos) ==> pos in hits;
    var found: set<nat> := {};
    var start := 0;
    while true
      invariant 0 <= start <= |text| + 1
      invariant forall n <- found :: exists pos :: BeginsOn(text, n, before, pos)
      invariant forall pos :: pos < start && OccursAt(text, before, pos) ==> LineAt(text, pos) in found
      decreases |text| + 1 - start
    {
      var pos := Find(text, before, start);
      if pos < 0 {
        break;
      }
      assert BeginsOn(text, LineAt(text, pos), before, pos);
      found := found + {LineAt(text, pos)};
      start := pos + 1;
    }
    r := Elsewhere(found);
  }

  ghost predicate OnlyOne(text: string, line: int, before: string, pos: int) {
    forall q :: BeginsOn(text, line, before, q) ==> q == pos
  }

  // ------------------------------------------------------------------
  // Planting
  // ------------------------------------------------------------------

  /** The text with the window at pos replaced. */
  function Plant(text: string, pos: nat, before: string, after: string): string
    requires OccursAt(text, before, pos)
  {
    text[..pos] + after + text[pos + |before|..]
  }

  lemma {:induction false} LineOfPrefix(a: string, b: string, pos: nat)
    requires pos <= |a| && pos <= |b| && a[..pos] == b[..pos]
    ensures LineAt(a, pos) == LineAt(b, pos)
  {
    if pos > 0 {
      assert a[..pos][pos - 1] == a[pos - 1];
      assert b[..pos][pos - 1] == b[pos - 1];
      assert a[..pos - 1] == a[..pos][..pos - 1];
      assert b[..pos - 1] == b[..pos][..pos - 1];
      LineOfPrefix(a, b, pos - 1);
    }
  }

  /**
   * The planted text differs from the original exactly when the edit is one, `after` begins
   * where `before` did, on the same line, and swapping the two back gives the original.
   */
  lemma PlantIsOneEdit(text: string, line: int, pos: nat, before: string, after: string)
    requires BeginsOn(text, line, before, pos)
    ensures var planted := Plant(text, pos, before, after);
            && BeginsOn(planted, line, after, pos)
            && Plant(planted, pos, after, before) == text
            && (planted == text <==> before == after)
            && (forall i :: 0 <= i < pos ==> planted[i] == text[i])
            && (forall i :: pos + |before| <= i < |text| ==> planted[i - |before| + |after|] == text[i])
            && |planted| == |text| - |before| + |after|
  {
    var planted := Plant(text, pos, before, after);
    assert planted[..pos] == text[..pos];
    assert planted[pos..pos + |after|] == after;
    assert planted[pos + |after|..] == text[pos + |before|..];
    assert text == text[..pos] + before + text[pos + |before|..];
    LineOfPrefix(text, planted, pos);
    if planted == text {
      assert |before| == |after|;
      assert text[pos..pos + |before|] == before;
    }
  }

  lemma {:induction false} BreaksBetween(text: string, pos: nat, end: nat)
    requires pos <= end <= |text|
    ensures LineAt(text, end) == LineAt(text, pos) + Breaks(text[pos..end])
  {
    if pos < end {
      BreaksBetween(text, pos, end - 1);
      assert text[pos..end][..end - 1 - pos] == text[pos..end - 1];
      assert text[pos..end][end - 1 - pos] == text[end - 1];
    } else {
      assert text[pos..end] == "";
    }
  }

  /** The line breaks in a piece of text. */
  function Breaks(s: string): nat {
    if s == "" then 0 else Breaks(s[..|s| - 1]) + (if s[|s| - 1] == '\n' then 1 else 0)
  }

  /** Every line after the window moves by the same number: the breaks put in less the breaks taken out. */
  lemma PlantMovesLines(text: string, pos: nat, before: string, after: string, i: nat)
    requires OccursAt(text, before, pos) && pos + |before| <= i <= |text|
    ensures LineAt(Plant(text, pos, before, after), i - |before| + |after|)
              == LineAt(text, i) + Breaks(after) - Breaks(before)
  {
    hide LineAt, Breaks, Plant;
    var planted := Plant(text, pos, before, after);
    var end, plantedEnd := pos + |before|, pos + |after|;
    PlantedParts(text, pos, before, after, i);
    LineOfPrefix(text, planted, pos);
    BreaksBetween(text, pos, end);
    BreaksBetween(planted, pos, plantedEnd);
    BreaksBetween(text, end, i);
    BreaksBetween(planted, plantedEnd, i - |before| + |after|);
  }

  lemma PlantedParts(text: string, pos: nat, before: string, after: string, i: nat)
    requires OccursAt(text, before, pos) && pos + |before| <= i <= |text|
    ensures var planted, j := Plant(text, pos, before, after), i - |before| + |after|;
            && pos + |after| <= j <= |planted| && planted[..pos] == text[..pos]
            && planted[pos..pos + |after|] == after
            && planted[pos + |after|..j] == text[pos + |before|..i]
  {
    var planted, j := Plant(text, pos, before, after), i - |before| + |after|;
    assert planted[pos + |after|..] == text[pos + |before|..];
    assert planted[pos + |after|..j] == planted[pos + |after|..][..i - pos - |before|];
    assert text[pos + |before|..i] == text[pos + |before|..][..i - pos - |before|];
  }
}
