/** What cleaning does to the words of a text and to the white space around them. */
module TextWords {
  import opened Text

  predicate IsWord(w: string) {
    w != "" && forall c <- w :: !IsSpace(c)
  }

  /** The gaps and the words in turn, beginning and ending with a gap. */
  function Weave(gaps: seq<string>, words: seq<string>): string
    requires |gaps| == |words| + 1
  {
    if words == [] then gaps[0] else gaps[0] + words[0] + Weave(gaps[1..], words[1..])
  }

  /** The gaps are white space; only the outer two may be empty. */
  predicate IsText(gaps: seq<string>, words: seq<string>) {
    && |gaps| == |words| + 1
    && (forall i :: 0 <= i < |gaps| ==> AllSpace(gaps[i]))
    && (forall i :: 0 < i < |words| ==> gaps[i] != "")
    && (forall i :: 0 <= i < |words| ==> IsWord(words[i]))
  }

  /** The words with one space between neighbours. */
  function Spaced(words: seq<string>): string {
    if words == [] then ""
    else if |words| == 1 then words[0]
    else words[0] + " " + Spaced(words[1..])
  }

  // ------------------------------------------------------------------
  // Cleaning keeps the words
  // ------------------------------------------------------------------

  lemma {:induction false} LStripGap(gap: string, t: string)
    requires AllSpace(gap) && (t != "" ==> !IsSpace(t[0]))
    ensures LStrip(gap + t) == t
  {
    if gap == "" {
      assert gap + t == t;
    } else {
      assert gap[0] in gap;
      assert (gap + t)[1..] == gap[1..] + t;
      LStripGap(gap[1..], t);
    }
  }

  lemma {:induction false} WordEnds(w: string, t: string)
    requires (forall c <- w :: !IsSpace(c)) && (t != "" ==> IsSpace(t[0]))
    ensures WordLen(w + t) == |w|
  {
    if w == "" {
      assert w + t == t;
    } else {
      assert w[0] in w;
      assert (w + t)[1..] == w[1..] + t;
      WordEnds(w[1..], t);
    }
  }

  lemma RestIsText(gaps: seq<string>, words: seq<string>)
    requires IsText(gaps, words) && words != []
    ensures IsText(gaps[1..], words[1..])
    ensures var rest := Weave(gaps[1..], words[1..]); rest != "" ==> IsSpace(rest[0])
  {
    hide Weave;
    var g, w := gaps[1..], words[1..];
    assert forall i :: 0 <= i < |g| ==> g[i] == gaps[i + 1];
    assert forall i :: 0 <= i < |w| ==> w[i] == words[i + 1];
    WeaveStart(g, w);
    assert g[0] != "" ==> g[0][0] in g[0];
  }

  lemma WeaveStart(gaps: seq<string>, words: seq<string>)
    requires |gaps| == |words| + 1
    ensures gaps[0] <= Weave(gaps, words)
    ensures words == [] ==> Weave(gaps, words) == gaps[0]
  {}

  lemma CleanStep(gap: string, w: string, rest: string)
    requires AllSpace(gap) && IsWord(w) && (rest != "" ==> IsSpace(rest[0]))
    ensures Clean(gap + w + rest) == if Clean(rest) == "" then w else w + " " + Clean(rest)
  {
    hide LStrip, WordLen;
    assert w[0] in w;
    var t := w + rest;
    assert gap + w + rest == gap + t;
    LStripGap(gap, t);
    WordEnds(w, rest);
    assert t[..|w|] == w && t[|w|..] == rest;
  }

  lemma SpacedNotEmpty(words: seq<string>)
    requires words != [] && IsWord(words[0])
    ensures Spaced(words) != ""
  {}

  /** A cleaned text is its words, in order, with one space between neighbours. */
  lemma {:induction false} CleanKeepsWords(gaps: seq<string>, words: seq<string>)
    requires IsText(gaps, words)
    ensures Clean(Weave(gaps, words)) == Spaced(words)
  {
    hide Clean;
    if words == [] {
      NothingLeft(gaps[0]);
    } else {
      var rest := Weave(gaps[1..], words[1..]);
      RestIsText(gaps, words);
      CleanKeepsWords(gaps[1..], words[1..]);
      CleanStep(gaps[0], words[0], rest);
      if |words| > 1 {
        assert words[1..][0] == words[1];
        SpacedNotEmpty(words[1..]);
      }
    }
  }

  lemma NothingLeft(gap: string)
    requires AllSpace(gap)
    ensures Clean(gap) == ""
  {
    LStripAllSpace(gap);
  }

  // ------------------------------------------------------------------
  // Every text has words
  // ------------------------------------------------------------------

  ghost predicate HasWords(s: string, words: seq<string>) {
    exists gaps: seq<string> :: IsText(gaps, words) && Weave(gaps, words) == s
  }

  lemma {:induction false} LStripCut(s: string)
    ensures |LStrip(s)| <= |s|
    ensures s[|s| - |LStrip(s)|..] == LStrip(s)
    ensures AllSpace(s[..|s| - |LStrip(s)|])
    ensures LStrip(s) != "" ==> !IsSpace(LStrip(s)[0])
  {
    if s != "" && IsSpace(s[0]) {
      LStripCut(s[1..]);
      var n := |LStrip(s)|;
      assert s[|s| - n..] == s[1..][|s| - 1 - n..];
      assert s[..|s| - n] == [s[0]] + s[1..][..|s| - 1 - n];
    } else {
      assert s[|s| - |s|..] == s;
    }
  }

  lemma WordLenIs(s: string)
    ensures WordLen(s) < |s| ==> IsSpace(s[WordLen(s)])
  {}

  lemma TextOneMore(gap: string, w: string, gaps: seq<string>, words: seq<string>)
    requires AllSpace(gap) && IsWord(w) && IsText(gaps, words)
    requires words != [] ==> gaps[0] != ""
    ensures IsText([gap] + gaps, [w] + words)
    ensures Weave([gap] + gaps, [w] + words) == gap + w + Weave(gaps, words)
  {
    var g, ws := [gap] + gaps, [w] + words;
    assert g[1..] == gaps && ws[1..] == words;
    assert forall i :: 0 < i < |g| ==> g[i] == gaps[i - 1];
    assert forall i :: 0 < i < |ws| ==> ws[i] == words[i - 1];
  }

  /** Every text is white space and words in turn, and cleaning it leaves those words. */
  lemma {:induction false} EveryTextHasWords(s: string) returns (gaps: seq<string>, words: seq<string>)
    ensures IsText(gaps, words) && Weave(gaps, words) == s
    ensures Clean(s) == Spaced(words)
    decreases |s|
  {
    hide LStrip, WordLen, Clean, IsText, Weave, Spaced;
    LStripCut(s);
    var t := LStrip(s);
    var gap := s[..|s| - |t|];
    assert s == gap + t;
    if t == "" {
      OnlyGap(s);
      gaps, words := [s], [];
    } else {
      var n := WordLen(t);
      FirstWord(t, n);
      var g, ws := EveryTextHasWords(t[n..]);
      FirstGap(t[n..], g, ws);
      TextOneMore(gap, t[..n], g, ws);
      assert gap + t[..n] + t[n..] == s;
      gaps, words := [gap] + g, [t[..n]] + ws;
    }
    CleanKeepsWords(gaps, words);
  }

  lemma OnlyGap(s: string)
    requires AllSpace(s)
    ensures IsText([s], []) && Weave([s], []) == s
  {}

  lemma FirstWord(t: string, n: nat)
    requires t != "" && !IsSpace(t[0]) && n == WordLen(t)
    ensures 0 < n && IsWord(t[..n]) && (t[n..] != "" ==> IsSpace(t[n..][0]))
  {
    hide WordLen;
    WordLenPositive(t);
    WordLenIs(t);
    assert forall c <- t[..n] :: !IsSpace(c);
  }

  lemma WordLenPositive(t: string)
    requires t != "" && !IsSpace(t[0])
    ensures WordLen(t) > 0
  {}

  lemma FirstGap(s: string, gaps: seq<string>, words: seq<string>)
    requires IsText(gaps, words) && Weave(gaps, words) == s && (s != "" ==> IsSpace(s[0]))
    ensures words != [] ==> gaps[0] != ""
  {}

  // ------------------------------------------------------------------
  // The ends of a cleaned text
  // ------------------------------------------------------------------

  lemma {:induction false} SpacedTrimmed(words: seq<string>)
    requires forall i :: 0 <= i < |words| ==> IsWord(words[i])
    ensures Trimmed(Spaced(words))
    ensures words != [] ==> Spaced(words) != ""
  {
    if words != [] {
      assert words[0][0] in words[0] && words[0][|words[0]| - 1] in words[0];
      SpacedTrimmed(words[1..]);
      if |words| > 1 {
        assert words[1..][0] == words[1];
      }
    }
  }

  lemma CleanTrimmed(s: string)
    ensures Trimmed(Clean(s))
  {
    hide Clean, Weave, Spaced;
    var _, words := EveryTextHasWords(s);
    SpacedTrimmed(words);
  }

  /** White space at the ends of a text makes no difference. */
  lemma {:induction false} CleanStrip(s: string)
    ensures Clean(Strip(s)) == Clean(s)
  {
    hide Clean, LStrip, RStrip, Weave;
    LStripCut(s);
    var t := LStrip(s);
    CleanBehind(RStrip(t), Trail(t));
    CleanAhead(s);
  }

  lemma CleanAhead(s: string)
    ensures Clean(LStrip(s)) == Clean(s)
  {
    hide WordLen;
    LStripCut(s);
    var t := LStrip(s);
    assert LStrip(t) == t;
  }

  lemma {:induction false} CleanBehind(r: string, t: string)
    requires AllSpace(t)
    ensures Clean(r + t) == Clean(r)
  {
    hide Clean, Weave, Spaced;
    var gaps, words := EveryTextHasWords(r);
    var n := |words|;
    WeaveBehind(gaps, words, t);
    var more := gaps[n := gaps[n] + t];
    assert AllSpace(gaps[n] + t);
    assert IsText(more, words);
    CleanKeepsWords(more, words);
  }

  lemma {:induction false} WeaveBehind(gaps: seq<string>, words: seq<string>, t: string)
    requires |gaps| == |words| + 1
    ensures Weave(gaps[|words| := gaps[|words|] + t], words) == Weave(gaps, words) + t
  {
    if words != [] {
      WeaveBehind(gaps[1..], words[1..], t);
      var n := |words|;
      assert gaps[n := gaps[n] + t][1..] == gaps[1..][n - 1 := gaps[1..][n - 1] + t];
    }
  }
}
