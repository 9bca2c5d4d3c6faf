/** The lines of a suggestion as they are read: joined, stripped and cleaned. */
module FindingsLines {
  import opened Text
  import opened ReconcileText
  import opened FindingsFields

  predicate AllOneLine(lines: seq<string>) {
    forall l <- lines :: OneLine(l)
  }

  /** The lines without the white space behind them: blank lines at the end go, and the last is stripped. */
  function TrimEnd(lines: seq<string>): seq<string> {
    if lines == [] then []
    else
      var front, last := lines[..|lines| - 1], RStrip(lines[|lines| - 1]);
      if last == "" then TrimEnd(front) else front + [last]
  }

  function Unescaped(lines: seq<string>): seq<string> {
    seq(|lines|, i requires 0 <= i < |lines| => UnescapePipes(lines[i]))
  }

  /** What reading keeps of each line. */
  function CleanLines(lines: seq<string>): seq<string> {
    Unescaped(TrimEnd(lines))
  }

  predicate StartsVisibly(lines: seq<string>) {
    lines != [] && lines[0] != "" && !IsSpace(lines[0][0])
  }

  /** Two readings say the same: line by line after cleaning, when the lines hold no line breaks of their own. */
  predicate SameCleaned(a: seq<string>, b: seq<string>) {
    if AllOneLine(a) && AllOneLine(b) then CleanLines(a) == CleanLines(b) else CleanValue(Join(a)) == CleanValue(Join(b))
  }

  // ------------------------------------------------------------------
  // Cleaning the text cleans the lines
  // ------------------------------------------------------------------

  lemma JoinTwo(lines: seq<string>, line: string)
    requires lines != []
    ensures Join(lines + [line]) == Join(lines) + ("\n" + line)
  {
    assert (lines + [line])[..|lines|] == lines;
    assert Join(lines) + "\n" + line == Join(lines) + ("\n" + line);
  }

  lemma JoinOne(line: string)
    ensures Join([line]) == line
  {}

  lemma StripBehindBreak(a: string, line: string)
    ensures RStrip(line) == "" ==> RStrip(a + ("\n" + line)) == RStrip(a)
    ensures RStrip(line) != "" ==> RStrip(a + ("\n" + line)) == a + ("\n" + RStrip(line))
  {
    hide RStrip;
    var r := RStrip(line);
    assert line == r + Trail(line);
    if r == "" {
      RStripAppend(a, "\n" + line);
    } else {
      assert a + ("\n" + line) == (a + ("\n" + r)) + Trail(line);
      RStripUnique(a + ("\n" + r), Trail(line));
    }
  }

  lemma {:induction false} StripIsTrimEnd(lines: seq<string>)
    requires StartsVisibly(lines)
    ensures RStrip(Join(lines)) == Join(TrimEnd(lines)) && TrimEnd(lines) != []
  {
    hide RStrip, Join;
    var front, last := lines[..|lines| - 1], lines[|lines| - 1];
    assert lines == front + [last];
    if front == [] {
      JoinOne(last);
      VisibleStays(last);
      JoinOne(RStrip(last));
      assert front + [RStrip(last)] == [RStrip(last)] && front + [last] == [last];
    } else {
      JoinTwo(front, last);
      StripBehindBreak(Join(front), last);
      if RStrip(last) == "" {
        StripIsTrimEnd(front);
      } else {
        JoinTwo(front, RStrip(last));
      }
    }
  }

  lemma VisibleStays(s: string)
    requires s != "" && !IsSpace(s[0])
    ensures RStrip(s) != ""
  {
    assert s == s[..1] + s[1..];
    RStripAtLeast(s[..1], s[1..]);
  }

  lemma UnescapeOne(a: string, b: string)
    requires |a| == 1 && (b != "" ==> b[0] != '|')
    ensures UnescapePipes(a + b) == a + UnescapePipes(b)
  {
    assert (a + b)[1..] == b;
  }

  lemma {:induction false} UnescapeConcat(a: string, b: string)
    requires b != "" ==> b[0] != '|'
    ensures UnescapePipes(a + b) == UnescapePipes(a) + UnescapePipes(b)
    decreases |a|
  {
    if a == "" {
      assert a + b == b;
    } else if |a| == 1 {
      UnescapeOne(a, b);
    } else if a[0] == '\\' && a[1] == '|' {
      assert (a + b)[2..] == a[2..] + b;
      UnescapeConcat(a[2..], b);
    } else {
      assert (a + b)[1..] == a[1..] + b;
      UnescapeConcat(a[1..], b);
    }
  }

  lemma UnescapeBreak(line: string)
    ensures UnescapePipes("\n" + line) == "\n" + UnescapePipes(line)
  {
    assert ("\n" + line)[1..] == line;
    assert line == "" ==> "\n" + line == "\n";
  }

  lemma {:induction false} UnescapeJoin(lines: seq<string>)
    requires lines != []
    ensures UnescapePipes(Join(lines)) == Join(Unescaped(lines))
  {
    hide UnescapePipes, Join;
    var front, last := lines[..|lines| - 1], lines[|lines| - 1];
    assert lines == front + [last];
    assert Unescaped(lines) == Unescaped(front) + [UnescapePipes(last)];
    if front == [] {
      JoinOne(last);
      JoinOne(UnescapePipes(last));
      assert front + [last] == [last] && Unescaped(front) + [UnescapePipes(last)] == [UnescapePipes(last)];
    } else {
      UnescapeJoin(front);
      JoinTwo(front, last);
      JoinTwo(Unescaped(front), UnescapePipes(last));
      UnescapeConcat(Join(front), "\n" + last);
      UnescapeBreak(last);
    }
  }

  lemma {:induction false} JoinStarts(lines: seq<string>)
    requires lines != [] && lines[0] != ""
    ensures Join(lines) != "" && Join(lines)[0] == lines[0][0]
  {
    if |lines| > 1 {
      JoinStarts(lines[..|lines| - 1]);
    }
  }

  lemma StripFront(s: string)
    requires s != "" && !IsSpace(s[0])
    ensures Strip(s) == RStrip(s)
  {}

  /** The text that is cleaned, before placeholders are taken out, is the cleaned lines joined. */
  lemma CleanIsCleanLines(lines: seq<string>)
    requires StartsVisibly(lines)
    ensures UnescapePipes(Strip(Join(lines))) == Join(CleanLines(lines)) && CleanLines(lines) != []
  {
    hide UnescapePipes, Join, Strip, RStrip, TrimEnd;
    JoinStarts(lines);
    StripFront(Join(lines));
    StripIsTrimEnd(lines);
    UnescapeJoin(TrimEnd(lines));
  }

  // ------------------------------------------------------------------
  // Lines can be read off their text
  // ------------------------------------------------------------------

  lemma NoBreakBehind(a: string, x: string)
    requires OneLine(x)
    ensures var s := a + ("\n" + x); s[|a|] == '\n' && forall i :: |a| < i < |s| ==> s[i] != '\n'
  {
    var s := a + ("\n" + x);
    forall i | |a| < i < |s|
      ensures s[i] != '\n'
    {
      assert s[i] == x[i - |a| - 1] && x[i - |a| - 1] in x;
    }
  }

  /** Where the last line of a text begins is determined. */
  lemma LastBreak(a: string, x: string, b: string, y: string)
    requires OneLine(x) && OneLine(y) && a + ("\n" + x) == b + ("\n" + y)
    ensures a == b && x == y
  {
    hide OneLine;
    NoBreakBehind(a, x);
    NoBreakBehind(b, y);
    assert |a| == |b|;
    var s := a + ("\n" + x);
    assert a == s[..|a|] && b == s[..|a|];
    assert x == s[|a| + 1..] && y == s[|a| + 1..];
  }

  lemma {:induction false} JoinHasBreak(lines: seq<string>)
    requires |lines| > 1
    ensures '\n' in Join(lines)
  {}

  lemma {:induction false} JoinInjective(a: seq<string>, b: seq<string>)
    requires a != [] && b != [] && AllOneLine(a) && AllOneLine(b)
    ensures Join(a) == Join(b) <==> a == b
  {
    hide OneLine, Join;
    var fa, la := a[..|a| - 1], a[|a| - 1];
    var fb, lb := b[..|b| - 1], b[|b| - 1];
    assert a == fa + [la] && b == fb + [lb];
    if fa == [] || fb == [] {
      OneOrMore(a);
      OneOrMore(b);
    } else if Join(a) == Join(b) {
      JoinTwo(fa, la);
      JoinTwo(fb, lb);
      LastBreak(Join(fa), la, Join(fb), lb);
      JoinInjective(fa, fb);
    }
  }

  lemma OneOrMore(lines: seq<string>)
    requires lines != [] && AllOneLine(lines)
    ensures if |lines| == 1 then Join(lines) == lines[0] && '\n' !in Join(lines) else '\n' in Join(lines)
  {
    if |lines| == 1 {
      assert lines[0] in lines;
    } else {
      JoinHasBreak(lines);
    }
  }

  lemma {:induction false} UnescapeOneLine(s: string)
    requires OneLine(s)
    ensures OneLine(UnescapePipes(s))
  {
    if |s| >= 2 {
      if s[0] == '\\' && s[1] == '|' {
        UnescapeOneLine(s[2..]);
      } else {
        UnescapeOneLine(s[1..]);
      }
    }
  }

  lemma {:induction false} TrimEndOneLine(lines: seq<string>)
    requires AllOneLine(lines)
    ensures AllOneLine(TrimEnd(lines))
  {
    hide RStrip;
    if lines != [] {
      var front, last := lines[..|lines| - 1], lines[|lines| - 1];
      assert last in lines && forall l <- front :: l in lines;
      assert RStrip(last) <= last;
      TrimEndOneLine(front);
    }
  }

  lemma CleanLinesOneLine(lines: seq<string>)
    requires AllOneLine(lines)
    ensures AllOneLine(CleanLines(lines))
  {
    hide UnescapePipes, OneLine, TrimEnd;
    TrimEndOneLine(lines);
    var t := TrimEnd(lines);
    forall i | 0 <= i < |t|
      ensures OneLine(UnescapePipes(t[i]))
    {
      assert t[i] in t;
      UnescapeOneLine(t[i]);
    }
  }

  /** Two readings, the first not empty, are the same text exactly when they say the same. */
  lemma SameTextIff(a: seq<string>, b: seq<string>)
    requires StartsVisibly(a) && StartsVisibly(b) && CleanValue(Join(a)) != ""
    ensures CleanValue(Join(a)) == CleanValue(Join(b)) <==> SameCleaned(a, b)
  {
    hide CleanLines, Join, UnescapePipes, Strip, OneLine, AllOneLine;
    if AllOneLine(a) && AllOneLine(b) {
      CleanIsCleanLines(a);
      CleanIsCleanLines(b);
      CleanLinesOneLine(a);
      CleanLinesOneLine(b);
      JoinInjective(CleanLines(a), CleanLines(b));
    }
  }
}
