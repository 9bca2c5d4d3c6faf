/** The Python string operations the scripts rely on, each on one line of text. */
module Text {

  /** The character class `[ \t]`. */
  predicate IsBlank(c: char) {
    c == ' ' || c == '\t'
  }

  /** The characters `str.strip` and `str.split` treat as white space. */
  predicate IsSpace(c: char) {
    var n := c as int;
    || n == 0x20 || 0x09 <= n <= 0x0D || 0x1C <= n <= 0x1F || n == 0x85 || n == 0xA0
    || n == 0x1680 || 0x2000 <= n <= 0x200A || n == 0x2028 || n == 0x2029
    || n == 0x202F || n == 0x205F || n == 0x3000
  }

  predicate IsDigit(c: char) {
    '0' <= c <= '9'
  }

  predicate OneLine(s: string) {
    '\n' !in s
  }

  predicate AllSpace(s: string) {
    forall c <- s :: IsSpace(c)
  }

  /** No white space at either end. */
  predicate Trimmed(s: string) {
    s != "" ==> !IsSpace(s[0]) && !IsSpace(s[|s| - 1])
  }

  predicate AllBlank(s: string) {
    forall c <- s :: IsBlank(c)
  }

  function LStrip(s: string): string {
    if s != "" && IsSpace(s[0]) then LStrip(s[1..]) else s
  }

  function RStrip(s: string): (r: string)
    ensures r <= s
    ensures AllSpace(s[|r|..])
    ensures r != "" ==> !IsSpace(r[|r| - 1])
  {
    if s != "" && IsSpace(s[|s| - 1]) then RStrip(s[..|s| - 1]) else s
  }

  function Strip(s: string): string {
    RStrip(LStrip(s))
  }

  /** The white space `RStrip` removes. */
  function Trail(s: string): (t: string)
    ensures AllSpace(t)
    ensures RStrip(s) + t == s
  {
    s[|RStrip(s)|..]
  }

  function DropBlanks(s: string): string {
    if s != "" && IsBlank(s[0]) then DropBlanks(s[1..]) else s
  }

  function RTrimBlanks(s: string): (r: string)
    ensures r <= s
    ensures AllBlank(s[|r|..])
    ensures r != "" ==> !IsBlank(r[|r| - 1])
  {
    if s != "" && IsBlank(s[|s| - 1]) then RTrimBlanks(s[..|s| - 1]) else s
  }

  function TrimBlanks(s: string): string {
    RTrimBlanks(DropBlanks(s))
  }

  /** The number of leading non-space characters. */
  function WordLen(s: string): (n: nat)
    ensures n <= |s|
    ensures forall i :: 0 <= i < n ==> !IsSpace(s[i])
    ensures s != "" && !IsSpace(s[0]) ==> n > 0
  {
    if s == "" || IsSpace(s[0]) then 0 else 1 + WordLen(s[1..])
  }

  lemma LStripShrinks(s: string)
    ensures |LStrip(s)| <= |s|
    ensures LStrip(s) != "" ==> !IsSpace(LStrip(s)[0])
  {}

  /** `" ".join(s.split())`: every run of white space becomes one space. */
  function Clean(s: string): string
    decreases |s|
  {
    LStripShrinks(s);
    var t := LStrip(s);
    if t == "" then ""
    else
      var n := WordLen(t);
      var rest := Clean(t[n..]);
      if rest == "" then t[..n] else t[..n] + " " + rest
  }

  lemma {:induction false} CleanOneLine(s: string)
    ensures OneLine(Clean(s))
    decreases |s|
  {
    LStripShrinks(s);
    var t := LStrip(s);
    if t != "" {
      var n := WordLen(t);
      CleanOneLine(t[n..]);
      assert forall i :: 0 <= i < n ==> !IsSpace(t[i]);
      assert OneLine(t[..n]);
    }
  }

  function DigitsLen(s: string): (n: nat)
    ensures n <= |s|
    ensures forall i :: 0 <= i < n ==> IsDigit(s[i])
    ensures n < |s| ==> !IsDigit(s[n])
  {
    if s == "" || !IsDigit(s[0]) then 0 else 1 + DigitsLen(s[1..])
  }

  /** The value of a string of decimal digits. */
  function DigitsValue(s: string): nat {
    if s == "" then 0
    else DigitsValue(s[..|s| - 1]) * 10 + (if IsDigit(s[|s| - 1]) then s[|s| - 1] as int - '0' as int else 0)
  }

  /** Whether p occurs in s at offset i. */
  predicate OccursAt(s: string, p: string, i: int) {
    0 <= i <= |s| - |p| && s[i..i + |p|] == p
  }

  /** `s.find(p, start)`: the first offset at or after start where p occurs, or -1. */
  function Find(s: string, p: string, start: nat): (r: int)
    ensures r == -1 || (start <= r && OccursAt(s, p, r))
    ensures forall i :: start <= i && (r < 0 || i < r) ==> !OccursAt(s, p, i)
    decreases |s| - start
  {
    if start + |p| > |s| then -1
    else if OccursAt(s, p, start) then start
    else Find(s, p, start + 1)
  }

  // ------------------------------------------------------------------
  // Trailing white space
  // ------------------------------------------------------------------

  lemma {:induction false} RStripUnique(r: string, t: string)
    requires AllSpace(t)
    requires r != "" ==> !IsSpace(r[|r| - 1])
    ensures RStrip(r + t) == r
    decreases |t|
  {
    if t == "" {
      assert r + t == r;
    } else {
      assert (r + t)[..|r + t| - 1] == r + t[..|t| - 1];
      RStripUnique(r, t[..|t| - 1]);
    }
  }

  lemma {:induction false} RStripAppend(s: string, t: string)
    requires AllSpace(t)
    ensures RStrip(s + t) == RStrip(s)
  {
    var r := RStrip(s);
    assert s + t == r + (s[|r|..] + t);
    RStripUnique(r, s[|r|..] + t);
  }

  lemma {:induction false} RTrimUnique(r: string, t: string)
    requires AllBlank(t)
    requires r != "" ==> !IsBlank(r[|r| - 1])
    ensures RTrimBlanks(r + t) == r
    decreases |t|
  {
    if t == "" {
      assert r + t == r;
    } else {
      assert (r + t)[..|r + t| - 1] == r + t[..|t| - 1];
      RTrimUnique(r, t[..|t| - 1]);
    }
  }

  lemma {:induction false} DropBlanksUnique(b: string, r: string)
    requires AllBlank(b)
    requires r != "" ==> !IsBlank(r[0])
    ensures DropBlanks(b + r) == r
    decreases |b|
  {
    if b == "" {
      assert b + r == r;
    } else {
      assert (b + r)[1..] == b[1..] + r;
      DropBlanksUnique(b[1..], r);
    }
  }

  lemma {:induction false} DropBlanksShape(s: string)
    ensures |DropBlanks(s)| <= |s|
    ensures s[|s| - |DropBlanks(s)|..] == DropBlanks(s)
    ensures AllBlank(s[..|s| - |DropBlanks(s)|])
    ensures DropBlanks(s) != "" ==> !IsBlank(DropBlanks(s)[0])
  {
    if s != "" && IsBlank(s[0]) {
      DropBlanksShape(s[1..]);
      var n := |DropBlanks(s)|;
      assert s[|s| - n..] == s[1..][|s| - 1 - n..];
      assert s[..|s| - n] == [s[0]] + s[1..][..|s| - 1 - n];
    } else {
      assert s[|s| - |s|..] == s;
    }
  }

  /** Leading blanks go first, whatever white space is appended. */
  lemma {:induction false} DropBlanksAppend(s: string, t: string)
    requires !AllBlank(s)
    ensures DropBlanks(s) != ""
    ensures DropBlanks(s + t) == DropBlanks(s) + t
  {
    hide DropBlanks;
    DropBlanksShape(s);
    var d := DropBlanks(s);
    var b := s[..|s| - |d|];
    assert s == b + d;
    assert s + t == b + (d + t);
    DropBlanksUnique(b, d + t);
  }

  lemma {:induction false} AllBlankStrips(s: string)
    ensures AllBlank(s) <==> DropBlanks(s) == ""
  {
    DropBlanksShape(s);
    var d := DropBlanks(s);
    if d != "" {
      assert d[0] == s[|s| - |d|];
    }
    if DropBlanks(s) == "" {
      assert s == s[..|s| - 0];
    }
  }

  lemma {:induction false} LStripAppend(s: string, t: string)
    requires AllSpace(t)
    ensures Strip(s + t) == Strip(s)
    decreases |s|
  {
    if s == "" {
      assert s + t == t;
      LStripAllSpace(t);
    } else if IsSpace(s[0]) {
      assert (s + t)[1..] == s[1..] + t;
      LStripAppend(s[1..], t);
    } else {
      RStripAppend(s, t);
    }
  }

  lemma {:induction false} LStripAllSpace(t: string)
    requires AllSpace(t)
    ensures LStrip(t) == ""
  {
    if t != "" {
      LStripAllSpace(t[1..]);
    }
  }

  /** A character that is not white space survives stripping. */
  lemma {:induction false} StripKeeps(s: string, c: char)
    requires c in s && !IsSpace(c)
    ensures c in Strip(s)
    decreases |s|
  {
    if IsSpace(s[0]) {
      StripKeeps(s[1..], c);
    } else {
      var r := RStrip(s);
      assert s == r + s[|r|..];
    }
  }

  lemma FindFirst(s: string, p: string, start: nat, at: nat)
    requires start <= at && OccursAt(s, p, at)
    requires forall i :: start <= i < at ==> !OccursAt(s, p, i)
    ensures Find(s, p, start) == at
  {
    var r := Find(s, p, start);
    assert r < 0 || r >= at;
    assert !(r < 0 || at < r);
  }
}
