/** Mission ids: how the allocator prints them and how it reads the sequence number back. */
module MissionIds {
  import opened Options
  import opened Text

  const MAX_INT := 9223372036854775807
  const MIN_INT := -9223372036854775808

  predicate AllDigits(s: string) {
    forall c <- s :: IsDigit(c)
  }

  /** `\d{8}`. */
  predicate EightDigits(date: string) {
    |date| == 8 && AllDigits(date)
  }

  /** The validator's `numeric`: an optional sign, digits, and digits after an optional point. */
  predicate IsNumeric(s: string) {
    var t := if s != "" && (s[0] == '-' || s[0] == '+') then s[1..] else s;
    var n := DigitsLen(t);
    n > 0 && (n == |t| || (t[n] == '.' && n + 1 < |t| && AllDigits(t[n + 1..])))
  }

  /** What a request may name as its date: `len=8,numeric`. The server's own clock writes eight digits. */
  predicate Receivable(date: string) {
    |date| == 8 && IsNumeric(date)
  }

  lemma EightDigitsAreReceivable(date: string)
    requires EightDigits(date)
    ensures Receivable(date)
  {
    assert !IsDigit('-') && !IsDigit('+') && date[0] in date;
    assert forall i :: 0 <= i < |date| ==> date[i] in date && IsDigit(date[i]);
  }

  function Digits(n: nat): string {
    if n < 10 then [DigitChar(n)] else Digits(n / 10) + [DigitChar(n % 10)]
  }

  function DigitChar(d: nat): char
    requires d < 10
  {
    ('0' as int + d) as char
  }

  /** `%02d`: at least two characters wide, zeros after any sign. */
  function Pad2(n: int): string {
    if n < 0 then "-" + Digits(-n)
    else if n < 10 then "0" + Digits(n)
    else Digits(n)
  }

  function Prefix(date: string): string {
    "mission-" + date + "-"
  }

  function PrintId(date: string, n: int): string {
    Prefix(date) + Pad2(n)
  }

  /** The sequence number an id counts for on a date; ids of any other shape count for none. */
  function SeqOf(id: string, date: string): Option<nat> {
    if EightDigits(date) && Prefix(date) <= id && |id| > |Prefix(date)| then
      var digits := id[|Prefix(date)|..];
      if AllDigits(digits) && DigitsValue(digits) <= MAX_INT then Some(DigitsValue(digits)) else None
    else None
  }

  // ------------------------------------------------------------------
  // Reading undoes printing
  // ------------------------------------------------------------------

  lemma {:induction false} DigitsRoundTrip(n: nat)
    ensures AllDigits(Digits(n)) && Digits(n) != ""
    ensures DigitsValue(Digits(n)) == n
  {
    if n < 10 {
      assert Digits(n)[..0] == "";
    } else {
      DigitsRoundTrip(n / 10);
      assert Digits(n)[..|Digits(n)| - 1] == Digits(n / 10);
    }
  }

  lemma {:induction false} LeadingZero(s: string)
    ensures DigitsValue("0" + s) == DigitsValue(s)
  {
    if s == "" {
      assert "0" + s == "0";
      assert "0"[..0] == "";
    } else {
      assert ("0" + s)[..|s|] == "0" + s[..|s| - 1];
      LeadingZero(s[..|s| - 1]);
    }
  }

  /** The pattern and the number parser undo the printer, at any width. */
  lemma PrintThenParse(date: string, n: nat)
    requires EightDigits(date) && n <= 9223372036854775807
    ensures SeqOf(PrintId(date, n), date) == Some(n)
  {
    DigitsRoundTrip(n);
    LeadingZero(Digits(n));
    assert PrintId(date, n)[|Prefix(date)|..] == Pad2(n);
  }

  lemma {:induction false} NoLeadingZero(n: nat)
    requires n > 0
    ensures Digits(n)[0] != '0'
    ensures n < 10 ==> |Digits(n)| == 1
    ensures n >= 10 ==> |Digits(n)| == |Digits(n / 10)| + 1
  {
    if n >= 10 {
      NoLeadingZero(n / 10);
      assert Digits(n)[0] == Digits(n / 10)[0];
    }
  }

  lemma TwoDigits(n: nat)
    requires 1 <= n <= 99
    ensures Pad2(n) == [('0' as int + n / 10) as char, ('0' as int + n % 10) as char]
  {
    if n < 10 {
      assert Digits(n) == [DigitChar(n)];
    } else {
      assert Digits(n / 10) == [DigitChar(n / 10)];
      assert Digits(n) == [DigitChar(n / 10)] + [DigitChar(n % 10)];
    }
  }

  /**
   * The text of an id: for the first 99 missions of a day two characters behind the date, the
   * tens and the units; from 100 on the decimal number as it is, without a leading zero.
   */
  lemma IdText(date: string, n: nat)
    ensures 1 <= n <= 99 ==>
              PrintId(date, n) == "mission-" + date + "-" + [('0' as int + n / 10) as char, ('0' as int + n % 10) as char]
    ensures n >= 100 ==>
              exists d :: PrintId(date, n) == "mission-" + date + "-" + d
                && |d| >= 3 && AllDigits(d) && d[0] != '0' && DigitsValue(d) == n
  {
    hide Digits;
    if 1 <= n <= 99 {
      TwoDigits(n);
    }
    if n >= 100 {
      DigitsRoundTrip(n);
      NoLeadingZero(n);
      NoLeadingZero(n / 10);
      NoLeadingZero(n / 10 / 10);
      assert PrintId(date, n) == "mission-" + date + "-" + Digits(n);
    }
  }

  /** A wrapped number prints as an id that counts for nothing. */
  lemma WrappedIsInvisible(date: string)
    ensures SeqOf(PrintId(date, MIN_INT), date) == None
  {
    var id := PrintId(date, MIN_INT);
    assert id[|Prefix(date)|..] == Pad2(MIN_INT);
    assert Pad2(MIN_INT)[0] == '-';
    assert '-' in Pad2(MIN_INT);
  }

  // ------------------------------------------------------------------
  // The next number of a day
  // ------------------------------------------------------------------

  /** h is the greatest number any id counts for on the date, or 0. */
  predicate IsHighest(ids: set<string>, date: string, h: nat) {
    && h <= MAX_INT
    && (forall id <- ids :: SeqOf(id, date).Some? ==> SeqOf(id, date).value <= h)
    && (h == 0 || exists id <- ids :: SeqOf(id, date) == Some(h))
  }

  lemma HighestIsUnique(ids: set<string>, date: string, a: nat, b: nat)
    requires IsHighest(ids, date, a) && IsHighest(ids, date, b)
    ensures a == b
  {}

  /** `highest + 1` in the machine's arithmetic. */
  function Successor(h: nat): int {
    if h >= MAX_INT then MIN_INT else h + 1
  }

  function Ids(rows: seq<string>): set<string> {
    set id | id in rows
  }

  /** The scan over a day's rows. */
  method NextSequence(rows: seq<string>, date: string) returns (next: int)
    ensures exists h: nat :: IsHighest(Ids(rows), date, h) && next == Successor(h)
  {
    var highest: nat := 0;
    for i := 0 to |rows|
      invariant IsHighest(Ids(rows[..i]), date, highest)
    {
      assert Ids(rows[..i + 1]) == Ids(rows[..i]) + {rows[i]};
      var n := SeqOf(rows[i], date);
      if n.Some? && n.value > highest {
        highest := n.value;
      }
    }
    assert rows[..|rows|] == rows;
    next := Successor(highest);
  }

  /** The id tried next is not among the ids that were read, whatever other shapes they hold. */
  lemma NextIsFresh(ids: set<string>, date: string, h: nat)
    requires IsHighest(ids, date, h) && EightDigits(date) && h < MAX_INT
    ensures PrintId(date, Successor(h)) !in ids
    ensures SeqOf(PrintId(date, Successor(h)), date) == Some(h + 1)
  {
    PrintThenParse(date, h + 1);
  }

  /** A date of another shape counts no id, so the second mission of such a day can never be allocated. */
  lemma OddDateRepeats(ids: set<string>, date: string, h: nat)
    requires IsHighest(ids, date, h) && !EightDigits(date)
    ensures PrintId(date, Successor(h)) == PrintId(date, 1)
  {}
}
