/** Reading an entry's suggestion, and with its heading the natural key that joins it to a row of the service. */
module FindingsFields {
  import opened Options
  import opened Text
  import opened ReconcileText
  import opened FindingsBlocks

  const MARKER := "**Suggestion**:"
  const OTHER_MARKER := "**Suggestion:**"
  const MAX_SUGGESTION := 2000

  /** The heading line and the shortened suggestion; the date and the target are read off the heading. */
  datatype Key = Key(heading: string, suggestion: string)

  /** The lines without the empty ones at the end. */
  function Body(lines: seq<string>): (r: seq<string>)
    ensures r <= lines
    ensures forall i :: |r| <= i < |lines| ==> lines[i] == ""
    ensures r != [] ==> r[|r| - 1] != ""
  {
    if lines != [] && lines[|lines| - 1] == "" then Body(lines[..|lines| - 1]) else lines
  }

  /** Where the first suggestion marker of a line starts, in either spelling. */
  predicate MarkedAt(line: string, i: int) {
    OccursAt(line, MARKER, i) || OccursAt(line, OTHER_MARKER, i)
  }

  predicate HasMarker(line: string) {
    exists i :: 0 <= i < |line| && MarkedAt(line, i)
  }

  function MarkerFrom(line: string, i: nat): (r: nat)
    requires exists j :: i <= j < |line| && MarkedAt(line, j)
    ensures i <= r < |line| && MarkedAt(line, r)
    ensures forall j :: i <= j < r ==> !MarkedAt(line, j)
    decreases |line| - i
  {
    if MarkedAt(line, i) then i else MarkerFrom(line, i + 1)
  }

  /** The text after the first marker. */
  function AfterMarker(line: string): string
    requires HasMarker(line)
  {
    line[MarkerFrom(line, 0) + |MARKER|..]
  }

  function LettersLen(s: string): (n: nat)
    ensures n <= |s|
    ensures forall i :: 0 <= i < n ==> IsLetter(s[i])
    ensures n < |s| ==> !IsLetter(s[n])
  {
    if s == "" || !IsLetter(s[0]) then 0 else 1 + LettersLen(s[1..])
  }

  predicate IsLetter(c: char) {
    'A' <= c <= 'Z' || 'a' <= c <= 'z' || c == ' '
  }

  /** A line that starts a field, and so ends the one before it. */
  predicate IsField(line: string) {
    && "**" <= line && |line| > 2 && 'A' <= line[2] <= 'Z'
    && var rest := line[3 + LettersLen(line[3..])..]; "**:" <= rest || ":**" <= rest
  }

  /** The lines before the first that starts a field. */
  function UpToField(lines: seq<string>): (r: seq<string>)
    ensures r <= lines
    ensures forall l <- r :: !IsField(l)
    ensures |r| < |lines| ==> IsField(lines[|r|])
  {
    if lines == [] || IsField(lines[0]) then [] else [lines[0]] + UpToField(lines[1..])
  }

  /**
   * A field's value: white space is skipped first, newlines included, so a field with nothing
   * after it takes the next line that has something, whatever that line is.
   */
  function ValueLines(rest: string, more: seq<string>): (r: seq<string>)
    ensures r != []
    decreases |more|
  {
    if LStrip(rest) != "" then [LStrip(rest)] + UpToField(more)
    else if more == [] then [""]
    else ValueLines(more[0], more[1..])
  }

  /** The lines joined with newlines. */
  function Join(lines: seq<string>): string {
    if lines == [] then ""
    else if |lines| == 1 then lines[0]
    else Join(lines[..|lines| - 1]) + "\n" + lines[|lines| - 1]
  }

  /** The first line with a marker. */
  function MarkedLine(lines: seq<string>): (r: Option<nat>)
    ensures r.Some? ==> r.value < |lines| && HasMarker(lines[r.value]) && forall i :: 0 <= i < r.value ==> !HasMarker(lines[i])
    ensures r.None? ==> forall i :: 0 <= i < |lines| ==> !HasMarker(lines[i])
  {
    if lines == [] then None
    else
      var front := MarkedLine(lines[..|lines| - 1]);
      if front.Some? then front
      else if HasMarker(lines[|lines| - 1]) then Some(|lines| - 1)
      else None
  }

  /** `entry_field(entry, "Suggestion")`. */
  function Suggestion(entry: seq<string>): string {
    match MarkedLine(entry)
    case None => ""
    case Some(m) => CleanValue(Join(ValueLines(AfterMarker(entry[m]), entry[m + 1..])))
  }

  /** An entry without a suggestion has no key. */
  function BlockKey(b: Block): Option<Key> {
    var s := Suggestion(Body(b));
    if b == [] || s == "" then None else Some(Key(b[0], Truncate(s, MAX_SUGGESTION)))
  }
}
