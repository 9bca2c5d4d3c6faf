/** The lines of DIRECTIVES.md: how each is recognised and how the exporter renders them. */
module DirectiveLines {
  import opened Options
  import opened Text

  /** The text fields of a directive proposal, as the service sent them. */
  datatype Proposal = Proposal(
    title: string, appliesWhen: string, rule: string, rationale: string,
    reviewerCheck: string, example: string, decidedAt: string)

  const SERVICE_SOURCE := "bishop-memory triage"
  const EXAMPLE_PREFIX := "Illustrative — "
  const STATUS := "- **Status:**"
  const ADDED := "- **Added:**"
  const SOURCE := "**Source:**"
  const RETIRED_HEADING := "## Retired Entries"
  const INDEX_TITLES := "| ID |" + " Title | Applies when (short) | Status |"
  const RETIRED_TITLES := "| ID |" + " Title (as ratified) | Status | Successor |"
  const MAX_ENTRY_CHARS := 1510

  // ------------------------------------------------------------------
  // Directive ids
  // ------------------------------------------------------------------

  /** The length of the `DIR-\d+` that s begins with, or 0. */
  function IdLen(s: string): (n: nat)
    ensures n <= |s|
  {
    if "DIR-" <= s && DigitsLen(s[4..]) > 0 then 4 + DigitsLen(s[4..]) else 0
  }

  predicate ValidId(did: string) {
    did != "" && IdLen(did) == |did|
  }

  /** `int(did[4:])`. */
  function Number(did: string): nat {
    if |did| >= 4 then DigitsValue(did[4..]) else 0
  }

  // ------------------------------------------------------------------
  // Recognising lines
  // ------------------------------------------------------------------

  /** A line that ends an entry: a heading of level one to three. */
  predicate IsSection(line: string) {
    "# " <= line || "## " <= line || "### " <= line
  }

  /** The id of a `### DIR-n — ` heading. */
  function DirId(line: string): (r: Option<string>)
    ensures r.Some? ==> ValidId(r.value)
  {
    if "### " <= line && IdLen(line[4..]) > 0 && " — " <= line[4 + IdLen(line[4..])..] then
      IdLenOfPrefix(line[4..]);
      Some(line[4..][..IdLen(line[4..])])
    else None
  }

  function HeadingTitle(line: string): string {
    if DirId(line).Some? then Strip(line[4 + IdLen(line[4..]) + 3..]) else ""
  }

  predicate IsRetired(line: string) {
    RETIRED_HEADING <= line
  }

  predicate IsRow(line: string) {
    line != "" && line[0] == '|'
  }

  /** The id in the first cell of a table row. */
  function RowId(line: string): Option<string> {
    if !IsRow(line) then None
    else
      var r := LStrip(line[1..]);
      var n := IdLen(r);
      var rest := LStrip(r[n..]);
      if n > 0 && rest != "" && rest[0] == '|' then Some(r[..n]) else None
  }

  /** A line made of `|`, then characters of `allowed`, then `|`. */
  predicate IsRule(line: string, allowed: string) {
    |line| >= 3 && line[0] == '|' && line[|line| - 1] == '|' && forall c <- line :: c in allowed
  }

  predicate IsIndexHeader(titles: string, rule: string) {
    titles == INDEX_TITLES && IsRule(rule, "-| ")
  }

  predicate IsRetiredHeader(titles: string, rule: string) {
    RTrimBlanks(titles) == RETIRED_TITLES && IsRule(RTrimBlanks(rule), "-| :")
  }

  predicate IsBullet(line: string) {
    || "- **Applies when:**" <= line
    || STATUS <= line
    || "- **Rule:**" <= line
    || "- **Rationale:**" <= line
    || "- **Reviewer check:**" <= line
    || "- **Example:**" <= line
    || ADDED <= line
  }

  predicate IsBlankLine(line: string) {
    RStrip(line) == ""
  }

  datatype StatusLine = StatusLine(pre: string, value: string, post: string)

  function StatusOf(line: string): Option<StatusLine> {
    if STATUS <= line then
      var v := DropBlanks(line[|STATUS|..]);
      var n := WordLen(v);
      DropBlanksShape(line[|STATUS|..]);
      if n > 0 && AllBlank(v[n..]) then Some(StatusLine(line[..|line| - |v|], v[..n], v[n..])) else None
    else None
  }

  function AddedOf(line: string): Option<string> {
    if ADDED <= line then Some(TrimBlanks(line[|ADDED|..])) else None
  }

  // ------------------------------------------------------------------
  // Reading an entry
  // ------------------------------------------------------------------

  /** The body of the first Added bullet. */
  function FirstAdded(body: seq<string>): Option<string> {
    if body == [] then None
    else if AddedOf(body[0]).Some? then AddedOf(body[0])
    else FirstAdded(body[1..])
  }

  /** The value of the first Status line. */
  function FirstStatus(body: seq<string>): Option<string> {
    if body == [] then None
    else if StatusOf(body[0]).Some? then Some(StatusOf(body[0]).value.value)
    else FirstStatus(body[1..])
  }

  /** A field separator: blanks, a middle dot, blanks. */
  predicate SepAt(r: string) {
    var d := DropBlanks(r);
    r != "" && IsBlank(r[0]) && |d| > 1 && d[0] == '·' && IsBlank(d[1])
  }

  /** The text up to the first separator or the trailing blanks. */
  function Token(r: string): (t: string)
    ensures t <= r
  {
    if AllBlank(r) || SepAt(r) then "" else [r[0]] + Token(r[1..])
  }

  /** Whether the Source token of an Added body names the service. */
  predicate OwnedAdded(added: string) {
    var at := Find(added, SOURCE, 0);
    at >= 0 && Strip(Token(DropBlanks(added[at + |SOURCE|..]))) == SERVICE_SOURCE
  }

  predicate IsServiceOwned(body: seq<string>) {
    FirstAdded(body).Some? && OwnedAdded(FirstAdded(body).value)
  }

  // ------------------------------------------------------------------
  // Rendering
  // ------------------------------------------------------------------

  function EscapePipes(s: string, escaped: bool): string {
    if s == "" then ""
    else (if s[0] == '|' && !escaped then "\\|" else [s[0]]) + EscapePipes(s[1..], s[0] == '\\')
  }

  function Cell(value: string): string {
    EscapePipes(Clean(value), false)
  }

  function ExampleLines(p: Proposal): seq<string> {
    var example := Clean(p.example);
    if example == "" then []
    else ["- **Example:** " + (if EXAMPLE_PREFIX <= example then example else EXAMPLE_PREFIX + example)]
  }

  /** The entry's lines; `added` is everything after "- **Added:** ". */
  function RenderEntry(did: string, p: Proposal, added: string): seq<string> {
    [ "### " + did + " — " + Clean(p.title),
      "- **Applies when:** " + Clean(p.appliesWhen),
      "- **Status:** active",
      "- **Rule:** " + Clean(p.rule),
      "- **Rationale:** " + Clean(p.rationale),
      "- **Reviewer check:** " + Clean(p.reviewerCheck) ]
    + ExampleLines(p)
    + [ADDED + " " + added]
  }

  function TextLength(lines: seq<string>): nat {
    if lines == [] then 0 else |lines[0]| + 1 + TextLength(lines[1..])
  }

  function NewAddedLine(date: string, evidence: string): string {
    date + " · " + SOURCE + " " + SERVICE_SOURCE + " · **Evidence:** " + evidence
  }

  function DateOf(p: Proposal, today: string): string {
    var date := if |p.decidedAt| > 10 then p.decidedAt[..10] else p.decidedAt;
    if date == "" then today else date
  }

  function RenderIndexRow(did: string, p: Proposal): string {
    var applies := Clean(p.appliesWhen);
    var short := if |applies| > 60 then applies[..57] + "..." else applies;
    "| " + did + " | " + (Cell(p.title) + " | " + Cell(short) + " | active |")
  }

  function RenderRetiredRow(did: string, title: string): string {
    "| " + did + " | " + (Cell(title) + " | deprecated | — |")
  }

  // ------------------------------------------------------------------
  // Editing an entry
  // ------------------------------------------------------------------

  /** Equal up to white space at line ends and blank lines at the end. */
  predicate SameLines(a: seq<string>, b: seq<string>) {
    RStripLines(a) == RStripLines(b)
  }

  function RStripLines(lines: seq<string>): seq<string> {
    if lines != [] && IsBlankLine(lines[|lines| - 1]) then RStripLines(lines[..|lines| - 1])
    else seq(|lines|, i requires 0 <= i < |lines| => RStrip(lines[i]))
  }

  /** The number of lines up to and including the last one that is not blank. */
  function ContentLen(lines: seq<string>): (n: nat)
    ensures n <= |lines|
    ensures forall i :: n <= i < |lines| ==> IsBlankLine(lines[i])
    ensures n > 0 ==> !IsBlankLine(lines[n - 1])
  {
    if lines != [] && IsBlankLine(lines[|lines| - 1]) then ContentLen(lines[..|lines| - 1]) else |lines|
  }

  /** The rendered entry followed by the old body's trailing white space. */
  function ReplaceBody(body: seq<string>, entry: seq<string>): seq<string>
    requires entry != []
  {
    var n := ContentLen(body);
    if n == 0 then entry + body
    else entry[..|entry| - 1] + [entry[|entry| - 1] + Trail(body[n - 1])] + body[n..]
  }

  /** Set the first Status line to deprecated; every other character is kept. */
  function RetireBody(body: seq<string>): (r: seq<string>)
    ensures |r| == |body|
  {
    if body == [] then []
    else if StatusOf(body[0]).Some? then
      var s := StatusOf(body[0]).value;
      [s.pre + "deprecated" + s.post] + body[1..]
    else [body[0]] + RetireBody(body[1..])
  }

  // ------------------------------------------------------------------
  // Facts about ids and line shapes
  // ------------------------------------------------------------------

  lemma IdLenOfPrefix(s: string)
    requires IdLen(s) > 0
    ensures ValidId(s[..IdLen(s)])
  {
    var n := IdLen(s);
    DigitsLenCut(s[4..]);
    assert s[..n][4..] == s[4..][..DigitsLen(s[4..])];
  }

  lemma {:induction false} DigitsLenCut(s: string)
    ensures DigitsLen(s[..DigitsLen(s)]) == DigitsLen(s)
  {
    if s != "" && IsDigit(s[0]) {
      DigitsLenCut(s[1..]);
      assert s[..DigitsLen(s)][1..] == s[1..][..DigitsLen(s[1..])];
    }
  }

  lemma {:induction false} DigitsLenAppend(s: string, t: string)
    requires DigitsLen(s) == |s|
    requires t == "" || !IsDigit(t[0])
    ensures DigitsLen(s + t) == |s|
  {
    if s == "" {
      assert s + t == t;
    } else {
      assert (s + t)[1..] == s[1..] + t;
      DigitsLenAppend(s[1..], t);
    }
  }

  lemma IdLenAppend(did: string, t: string)
    requires ValidId(did)
    requires t == "" || !IsDigit(t[0])
    ensures IdLen(did + t) == |did|
  {
    assert (did + t)[4..] == did[4..] + t;
    DigitsLenAppend(did[4..], t);
  }

  /** A rendered heading carries its id. */
  lemma HeadingId(did: string, title: string)
    requires ValidId(did)
    ensures DirId("### " + did + " — " + title) == Some(did)
    ensures IsSection("### " + did + " — " + title)
  {
    var line := "### " + did + " — " + title;
    IdLenAppend(did, " — " + title);
    assert line[4..] == did + (" — " + title);
    assert line[4 + |did|..] == " — " + title;
  }

  /** A rendered row carries its id in the first cell. */
  lemma RowCarriesId(did: string, rest: string)
    requires ValidId(did)
    ensures RowId("| " + did + " | " + rest) == Some(did)
  {
    var line := "| " + did + " | " + rest;
    assert line[1..][1..] == did + (" | " + rest);
    IdLenAppend(did, " | " + rest);
    assert did[0] == 'D';
    assert LStrip(line[1..]) == line[1..][1..];
    assert (did + (" | " + rest))[|did|..] == " | " + rest;
    assert (" | " + rest)[1..] == "| " + rest;
    assert LStrip(" | " + rest) == "| " + rest;
  }

  lemma RenderedRows(did: string, p: Proposal, title: string)
    requires ValidId(did)
    ensures RowId(RenderIndexRow(did, p)) == Some(did)
    ensures RowId(RenderRetiredRow(did, title)) == Some(did)
  {
    var applies := Clean(p.appliesWhen);
    var short := if |applies| > 60 then applies[..57] + "..." else applies;
    RowCarriesId(did, Cell(p.title) + " | " + Cell(short) + " | active |");
    RowCarriesId(did, Cell(title) + " | deprecated | — |");
  }

  lemma NotBlank(line: string, i: nat)
    requires i < |line| && !IsSpace(line[i])
    ensures !IsBlankLine(line)
  {
    assert line == RStrip(line) + Trail(line);
  }

  /** A template bullet is none of the lines that structure the document. */
  lemma BulletIsPlain(line: string)
    requires IsBullet(line)
    ensures !IsSection(line) && DirId(line).None? && !IsRetired(line) && !IsRow(line) && !IsBlankLine(line)
  {
    assert line[0] == '-';
    NotBlank(line, 0);
  }

  lemma DirIdIsSection(line: string)
    ensures DirId(line).Some? ==> IsSection(line) && !IsRow(line) && !IsBlankLine(line) && !IsRetired(line)
    ensures IsRetired(line) ==> IsSection(line) && !IsRow(line)
    ensures IsRow(line) ==> !IsSection(line)
    ensures line == "" ==> !IsSection(line) && !IsRow(line) && IsBlankLine(line)
  {
    if DirId(line).Some? {
      assert line[0] == '#' && line[2] == '#';
      NotBlank(line, 0);
    }
  }

  // ------------------------------------------------------------------
  // Rendered lines are lines
  // ------------------------------------------------------------------

  predicate AllOneLine(lines: seq<string>) {
    forall l <- lines :: OneLine(l)
  }

  lemma {:induction false} EscapeOneLine(s: string, escaped: bool)
    requires OneLine(s)
    ensures OneLine(EscapePipes(s, escaped))
  {
    if s != "" {
      EscapeOneLine(s[1..], s[0] == '\\');
    }
  }

  lemma CellOneLine(value: string)
    ensures OneLine(Cell(value))
  {
    CleanOneLine(value);
    EscapeOneLine(Clean(value), false);
  }

  lemma EntryIsOneLine(did: string, p: Proposal, added: string)
    ensures OneLine(did) && OneLine(added) <==> AllOneLine(RenderEntry(did, p, added))
  {
    hide Clean, ExampleLines;
    FieldsOneLine(p);
    ExampleIsOneLine(p);
    var entry := RenderEntry(did, p, added);
    assert entry[0] == "### " + did + " — " + Clean(p.title);
    assert entry[|entry| - 1] == ADDED + " " + added;
    assert entry[0] in entry && entry[|entry| - 1] in entry;
  }

  lemma ExampleIsOneLine(p: Proposal)
    ensures AllOneLine(ExampleLines(p))
  {
    hide Clean;
    FieldsOneLine(p);
  }

  /**
   * Whatever line breaks the service's text fields hold, every rendered line is one line,
   * as long as the id and the Added text are; those are the two that are not cleaned.
   */
  lemma RenderedIsOneLine(did: string, p: Proposal, added: string)
    ensures OneLine(did) && OneLine(added) <==> AllOneLine(RenderEntry(did, p, added))
    ensures OneLine(did) ==> OneLine(RenderIndexRow(did, p)) && forall title :: OneLine(RenderRetiredRow(did, title))
  {
    hide Clean, Cell, RenderEntry;
    EntryIsOneLine(did, p, added);
    FieldsOneLine(p);
    CellOneLine(p.title);
    var applies := Clean(p.appliesWhen);
    var short := if |applies| > 60 then applies[..57] + "..." else applies;
    CellOneLine(short);
    forall title
      ensures OneLine(did) ==> OneLine(RenderRetiredRow(did, title))
    {
      CellOneLine(title);
    }
  }

  lemma FieldsOneLine(p: Proposal)
    ensures OneLine(Clean(p.title)) && OneLine(Clean(p.appliesWhen)) && OneLine(Clean(p.rule))
    ensures OneLine(Clean(p.rationale)) && OneLine(Clean(p.reviewerCheck)) && OneLine(Clean(p.example))
  {
    CleanOneLine(p.title);
    CleanOneLine(p.appliesWhen);
    CleanOneLine(p.rule);
    CleanOneLine(p.rationale);
    CleanOneLine(p.reviewerCheck);
    CleanOneLine(p.example);
  }
}
