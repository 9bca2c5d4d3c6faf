/** Renaming harnesses everywhere the database records them. */
module HarnessRename {
  import opened Options

  /** One column of a table; None is NULL. */
  type Column = seq<Option<string>>

  datatype Pair = Pair(before: string, after: string)

  /** The tables' harness columns and agent columns, and the registry: name to memory root. */
  datatype Data = Data(harness: map<string, Column>, agent: map<string, Column>, roots: map<string, string>)

  const HARNESS_COLUMNS := ["missions", "findings", "directive_proposals", "documents"]
  const AGENT_COLUMNS := ["flight_recorder", "mission_steps", "service_records"]

  // ------------------------------------------------------------------
  // One rename
  // ------------------------------------------------------------------

  function MoveHarness(c: Option<string>, p: Pair): Option<string> {
    if c == Some(p.before) then Some(p.after) else c
  }

  /** The SQL prefix test and replacement: `before` followed by a colon. */
  function MoveAgent(c: Option<string>, p: Pair): Option<string> {
    if c.Some? && p.before + ":" <= c.value then Some(p.after + ":" + c.value[|p.before| + 1..]) else c
  }

  function MoveColumn(column: Column, move: Option<string> -> Option<string>): Column {
    seq(|column|, i requires 0 <= i < |column| => move(column[i]))
  }

  function MoveTables(tables: map<string, Column>, names: seq<string>, move: Option<string> -> Option<string>): map<string, Column> {
    map t | t in tables :: if t in names then MoveColumn(tables[t], move) else tables[t]
  }

  function MoveRoot(roots: map<string, string>, p: Pair): map<string, string> {
    if p.before !in roots then roots
    else if p.after in roots then roots - {p.before}
    else (roots - {p.before})[p.after := roots[p.before]]
  }

  function Move(d: Data, p: Pair): Data {
    Data(MoveTables(d.harness, HARNESS_COLUMNS, c => MoveHarness(c, p)),
         MoveTables(d.agent, AGENT_COLUMNS, c => MoveAgent(c, p)),
         MoveRoot(d.roots, p))
  }

  /** One rename after another. */
  function MoveEach(d: Data, pairs: seq<Pair>): Data {
    if pairs == [] then d else Move(MoveEach(d, pairs[..|pairs| - 1]), pairs[|pairs| - 1])
  }

  // ------------------------------------------------------------------
  // The pairs a run accepts
  // ------------------------------------------------------------------

  predicate IsAlnum(c: char) {
    'A' <= c <= 'Z' || 'a' <= c <= 'z' || '0' <= c <= '9'
  }

  predicate IsPlainName(s: string) {
    && 1 <= |s| <= 64 && IsAlnum(s[0])
    && forall c <- s :: IsAlnum(c) || c == '.' || c == '_' || c == '-'
  }

  /** The pattern's `$` also matches before a final newline. */
  predicate IsName(s: string) {
    IsPlainName(s) || (s != "" && s[|s| - 1] == '\n' && IsPlainName(s[..|s| - 1]))
  }

  /** The offset of the first c; the length when there is none. */
  function UpTo(s: string, c: char): (n: nat)
    ensures n <= |s|
    ensures forall i :: 0 <= i < n ==> s[i] != c
    ensures n < |s| ==> s[n] == c
  {
    if s == "" || s[0] == c then 0
    else 1 + UpTo(s[1..], c)
  }

  /** `OLD=NEW`, two different harness names. */
  function ParsePair(s: string): Option<Pair> {
    var n := UpTo(s, '=');
    if n == |s| then None
    else
      var p := Pair(s[..n], s[n + 1..]);
      if IsName(p.before) && IsName(p.after) && p.before != p.after then Some(p) else None
  }

  function Olds(pairs: seq<Pair>): set<string> {
    set p | p in pairs :: p.before
  }

  function News(pairs: seq<Pair>): set<string> {
    set p | p in pairs :: p.after
  }

  /** Each name appears once, and none is both renamed and a rename target. */
  predicate Accepted(pairs: seq<Pair>) {
    && (forall p <- pairs :: IsName(p.before) && IsName(p.after))
    && (forall i, j :: 0 <= i < j < |pairs| ==> pairs[i].before != pairs[j].before && pairs[i].after != pairs[j].after)
    && Olds(pairs) !! News(pairs)
  }

  // ------------------------------------------------------------------
  // The simultaneous substitution
  // ------------------------------------------------------------------

  function Renames(pairs: seq<Pair>): map<string, string> {
    if pairs == [] then map[]
    else Renames(pairs[..|pairs| - 1])[pairs[|pairs| - 1].before := pairs[|pairs| - 1].after]
  }

  function NewHarness(c: Option<string>, names: map<string, string>): Option<string> {
    if c.Some? && c.value in names then Some(names[c.value]) else c
  }

  /** The part before the first colon is the harness; an agent without a colon names none. */
  function NewAgent(c: Option<string>, names: map<string, string>): Option<string> {
    if c.None? then c
    else
      var n := UpTo(c.value, ':');
      if n < |c.value| && c.value[..n] in names then Some(names[c.value[..n]] + c.value[n..]) else c
  }

  /** Every registered harness keeps its root under its new name, unless that name has a root of its own. */
  ghost predicate RootsMoved(roots: map<string, string>, names: map<string, string>, after: map<string, string>) {
    && (forall n :: n in after <==> (n in roots && n !in names) || exists o :: o in roots && o in names && names[o] == n)
    && (forall n :: n in roots && n !in names ==> n in after && after[n] == roots[n])
    && (forall o :: o in roots && o in names && names[o] !in roots ==> names[o] in after && after[names[o]] == roots[o])
  }

  /** `after` is d with every name replaced at once. */
  ghost predicate Renamed(d: Data, names: map<string, string>, after: Data) {
    && after.harness == MoveTables(d.harness, HARNESS_COLUMNS, c => NewHarness(c, names))
    && after.agent == MoveTables(d.agent, AGENT_COLUMNS, c => NewAgent(c, names))
    && RootsMoved(d.roots, names, after.roots)
  }

  lemma UpToIs(s: string, c: char, n: nat)
    requires n <= |s| && (forall i :: 0 <= i < n ==> s[i] != c) && (n < |s| ==> s[n] == c)
    ensures UpTo(s, c) == n
  {}

  lemma NameHasNoColon(s: string)
    requires IsName(s)
    ensures ':' !in s
  {
    if !IsPlainName(s) {
      assert s == s[..|s| - 1] + "\n";
    }
  }

  /** The SQL prefix test looks at the part before the first colon. */
  lemma AgentOwner(v: string, name: string)
    requires ':' !in name
    ensures name + ":" <= v <==> UpTo(v, ':') < |v| && v[..UpTo(v, ':')] == name
  {
    hide UpTo;
    var n := UpTo(v, ':');
    if name + ":" <= v {
      assert v[|name|] == (name + ":")[|name|];
      assert forall i :: 0 <= i < |name| ==> v[i] == (name + ":")[i] == name[i];
      UpToIs(v, ':', |name|);
      assert v[..|name|] == name;
    }
    if n < |v| && v[..n] == name {
      assert v == name + ":" + v[n + 1..];
    }
  }

  lemma AgentStep(c: Option<string>, names: map<string, string>, p: Pair)
    requires ':' !in p.before && p.before !in names && forall n <- names :: ':' !in names[n] && names[n] != p.before
    ensures MoveAgent(NewAgent(c, names), p) == NewAgent(c, names[p.before := p.after])
  {
    if c.Some? {
      var v := c.value;
      var n := UpTo(v, ':');
      AgentOwner(v, p.before);
      if n < |v| && v[..n] in names {
        var owner := names[v[..n]];
        var w := owner + v[n..];
        assert w[..|owner|] == owner;
        UpToIs(w, ':', |owner|);
        AgentOwner(w, p.before);
      } else if p.before + ":" <= v {
        assert p.after + ":" + v[n + 1..] == p.after + v[n..];
      }
    }
  }

  lemma ComposeTables(tables: map<string, Column>, names: seq<string>, f: Option<string> -> Option<string>,
                      g: Option<string> -> Option<string>, h: Option<string> -> Option<string>)
    requires forall c :: g(f(c)) == h(c)
    ensures MoveTables(MoveTables(tables, names, f), names, g) == MoveTables(tables, names, h)
  {
    forall t | t in tables
      ensures MoveColumn(MoveColumn(tables[t], f), g) == MoveColumn(tables[t], h)
    {}
  }

  lemma RootsStep(roots: map<string, string>, names: map<string, string>, after: map<string, string>, p: Pair)
    requires RootsMoved(roots, names, after)
    requires p.before !in names && p.after !in names && p.before != p.after
    requires forall n <- names :: names[n] != p.before && names[n] != p.after
    ensures RootsMoved(roots, names[p.before := p.after], MoveRoot(after, p))
  {
    hide MoveRoot;
    RootsNotNamed(roots, names, after, p.before);
    RootsNotNamed(roots, names, after, p.after);
    RootNames(roots, names, after, p);
    RootValues(roots, names, after, p);
  }

  lemma RootValues(roots: map<string, string>, names: map<string, string>, after: map<string, string>, p: Pair)
    requires RootsMoved(roots, names, after)
    requires p.before !in names && p.after !in names && p.before != p.after
    requires (p.before in after <==> p.before in roots) && (p.after in after <==> p.after in roots)
    requires forall n <- names :: names[n] != p.before && names[n] != p.after
    ensures var more, moved := names[p.before := p.after], MoveRoot(after, p);
            && (forall n :: n in roots && n !in more ==> n in moved && moved[n] == roots[n])
            && (forall o :: o in roots && o in more && more[o] !in roots ==> more[o] in moved && moved[more[o]] == roots[o])
  {
    var moved := MoveRoot(after, p);
    assert forall n <- after :: n != p.before && n != p.after ==> n in moved && moved[n] == after[n];
  }

  lemma RootNames(roots: map<string, string>, names: map<string, string>, after: map<string, string>, p: Pair)
    requires RootsMoved(roots, names, after)
    requires p.before !in names && p.after !in names && p.before != p.after
    requires (p.before in after <==> p.before in roots) && (p.after in after <==> p.after in roots)
    requires forall n <- names :: names[n] != p.before && names[n] != p.after
    ensures var more := names[p.before := p.after];
            forall n :: n in MoveRoot(after, p) <==> (n in roots && n !in more) || exists o :: o in roots && o in more && more[o] == n
  {
    forall n
      ensures var more := names[p.before := p.after];
              n in MoveRoot(after, p) <==> (n in roots && n !in more) || exists o :: o in roots && o in more && more[o] == n
    {
      NamedOneMore(roots, names, p, n);
    }
  }

  lemma RootsNotNamed(roots: map<string, string>, names: map<string, string>, after: map<string, string>, n: string)
    requires RootsMoved(roots, names, after) && n !in names && forall o <- names :: names[o] != n
    ensures n in after <==> n in roots
  {}

  /** Who becomes n when one more pair is known. */
  lemma NamedOneMore(roots: map<string, string>, names: map<string, string>, p: Pair, n: string)
    requires p.before !in names
    ensures var more := names[p.before := p.after];
            (exists o :: o in roots && o in more && more[o] == n) <==>
              (exists o :: o in roots && o in names && names[o] == n) || (p.before in roots && p.after == n)
  {
    var more := names[p.before := p.after];
    if o :| o in roots && o in names && names[o] == n {
      assert more[o] == n;
    } else if p.before in roots && p.after == n {
      assert more[p.before] == n;
    }
  }

  lemma RootsStay(roots: map<string, string>)
    ensures RootsMoved(roots, map[], roots)
  {}

  lemma AcceptedFront(pairs: seq<Pair>)
    requires pairs != [] && Accepted(pairs)
    ensures var front, p := pairs[..|pairs| - 1], pairs[|pairs| - 1];
            && Accepted(front) && IsName(p.before) && IsName(p.after) && p.before != p.after
            && p.before !in Olds(front) && p.before !in News(front) && p.after !in Olds(front) && p.after !in News(front)
  {
    var front, p := pairs[..|pairs| - 1], pairs[|pairs| - 1];
    assert p in pairs;
    assert p.before in Olds(pairs) && p.after in News(pairs);
    forall q | q in front
      ensures q in pairs && q.before in Olds(pairs) && q.after in News(pairs) && q.before != p.before && q.after != p.after
    {
      var i :| 0 <= i < |front| && front[i] == q;
      assert pairs[i] == q && pairs[|pairs| - 1] == p;
    }
    assert forall i :: 0 <= i < |front| ==> front[i] == pairs[i];
  }

  lemma {:induction false} RenamesNames(pairs: seq<Pair>)
    ensures Renames(pairs).Keys == Olds(pairs)
    ensures forall n <- Renames(pairs) :: exists p <- pairs :: p.before == n && p.after == Renames(pairs)[n]
    ensures forall n <- Renames(pairs) :: Renames(pairs)[n] in News(pairs)
  {
    if pairs != [] {
      var front, p := pairs[..|pairs| - 1], pairs[|pairs| - 1];
      assert pairs == front + [p];
      RenamesNames(front);
      assert p in pairs;
      assert Olds(pairs) == Olds(front) + {p.before};
      assert News(pairs) == News(front) + {p.after};
      forall n | n in Renames(pairs)
        ensures exists p <- pairs :: p.before == n && p.after == Renames(pairs)[n]
      {
        if n != p.before {
          var q :| q in front && q.before == n && q.after == Renames(front)[n];
          assert q in pairs;
        }
      }
    }
  }

  /** One rename after another is one simultaneous substitution. */
  lemma {:induction false} MovesAreOneSubstitution(d: Data, pairs: seq<Pair>)
    requires Accepted(pairs)
    ensures Renamed(d, Renames(pairs), MoveEach(d, pairs))
  {
    hide Accepted, RootsMoved, MoveAgent, NewAgent, MoveRoot, MoveTables, IsName;
    if pairs == [] {
      MoveNothing(d);
    } else {
      var front, p := pairs[..|pairs| - 1], pairs[|pairs| - 1];
      AcceptedFront(pairs);
      MovesAreOneSubstitution(d, front);
      RenamesNames(front);
      AcceptedNames(front);
      NameHasNoColon(p.before);
      MoveOneMore(d, Renames(front), MoveEach(d, front), p);
    }
  }

  lemma AcceptedNames(pairs: seq<Pair>)
    requires Accepted(pairs)
    ensures forall n <- Renames(pairs) :: ':' !in Renames(pairs)[n]
  {
    RenamesNames(pairs);
    forall n | n in Renames(pairs)
      ensures ':' !in Renames(pairs)[n]
    {
      var p :| p in pairs && p.before == n && p.after == Renames(pairs)[n];
      NameHasNoColon(p.after);
    }
  }

  lemma NoNames(c: Option<string>)
    ensures NewAgent(c, map[]) == c && NewHarness(c, map[]) == c
  {}

  lemma TablesStay(tables: map<string, Column>, names: seq<string>, f: Option<string> -> Option<string>)
    requires forall c :: f(c) == c
    ensures MoveTables(tables, names, f) == tables
  {
    forall t | t in tables
      ensures MoveColumn(tables[t], f) == tables[t]
    {}
  }

  lemma MoveNothing(d: Data)
    ensures Renamed(d, map[], d)
  {
    hide RootsMoved, NewAgent, NewHarness;
    forall c
      ensures NewAgent(c, map[]) == c && NewHarness(c, map[]) == c
    {
      NoNames(c);
    }
    TablesStay(d.harness, HARNESS_COLUMNS, c => NewHarness(c, map[]));
    TablesStay(d.agent, AGENT_COLUMNS, c => NewAgent(c, map[]));
    RootsStay(d.roots);
  }

  lemma MoveOneMore(d: Data, names: map<string, string>, after: Data, p: Pair)
    requires Renamed(d, names, after)
    requires ':' !in p.before && p.before !in names && p.after !in names && p.before != p.after
    requires forall n <- names :: names[n] != p.before && names[n] != p.after && ':' !in names[n]
    ensures Renamed(d, names[p.before := p.after], Move(after, p))
  {
    hide RootsMoved, MoveAgent, NewAgent, MoveRoot, MoveTables;
    var more := names[p.before := p.after];
    forall c
      ensures MoveAgent(NewAgent(c, names), p) == NewAgent(c, more)
    {
      AgentStep(c, names, p);
    }
    ComposeTables(d.harness, HARNESS_COLUMNS, c => NewHarness(c, names), c => MoveHarness(c, p), c => NewHarness(c, more));
    ComposeTables(d.agent, AGENT_COLUMNS, c => NewAgent(c, names), c => MoveAgent(c, p), c => NewAgent(c, more));
    RootsStep(d.roots, names, after.roots, p);
  }

  // ------------------------------------------------------------------
  // Order, and running again
  // ------------------------------------------------------------------

  lemma OnePairPerName(pairs: seq<Pair>, p: Pair, q: Pair)
    requires Accepted(pairs) && p in pairs && q in pairs && p.before == q.before
    ensures p == q
  {
    var i :| 0 <= i < |pairs| && pairs[i] == p;
    var j :| 0 <= j < |pairs| && pairs[j] == q;
  }

  lemma SameRenames(pairs: seq<Pair>, others: seq<Pair>)
    requires Accepted(pairs) && Accepted(others)
    requires forall p :: p in pairs <==> p in others
    ensures Renames(pairs) == Renames(others)
  {
    hide Accepted, Renames;
    RenamesNames(pairs);
    RenamesNames(others);
    assert Olds(pairs) == Olds(others);
    forall n | n in Renames(pairs)
      ensures Renames(pairs)[n] == Renames(others)[n]
    {
      var p :| p in pairs && p.before == n && p.after == Renames(pairs)[n];
      var q :| q in others && q.before == n && q.after == Renames(others)[n];
      OnePairPerName(pairs, p, q);
    }
  }

  /** New names are distinct, so what becomes of the registry is determined. */
  lemma RenamedIsUnique(d: Data, pairs: seq<Pair>, a: Data, b: Data)
    requires Accepted(pairs) && Renamed(d, Renames(pairs), a) && Renamed(d, Renames(pairs), b)
    ensures a == b
  {
    hide Accepted;
    RenamesNames(pairs);
    var names := Renames(pairs);
    forall n | n in a.roots
      ensures a.roots[n] == b.roots[n]
    {
      if !(n in d.roots && n !in names) {
        var o :| o in d.roots && o in names && names[o] == n;
        NewIsNotOld(pairs, n);
      }
    }
    assert a.roots.Keys == b.roots.Keys;
  }

  lemma NewIsNotOld(pairs: seq<Pair>, n: string)
    requires Accepted(pairs) && n in News(pairs)
    ensures n !in Renames(pairs)
  {
    RenamesNames(pairs);
  }

  /** The order of accepted pairs does not matter. */
  lemma AnyOrder(d: Data, pairs: seq<Pair>, others: seq<Pair>)
    requires Accepted(pairs) && Accepted(others)
    requires forall p :: p in pairs <==> p in others
    ensures MoveEach(d, pairs) == MoveEach(d, others)
  {
    hide Accepted, Renamed;
    SameRenames(pairs, others);
    MovesAreOneSubstitution(d, pairs);
    MovesAreOneSubstitution(d, others);
    RenamedIsUnique(d, pairs, MoveEach(d, pairs), MoveEach(d, others));
  }

  lemma AgentTwice(c: Option<string>, names: map<string, string>)
    requires forall n <- names :: names[n] !in names && ':' !in names[n]
    ensures NewAgent(NewAgent(c, names), names) == NewAgent(c, names)
  {
    if c.Some? {
      var v := c.value;
      var n := UpTo(v, ':');
      if n < |v| && v[..n] in names {
        var owner := names[v[..n]];
        var w := owner + v[n..];
        assert w[..|owner|] == owner;
        UpToIs(w, ':', |owner|);
      }
    }
  }

  /** A second run over what the first one wrote changes nothing. */
  lemma SecondRunIsQuiet(d: Data, pairs: seq<Pair>)
    requires Accepted(pairs)
    ensures MoveEach(MoveEach(d, pairs), pairs) == MoveEach(d, pairs)
  {
    hide Accepted, Renames, RootsMoved, NewAgent, MoveTables;
    var names := Renames(pairs);
    var once := MoveEach(d, pairs);
    var twice := MoveEach(once, pairs);
    MovesAreOneSubstitution(d, pairs);
    MovesAreOneSubstitution(once, pairs);
    RenamesNames(pairs);
    AcceptedNames(pairs);
    forall n | n in names
      ensures names[n] !in names
    {
      NewIsNotOld(pairs, names[n]);
    }
    forall c
      ensures NewAgent(NewAgent(c, names), names) == NewAgent(c, names)
    {
      AgentTwice(c, names);
    }
    ComposeTables(d.harness, HARNESS_COLUMNS, c => NewHarness(c, names), c => NewHarness(c, names), c => NewHarness(c, names));
    ComposeTables(d.agent, AGENT_COLUMNS, c => NewAgent(c, names), c => NewAgent(c, names), c => NewAgent(c, names));
    RootsTwice(d.roots, names, once.roots);
    assert Renamed(once, names, once);
    RenamedIsUnique(once, pairs, once, twice);
  }

  lemma RootsTwice(roots: map<string, string>, names: map<string, string>, after: map<string, string>)
    requires RootsMoved(roots, names, after)
    requires forall n <- names :: names[n] !in names
    ensures RootsMoved(after, names, after)
  {
    assert forall n :: n in after ==> n !in names;
  }

  /** Without the check that no name is both renamed and a target, the order would matter. */
  lemma ChainsDependOnOrder()
    ensures var d := Data(map["missions" := [Some("a")]], map[], map[]);
            var ab, bc := Pair("a", "b"), Pair("b", "c");
            MoveEach(d, [ab, bc]) != MoveEach(d, [bc, ab])
  {
    var d := Data(map["missions" := [Some("a")]], map[], map[]);
    var ab, bc := Pair("a", "b"), Pair("b", "c");
    assert [ab, bc][..1] == [ab] && [bc, ab][..1] == [bc] && [ab][..0] == [] && [bc][..0] == [];
    assert MoveEach(d, [ab]) == Move(d, ab) && MoveEach(d, [bc]) == Move(d, bc);
    assert HARNESS_COLUMNS[0] == "missions";
    assert Move(Move(d, ab), bc).harness["missions"][0] == Some("c");
    assert Move(Move(d, bc), ab).harness["missions"][0] == Some("b");
  }

  // ------------------------------------------------------------------
  // The script over the database
  // ------------------------------------------------------------------

  /** The parsed arguments, when every one of them is OLD=NEW and together they are accepted. */
  function ParseAll(args: seq<string>): Option<seq<Pair>> {
    if args == [] then Some([])
    else
      var front, p := ParseAll(args[..|args| - 1]), ParsePair(args[|args| - 1]);
      if front.Some? && p.Some? then Some(front.value + [p.value]) else None
  }

  /** An argument is taken exactly when it is two different names around its first equals sign. */
  lemma ParsePairIff(a: string, b: string)
    requires '=' !in a
    ensures ParsePair(a + "=" + b) == if IsName(a) && IsName(b) && a != b then Some(Pair(a, b)) else None
  {
    hide IsName;
    var s := a + "=" + b;
    assert forall i :: 0 <= i < |a| ==> s[i] == a[i];
    UpToIs(s, '=', |a|);
    assert s[..|a|] == a && s[|a| + 1..] == b;
  }

  /** What was read is what the argument says: the name in front of the sign is the old one. */
  lemma ParsePairReads(s: string)
    requires ParsePair(s).Some?
    ensures var p := ParsePair(s).value;
            s == p.before + "=" + p.after && '=' !in p.before && IsName(p.before) && IsName(p.after) && p.before != p.after
  {
    hide IsName;
  }

  /** One of the arguments reads a=b. */
  predicate Asks(args: seq<string>, a: string, b: string) {
    '=' !in a && a + "=" + b in args
  }

  lemma {:induction false} ParsedArguments(args: seq<string>)
    requires ParseAll(args).Some?
    ensures |ParseAll(args).value| == |args|
    ensures forall i :: 0 <= i < |args| ==> ParsePair(args[i]) == Some(ParseAll(args).value[i])
  {
    hide ParsePair;
    if args != [] {
      ParsedArguments(args[..|args| - 1]);
    }
  }

  lemma AskedIff(args: seq<string>, a: string, b: string)
    requires ParseAll(args).Some?
    ensures Asks(args, a, b) <==> Pair(a, b) in ParseAll(args).value
  {
    hide ParsePair, ParseAll, IsName;
    ParsedArguments(args);
    var pairs := ParseAll(args).value;
    if Asks(args, a, b) {
      var i :| 0 <= i < |args| && args[i] == a + "=" + b;
      ParsePairIff(a, b);
      assert pairs[i] == Pair(a, b);
    }
    if Pair(a, b) in pairs {
      var i :| 0 <= i < |pairs| && pairs[i] == Pair(a, b);
      ParsePairReads(args[i]);
    }
  }

  // ------------------------------------------------------------------
  // What a run does, read off its arguments
  // ------------------------------------------------------------------

  /** A harness cell of the four tables holds the new name where an argument names the old one. */
  ghost predicate HarnessReads(args: seq<string>, table: string, before: Option<string>, after: Option<string>) {
    if table in {"missions", "findings", "directive_proposals", "documents"} then
      && (forall a, b :: Asks(args, a, b) && before == Some(a) ==> after == Some(b))
      && ((forall a, b :: Asks(args, a, b) ==> before != Some(a)) ==> after == before)
    else after == before
  }

  /** An agent of the three tables is owned by the new name where it was owned by the old one. */
  ghost predicate AgentReads(args: seq<string>, table: string, before: Option<string>, after: Option<string>) {
    if table in {"flight_recorder", "mission_steps", "service_records"} then
      && (forall a, b, x :: Asks(args, a, b) && before == Some(a + ":" + x) ==> after == Some(b + ":" + x))
      && ((forall a, b :: Asks(args, a, b) ==> before.None? || !(a + ":" <= before.value)) ==> after == before)
    else after == before
  }

  ghost predicate RootsRead(args: seq<string>, before: map<string, string>, after: map<string, string>) {
    && (forall a, b :: Asks(args, a, b) ==> a !in after)
    && (forall a, b :: Asks(args, a, b) && a in before && b !in before ==> b in after && after[b] == before[a])
    && (forall n :: n in before && (forall b :: !Asks(args, n, b)) ==> n in after && after[n] == before[n])
    && (forall n :: n in after && n !in before ==> exists a :: Asks(args, a, n) && a in before)
  }

  predicate SameShape(before: map<string, Column>, after: map<string, Column>) {
    after.Keys == before.Keys && forall t <- before :: |after[t]| == |before[t]|
  }

  /** Every cell and every registered harness reads as the arguments ask. */
  ghost predicate ReadsRenamed(args: seq<string>, d: Data, after: Data) {
    && SameShape(d.harness, after.harness) && SameShape(d.agent, after.agent)
    && (forall t, i :: t in d.harness && 0 <= i < |d.harness[t]| ==> HarnessReads(args, t, d.harness[t][i], after.harness[t][i]))
    && (forall t, i :: t in d.agent && 0 <= i < |d.agent[t]| ==> AgentReads(args, t, d.agent[t][i], after.agent[t][i]))
    && RootsRead(args, d.roots, after.roots)
  }

  lemma RenamesHas(pairs: seq<Pair>, a: string, b: string)
    requires Accepted(pairs)
    ensures Pair(a, b) in pairs <==> a in Renames(pairs) && Renames(pairs)[a] == b
  {
    hide Accepted, Renames;
    RenamesNames(pairs);
    if a in Renames(pairs) {
      var p :| p in pairs && p.before == a && p.after == Renames(pairs)[a];
      if Pair(a, b) in pairs {
        OnePairPerName(pairs, p, Pair(a, b));
      }
    }
  }

  lemma AskedNames(args: seq<string>)
    requires ParseAll(args).Some? && Accepted(ParseAll(args).value)
    ensures var names := Renames(ParseAll(args).value);
            && (forall a, b :: Asks(args, a, b) <==> a in names && names[a] == b)
            && (forall a <- names :: ':' !in a && names[a] !in names)
  {
    hide ParseAll, Accepted, Renames, Asks, IsName;
    var pairs := ParseAll(args).value;
    var names := Renames(pairs);
    forall a, b
      ensures Asks(args, a, b) <==> a in names && names[a] == b
    {
      AskedIff(args, a, b);
      RenamesHas(pairs, a, b);
    }
    forall a | a in names
      ensures ':' !in a && names[a] !in names
    {
      RenamesNames(pairs);
      NewIsNotOld(pairs, names[a]);
      RenamesHas(pairs, a, names[a]);
      AcceptedName(pairs, Pair(a, names[a]));
    }
  }

  lemma AcceptedName(pairs: seq<Pair>, p: Pair)
    requires Accepted(pairs) && p in pairs
    ensures ':' !in p.before
  {
    NameHasNoColon(p.before);
  }

  lemma HarnessCell(args: seq<string>, names: map<string, string>, t: string, c: Option<string>)
    requires forall a, b :: Asks(args, a, b) <==> a in names && names[a] == b
    ensures HarnessReads(args, t, c, if t in HARNESS_COLUMNS then NewHarness(c, names) else c)
  {
    hide Asks;
    if c.Some? && c.value in names {
      assert Asks(args, c.value, names[c.value]);
    }
  }

  lemma AgentCell(args: seq<string>, names: map<string, string>, t: string, c: Option<string>)
    requires forall a, b :: Asks(args, a, b) <==> a in names && names[a] == b
    requires forall a <- names :: ':' !in a
    ensures AgentReads(args, t, c, if t in AGENT_COLUMNS then NewAgent(c, names) else c)
  {
    hide Asks, UpTo;
    if c.Some? {
      var v := c.value;
      var n := UpTo(v, ':');
      forall a, b, x | Asks(args, a, b) && v == a + ":" + x
        ensures NewAgent(c, names) == Some(b + ":" + x)
      {
        AgentOwner(v, a);
        assert v[n..] == ":" + x;
        assert b + v[n..] == b + ":" + x;
      }
      if n < |v| && v[..n] in names {
        assert Asks(args, v[..n], names[v[..n]]);
        assert v[..n] + ":" <= v;
      }
    }
  }

  lemma RootsAsked(args: seq<string>, names: map<string, string>, before: map<string, string>, after: map<string, string>)
    requires forall a, b :: Asks(args, a, b) <==> a in names && names[a] == b
    requires forall a <- names :: names[a] !in names
    requires RootsMoved(before, names, after)
    ensures RootsRead(args, before, after)
  {
    hide Asks;
    forall n | n in before && n in names
      ensures exists b :: Asks(args, n, b)
    {
      assert Asks(args, n, names[n]);
    }
  }

  /** The substitution that the parsed arguments stand for is what the arguments ask. */
  lemma RenamedReads(args: seq<string>, d: Data, after: Data)
    requires ParseAll(args).Some? && Accepted(ParseAll(args).value) && Renamed(d, Renames(ParseAll(args).value), after)
    ensures ReadsRenamed(args, d, after)
  {
    hide ParseAll, Accepted, Renames, Asks, NewHarness, NewAgent, HarnessReads, AgentReads, RootsRead, RootsMoved;
    var names := Renames(ParseAll(args).value);
    AskedNames(args);
    forall t, i | t in d.harness && 0 <= i < |d.harness[t]|
      ensures HarnessReads(args, t, d.harness[t][i], after.harness[t][i])
    {
      HarnessCell(args, names, t, d.harness[t][i]);
    }
    forall t, i | t in d.agent && 0 <= i < |d.agent[t]|
      ensures AgentReads(args, t, d.agent[t][i], after.agent[t][i])
    {
      AgentCell(args, names, t, d.agent[t][i]);
    }
    RootsAsked(args, names, d.roots, after.roots);
  }

  /** The tables of agents are there, as the schema has them. */
  predicate HasAgents(agent: map<string, Column>) {
    forall t <- AGENT_COLUMNS :: t in agent
  }

  lemma NoMoves(d: Data)
    ensures MoveEach(d, []) == d
  {}

  lemma OneMoreMove(d: Data, pairs: seq<Pair>, i: nat)
    requires i < |pairs|
    ensures MoveEach(d, pairs[..i + 1]) == Move(MoveEach(d, pairs[..i]), pairs[i])
  {
    assert pairs[..i + 1][..i] == pairs[..i];
  }

  lemma MoveKeepsTables(d: Data, p: Pair)
    ensures Move(d, p).agent.Keys == d.agent.Keys
  {}

  lemma NoTables(tables: map<string, Column>, names: seq<string>, move: Option<string> -> Option<string>)
    ensures MoveTables(tables, names[..0], move) == tables
  {}

  lemma OneMoreTable(tables: map<string, Column>, names: seq<string>, i: nat, move: Option<string> -> Option<string>)
    requires i < |names| && names[i] !in names[..i]
    ensures var done := MoveTables(tables, names[..i], move);
            MoveTables(tables, names[..i + 1], move) ==
              if names[i] in done then done[names[i] := MoveColumn(done[names[i]], move)] else done
  {
    assert names[..i + 1] == names[..i] + [names[i]];
  }

  class Database {
    var harness: map<string, Column>
    var agent: map<string, Column>
    var roots: map<string, string>

    function Contents(): Data
      reads this
    {
      Data(harness, agent, roots)
    }

    /** UPDATE ... SET harness = new WHERE harness = old, on each table that has the column. */
    method UpdateHarness(p: Pair)
      modifies this`harness
      ensures harness == MoveTables(old(harness), HARNESS_COLUMNS, c => MoveHarness(c, p))
    {
      hide MoveTables, MoveColumn, MoveHarness;
      var move := c => MoveHarness(c, p);
      NoTables(harness, HARNESS_COLUMNS, move);
      for i := 0 to |HARNESS_COLUMNS|
        invariant harness == MoveTables(old(harness), HARNESS_COLUMNS[..i], move)
      {
        OneMoreTable(old(harness), HARNESS_COLUMNS, i, move);
        var table := HARNESS_COLUMNS[i];
        if table in harness {
          harness := harness[table := MoveColumn(harness[table], move)];
        }
      }
      assert HARNESS_COLUMNS[..|HARNESS_COLUMNS|] == HARNESS_COLUMNS;
    }

    /** The update of every agent that starts with the old name and a colon; a missing table is an error. */
    method UpdateAgents(p: Pair) returns (ok: bool)
      modifies this`agent
      ensures ok <==> HasAgents(old(agent))
      ensures ok ==> agent == MoveTables(old(agent), AGENT_COLUMNS, c => MoveAgent(c, p))
    {
      hide MoveTables, MoveColumn, MoveAgent;
      var move := c => MoveAgent(c, p);
      NoTables(agent, AGENT_COLUMNS, move);
      for i := 0 to |AGENT_COLUMNS|
        invariant agent == MoveTables(old(agent), AGENT_COLUMNS[..i], move)
        invariant agent.Keys == old(agent).Keys
        invariant forall j :: 0 <= j < i ==> AGENT_COLUMNS[j] in old(agent)
      {
        OneMoreTable(old(agent), AGENT_COLUMNS, i, move);
        var table := AGENT_COLUMNS[i];
        if table !in agent {
          return false;
        }
        agent := agent[table := MoveColumn(agent[table], move)];
      }
      assert AGENT_COLUMNS[..|AGENT_COLUMNS|] == AGENT_COLUMNS;
      ok := true;
    }

    /** Moves every record of one harness to another, unless a table is missing. */
    method Rename(p: Pair) returns (ok: bool)
      modifies this
      ensures ok <==> HasAgents(old(agent))
      ensures ok ==> Contents() == Move(old(Contents()), p)
    {
      UpdateHarness(p);
      ok := UpdateAgents(p);
      if !ok {
        return false;
      }
      if p.before in roots && p.after in roots {
        roots := roots - {p.before};
      } else if p.before in roots {
        roots := (roots - {p.before})[p.after := roots[p.before]];
      }
    }

    /**
     * The whole run: refused arguments, an error and a dry run leave the database as it was,
     * and an applied run replaces every name at once.
     */
    method RunRenames(args: seq<string>, apply: bool, triageRunning: bool) returns (accepted: bool, ghost pairs: seq<Pair>)
      modifies this
      ensures accepted <==>
                && ParseAll(args) == Some(pairs) && Accepted(pairs) && !(triageRunning && apply)
                && (pairs == [] || HasAgents(old(agent)))
      ensures accepted && apply ==> Renamed(old(Contents()), Renames(pairs), Contents())
      ensures accepted && apply ==> ReadsRenamed(args, old(Contents()), Contents())
      ensures !accepted || !apply ==> Contents() == old(Contents())
    {
      hide ParseAll, Accepted, Renamed, Move, MoveEach, Renames, ReadsRenamed;
      var parsed := ParseAll(args);
      if parsed.None? {
        return false, [];
      }
      pairs := parsed.value;
      if !Accepted(parsed.value) || (triageRunning && apply) {
        return false, pairs;
      }
      var h, a, r := harness, agent, roots;
      NoMoves(Contents());
      for i := 0 to |parsed.value|
        invariant Contents() == MoveEach(old(Contents()), pairs[..i])
        invariant agent.Keys == old(agent).Keys && (i > 0 ==> HasAgents(old(agent)))
      {
        OneMoreMove(old(Contents()), pairs, i);
        var ok := Rename(parsed.value[i]);
        if !ok {
          harness, agent, roots := h, a, r;
          return false, pairs;
        }
        MoveKeepsTables(MoveEach(old(Contents()), pairs[..i]), parsed.value[i]);
      }
      assert pairs[..|pairs|] == pairs;
      MovesAreOneSubstitution(old(Contents()), pairs);
      RenamedReads(args, old(Contents()), Contents());
      if !apply {
        harness, agent, roots := h, a, r;
      }
      accepted := true;
    }
  }
}
