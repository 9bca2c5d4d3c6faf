/** The exact forms of what is read from an entry of the ledger: fields, the suggestion mark, the key. */
module FindingsForms {
  import opened Options
  import opened Text
  import opened ReconcileText
  import opened FindingsBlocks
  import opened FindingsFields

  // ------------------------------------------------------------------
  // Fields
  // ------------------------------------------------------------------

  /** A capital, then letters and spaces. */
  predicate IsFieldName(name: string) {
    name != "" && 'A' <= name[0] <= 'Z' && forall c <- name :: IsLetter(c)
  }

  /** The name between stars, with the colon behind or in front of the second pair. */
  ghost predicate StartsField(line: string) {
    exists name :: IsFieldName(name) && ("**" + name + "**:" <= line || "**" + name + ":**" <= line)
  }

  lemma {:induction false} LettersStop(name: string, rest: string)
    requires (forall c <- name :: IsLetter(c)) && (rest != "" ==> !IsLetter(rest[0]))
    ensures LettersLen(name + rest) == |name|
  {
    if name == "" {
      assert name + rest == rest;
    } else {
      assert name[0] in name && (name + rest)[1..] == name[1..] + rest;
      LettersStop(name[1..], rest);
    }
  }

  lemma FieldFound(line: string)
    requires IsField(line)
    ensures StartsField(line)
  {
    hide LettersLen;
    var n := LettersLen(line[3..]);
    var letters, rest := line[3..][..n], line[3..][n..];
    var name := [line[2]] + letters;
    assert forall c <- letters :: IsLetter(c);
    assert line[3 + n..] == rest;
    FieldStarts(line, name, rest);
  }

  lemma FieldStarts(line: string, name: string, rest: string)
    requires line == "**" + name + rest && IsFieldName(name) && ("**:" <= rest || ":**" <= rest)
    ensures StartsField(line)
  {
    hide IsFieldName;
    if "**:" <= rest {
      assert line == "**" + name + "**:" + rest[3..];
    } else {
      assert line == "**" + name + ":**" + rest[3..];
    }
  }

  lemma FieldIs(name: string, end: string, rest: string)
    requires IsFieldName(name) && end in {"**:", ":**"}
    ensures IsField("**" + name + end + rest)
  {
    hide LettersLen;
    var line := "**" + name + end + rest;
    assert line[3..] == name[1..] + (end + rest);
    LettersStop(name[1..], end + rest);
    assert line[3 + |name| - 1..] == end + rest;
  }

  lemma FieldIff(line: string)
    ensures IsField(line) <==> StartsField(line)
  {
    hide IsField, IsFieldName;
    if IsField(line) {
      FieldFound(line);
    }
    if StartsField(line) {
      var name :| IsFieldName(name) && ("**" + name + "**:" <= line || "**" + name + ":**" <= line);
      var end := if "**" + name + "**:" <= line then "**:" else ":**";
      var front := "**" + name + end;
      assert line == front + line[|front|..];
      FieldIs(name, end, line[|front|..]);
    }
  }

  // ------------------------------------------------------------------
  // The suggestion and the key
  // ------------------------------------------------------------------

  /** The mark in either spelling. */
  lemma MarkedIff(line: string, i: int)
    ensures MarkedAt(line, i) <==>
              0 <= i <= |line| - 15 && (line[i..i + 15] == "**Suggestion**:" || line[i..i + 15] == "**Suggestion:**")
  {}

  lemma MarkerIs(line: string, i: nat, at: nat)
    requires i <= at < |line| && MarkedAt(line, at) && forall j :: i <= j < at ==> !MarkedAt(line, j)
    ensures MarkerFrom(line, i) == at
  {
    hide MarkedAt;
  }

  lemma MarkedLineIs(lines: seq<string>, m: nat)
    requires m < |lines| && HasMarker(lines[m]) && forall i :: 0 <= i < m ==> !HasMarker(lines[i])
    ensures MarkedLine(lines) == Some(m)
  {
    hide HasMarker;
  }

  lemma UpToIs(more: seq<string>, tail: seq<string>)
    requires (forall l <- more :: !IsField(l)) && (tail != [] ==> IsField(tail[0]))
    ensures UpToField(more + tail) == more
  {
    hide IsField;
    var r := UpToField(more + tail);
    assert forall i :: 0 <= i < |more| ==> (more + tail)[i] == more[i] && more[i] in more;
    assert forall i :: 0 <= i < |r| ==> r[i] == (more + tail)[i] && r[i] in r;
    assert (more + tail)[..|more|] == more;
  }

  /** An entry: a heading, the lines in front of the suggestion, the suggestion's, and the further fields. */
  ghost predicate IsEntryOf(b: Block, front: seq<string>, pre: string, mark: string, rest: string, more: seq<string>, tail: seq<string>) {
    && b == front + [pre + mark + rest] + more + tail && b[|b| - 1] != ""
    && front != [] && (forall l <- front :: !HasMarker(l))
    && mark in {"**Suggestion**:", "**Suggestion:**"} && (forall i :: 0 <= i < |pre| ==> !MarkedAt(pre + mark + rest, i))
    && LStrip(rest) != "" && (forall l <- more :: !IsField(l)) && (tail != [] ==> IsField(tail[0]))
  }

  lemma SuggestionOfEntry(b: Block, front: seq<string>, pre: string, mark: string, rest: string, more: seq<string>, tail: seq<string>)
    requires IsEntryOf(b, front, pre, mark, rest, more, tail)
    ensures Suggestion(Body(b)) == CleanValue(Join([LStrip(rest)] + more))
  {
    hide HasMarker, MarkedAt, IsField, LStrip, CleanValue, Join, UpToField, MarkedLine;
    var m := |front|;
    var line := pre + mark + rest;
    assert Body(b) == b;
    assert b[m] == line && b[m + 1..] == more + tail;
    assert line[|pre|..|pre| + 15] == mark;
    MarkedIff(line, |pre|);
    MarkerIs(line, 0, |pre|);
    HasIt(line, |pre|);
    assert forall i :: 0 <= i < m ==> b[i] == front[i] && front[i] in front;
    MarkedLineIs(b, m);
    assert line[|pre| + 15..] == rest;
    UpToIs(more, tail);
  }

  lemma HasIt(line: string, at: nat)
    requires at < |line| && MarkedAt(line, at)
    ensures HasMarker(line)
  {}

  /** The key of an entry is its heading and what its suggestion says, cut to two thousand characters. */
  lemma KeyOfEntry(b: Block, front: seq<string>, pre: string, mark: string, rest: string, more: seq<string>, tail: seq<string>)
    requires IsEntryOf(b, front, pre, mark, rest, more, tail)
    ensures var v := CleanValue(Join([LStrip(rest)] + more));
            BlockKey(b) ==
              if v == "" then None
              else Some(Key(front[0], if |v| <= 2000 then v else RStrip(v[..1999]) + "…"))
  {
    hide Suggestion, Body, CleanValue, Join, LStrip, HasMarker, MarkedAt, IsField;
    SuggestionOfEntry(b, front, pre, mark, rest, more, tail);
  }
}
