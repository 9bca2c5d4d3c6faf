/** Splitting the findings ledger, a text given as the lines between newlines, into its entries. */
module FindingsBlocks {

  type Block = seq<string>

  // ------------------------------------------------------------------
  // Splitting the ledger into entries
  // ------------------------------------------------------------------

  predicate IsHeading(line: string) {
    "### " <= line
  }

  /** A heading and the lines up to the next one. */
  predicate IsBlock(b: Block) {
    b != [] && IsHeading(b[0]) && forall i :: 1 <= i < |b| ==> !IsHeading(b[i])
  }

  function Flat(blocks: seq<Block>): seq<string> {
    if blocks == [] then [] else Flat(blocks[..|blocks| - 1]) + blocks[|blocks| - 1]
  }

  predicate Plain(lines: seq<string>) {
    forall l <- lines :: !IsHeading(l)
  }

  predicate IsSplit(doc: seq<string>, preamble: seq<string>, blocks: seq<Block>) {
    && Plain(preamble)
    && (forall b <- blocks :: IsBlock(b))
    && doc == preamble + Flat(blocks)
  }

  datatype Parts = Parts(preamble: seq<string>, blocks: seq<Block>)

  /** One more line. */
  function Extend(p: Parts, line: string): Parts {
    if IsHeading(line) then Parts(p.preamble, p.blocks + [[line]])
    else if p.blocks == [] then Parts(p.preamble + [line], [])
    else
      var n := |p.blocks| - 1;
      Parts(p.preamble, p.blocks[..n] + [p.blocks[n] + [line]])
  }

  function Split(doc: seq<string>): Parts {
    if doc == [] then Parts([], [])
    else Extend(Split(doc[..|doc| - 1]), doc[|doc| - 1])
  }

  lemma FlatOne(blocks: seq<Block>, b: Block)
    ensures Flat(blocks + [b]) == Flat(blocks) + b
  {
    assert (blocks + [b])[..|blocks|] == blocks;
  }

  /** Joining the parts gives the text back. */
  lemma {:induction false} SplitJoins(doc: seq<string>)
    ensures IsSplit(doc, Split(doc).preamble, Split(doc).blocks)
  {
    if doc != [] {
      var front, line := doc[..|doc| - 1], doc[|doc| - 1];
      assert doc == front + [line];
      SplitJoins(front);
      ExtendJoins(front, Split(front), line);
    }
  }

  lemma ExtendJoins(front: seq<string>, p: Parts, line: string)
    requires IsSplit(front, p.preamble, p.blocks)
    ensures IsSplit(front + [line], Extend(p, line).preamble, Extend(p, line).blocks)
  {
    hide IsHeading, Flat;
    if IsHeading(line) {
      FlatOne(p.blocks, [line]);
    } else if p.blocks != [] {
      var n := |p.blocks| - 1;
      var last := p.blocks[n];
      assert last in p.blocks && forall b <- p.blocks[..n] :: b in p.blocks;
      assert p.blocks == p.blocks[..n] + [last];
      FlatOne(p.blocks[..n], last);
      FlatOne(p.blocks[..n], last + [line]);
    } else {
      NoBlocks();
    }
  }

  lemma NoBlocks()
    ensures Flat([]) == []
  {}

  lemma SplitOneMore(doc: seq<string>, line: string)
    ensures Split(doc + [line]) == Extend(Split(doc), line)
  {
    assert (doc + [line])[..|doc|] == doc;
  }

  /** There is only one way to split a text. */
  lemma {:induction false} SplitIsUnique(preamble: seq<string>, blocks: seq<Block>)
    requires Plain(preamble) && forall b <- blocks :: IsBlock(b)
    ensures Split(preamble + Flat(blocks)) == Parts(preamble, blocks)
    decreases |preamble| + |Flat(blocks)|, |blocks|
  {
    hide Split;
    if blocks == [] {
      SplitPreamble(preamble);
    } else {
      var n := |blocks| - 1;
      var front, last := blocks[..n], blocks[n];
      assert blocks == front + [last];
      assert last in blocks && forall b <- front :: b in blocks;
      FlatOne(front, last);
      SplitBlock(preamble, front, last);
    }
  }

  lemma {:induction false} SplitPreamble(preamble: seq<string>)
    requires Plain(preamble)
    ensures Split(preamble + Flat([])) == Parts(preamble, [])
  {
    hide Split;
    assert Flat([]) == [] && preamble + [] == preamble;
    if preamble == [] {
      SplitNothing();
    } else {
      var front, line := preamble[..|preamble| - 1], preamble[|preamble| - 1];
      assert preamble == front + [line] && line in preamble;
      SplitPreamble(front);
      assert front + [] == front;
      SplitOneMore(front, line);
    }
  }

  lemma SplitNothing()
    ensures Split([]) == Parts([], [])
  {}

  lemma {:induction false} SplitBlock(preamble: seq<string>, front: seq<Block>, last: Block)
    requires Plain(preamble) && IsBlock(last) && forall b <- front :: IsBlock(b)
    ensures Split(preamble + Flat(front + [last])) == Parts(preamble, front + [last])
    decreases |preamble| + |Flat(front)| + |last|, |front|
  {
    hide Split, IsHeading;
    var shorter, line := last[..|last| - 1], last[|last| - 1];
    assert last == shorter + [line];
    FlatOne(front, last);
    if shorter == [] {
      SplitIsUnique(preamble, front);
      assert last == [line];
      assert preamble + (Flat(front) + last) == (preamble + Flat(front)) + [line];
      SplitOneMore(preamble + Flat(front), line);
    } else {
      SplitBlock(preamble, front, shorter);
      FlatOne(front, shorter);
      assert preamble + (Flat(front) + last) == (preamble + (Flat(front) + shorter)) + [line];
      SplitOneMore(preamble + Flat(front + [shorter]), line);
      assert (front + [shorter])[..|front|] == front;
    }
  }

  /** The offsets of the headings, then the slices between them. */
  method SplitEntries(doc: seq<string>) returns (preamble: seq<string>, blocks: seq<Block>)
    ensures IsSplit(doc, preamble, blocks)
    ensures Parts(preamble, blocks) == Split(doc)
  {
    hide IsHeading, Flat, Split, AreHeadings, IsBlock, Plain;
    var positions: seq<nat> := [];
    NoPositions();
    NoBlocks();
    for i := 0 to |doc|
      invariant AreHeadings(doc[..i], positions)
    {
      assert doc[..i + 1] == doc[..i] + [doc[i]];
      HeadingsOneMore(doc[..i], positions, doc[i]);
      if IsHeading(doc[i]) {
        positions := positions + [i];
      }
    }
    assert doc[..|doc|] == doc;
    blocks := [];
    if positions == [] {
      preamble := doc;
      NoHeadingIsPlain(doc);
    } else {
      NoneBefore(doc, positions);
      preamble := doc[..positions[0]];
      assert preamble + Flat(blocks) == preamble;
      for i := 0 to |positions|
        invariant forall b <- blocks :: IsBlock(b)
        invariant var at := if i < |positions| then positions[i] else |doc|; at <= |doc| && preamble + Flat(blocks) == doc[..at]
      {
        var start := positions[i];
        var end := if i + 1 < |positions| then positions[i + 1] else |doc|;
        NoneBetween(doc, positions, i);
        assert doc[..start] + doc[start..end] == doc[..end];
        FlatOne(blocks, doc[start..end]);
        blocks := blocks + [doc[start..end]];
      }
    }
    SplitIsUnique(preamble, blocks);
  }

  ghost predicate AreHeadings(doc: seq<string>, positions: seq<nat>) {
    && (forall p <- positions :: p < |doc| && IsHeading(doc[p]))
    && (forall k, m :: 0 <= k < m < |positions| ==> positions[k] < positions[m])
    && (forall p :: 0 <= p < |doc| && IsHeading(doc[p]) ==> p in positions)
  }

  lemma NoPositions()
    ensures AreHeadings([], [])
  {}

  lemma NoHeadingIsPlain(doc: seq<string>)
    requires AreHeadings(doc, [])
    ensures Plain(doc)
  {}

  lemma NoneBefore(doc: seq<string>, positions: seq<nat>)
    requires AreHeadings(doc, positions) && positions != []
    ensures positions[0] < |doc| && Plain(doc[..positions[0]])
  {
    assert positions[0] in positions;
  }

  lemma NoneBetween(doc: seq<string>, positions: seq<nat>, i: nat)
    requires AreHeadings(doc, positions) && i < |positions|
    ensures var start, end := positions[i], if i + 1 < |positions| then positions[i + 1] else |doc|;
            start < end <= |doc| && IsBlock(doc[start..end])
  {
    var start, end := positions[i], if i + 1 < |positions| then positions[i + 1] else |doc|;
    assert positions[i] in positions;
    assert i + 1 < |positions| ==> positions[i + 1] in positions;
    forall p | p in positions
      ensures p <= start || end <= p
    {
      var k :| 0 <= k < |positions| && positions[k] == p;
    }
  }

  lemma HeadingsOneMore(doc: seq<string>, positions: seq<nat>, line: string)
    requires AreHeadings(doc, positions)
    ensures AreHeadings(doc + [line], if IsHeading(line) then positions + [|doc|] else positions)
  {
    var more := if IsHeading(line) then positions + [|doc|] else positions;
    forall k, m | 0 <= k < m < |more|
      ensures more[k] < more[m]
    {
      assert more[k] == positions[k] && positions[k] in positions;
    }
    assert forall p <- positions :: p in more && (doc + [line])[p] == doc[p];
    assert IsHeading(line) ==> more[|positions|] == |doc|;
  }
}
