/** Exporting the findings twice: what the second export finds to do. */
module FindingsRepeat {
  import opened Options
  import opened Text
  import opened ReconcileText
  import opened FindingsBlocks
  import opened FindingsFields
  import opened FindingsExport
  import opened FindingsKeys

  // ------------------------------------------------------------------
  // Entries that a finding leaves as they are
  // ------------------------------------------------------------------

  /** The entry's decision lines, and its disposition line if the finding has one, are the finding's. */
  predicate SaysAll(b: Block, f: Finding) {
    && SaysDecision(b, f)
    && (Disposition(f) != "" ==> FirstAt(b, DISPOSITION).Some? && Says(b, DISPOSITION, Disposition(f)))
  }

  lemma RewriteSaysAll(b: Block, f: Finding, last: bool)
    requires IsStatus(f.status)
    ensures SaysAll(Rewrite(b, f, last), f)
  {
    hide FirstAt, Says, Disposition, DecisionLines, WithDisposition;
    DecisionLinesSay(b, f);
    DispositionSays(DecisionLines(b, f), f, last);
  }

  /** A rewrite changes nothing exactly when the entry already says all of it. */
  lemma RewriteFixedIff(b: Block, f: Finding, last: bool)
    requires IsStatus(f.status)
    ensures Rewrite(b, f, last) == b <==> SaysAll(b, f)
  {
    hide FirstAt, Says, Disposition, SubFirst, Append, DecisionLines;
    RewriteSaysAll(b, f, last);
    if SaysAll(b, f) {
      SaidIsFixed(b, f);
      if Disposition(f) != "" {
        SaysStays(b, DISPOSITION, Disposition(f));
      }
    }
  }

  // ------------------------------------------------------------------
  // What a rewritten entry says to another finding
  // ------------------------------------------------------------------

  /**
   * Finding g has nothing to change in an entry without a Status line that was rewritten for f:
   * the lines the entry has are the same for both, and g's disposition is the one that stands.
   */
  predicate AgreeOn(b: Block, f: Finding, g: Finding) {
    && (FirstAt(b, APPROVER).Some? ==> ApproverLine(f) == ApproverLine(g))
    && (FirstAt(b, DATE).Some? ==> DateLine(f) == DateLine(g))
    && (|| Disposition(g) == ""
        || (if Disposition(f) != "" then Disposition(f) == Disposition(g)
            else FirstAt(b, DISPOSITION).Some? && Says(b, DISPOSITION, Disposition(g))))
  }

  /** What decision lines do to the lines of another kind. */
  lemma DecisionLinesKeep(b: Block, f: Finding, said: string)
    requires IsStatus(f.status)
    ensures var d := DecisionLines(b, f);
            && FirstAt(d, DISPOSITION) == FirstAt(b, DISPOSITION) && Says(d, DISPOSITION, said) == Says(b, DISPOSITION, said)
            && FirstAt(d, STATUS) == FirstAt(b, STATUS)
            && FirstAt(d, APPROVER) == FirstAt(b, APPROVER) && FirstAt(d, DATE) == FirstAt(b, DATE)
  {
    hide FirstAt, Says, Apart, Disposition, StatusLine, ApproverLine, DateLine, SubFirst;
    LinesHavePrefixes(f);
    PrefixesApart();
    var s := SubFirst(b, STATUS, StatusLine(f));
    var a := SubFirst(s, APPROVER, ApproverLine(f));
    SubSays(b, STATUS, StatusLine(f));
    SubSays(s, APPROVER, ApproverLine(f));
    SubSays(a, DATE, DateLine(f));
    SubKeepsSays(s, STATUS, said, APPROVER, ApproverLine(f));
    SubKeepsSays(a, STATUS, said, DATE, DateLine(f));
    SubKeepsSays(b, APPROVER, said, STATUS, StatusLine(f));
    SubKeepsSays(a, APPROVER, said, DATE, DateLine(f));
    SubKeepsSays(b, DATE, said, STATUS, StatusLine(f));
    SubKeepsSays(s, DATE, said, APPROVER, ApproverLine(f));
    SubKeepsSays(b, DISPOSITION, said, STATUS, StatusLine(f));
    SubKeepsSays(s, DISPOSITION, said, APPROVER, ApproverLine(f));
    SubKeepsSays(a, DISPOSITION, said, DATE, DateLine(f));
  }

  lemma DispositionKeeps(b: Block, f: Finding, last: bool, prefix: string)
    requires IsStatus(f.status) && prefix in {STATUS, APPROVER, DATE}
    ensures FirstAt(WithDisposition(b, f, last), prefix) == FirstAt(b, prefix)
  {
    hide FirstAt, Says, Apart, Disposition, StatusLine, ApproverLine, DateLine, SubFirst, Append;
    LinesHavePrefixes(f);
    PrefixesApart();
    var d := Disposition(f);
    if d != "" {
      ApartLines(DISPOSITION, prefix, d);
      SubKeepsSays(b, prefix, "", DISPOSITION, d);
      AppendKeepsSays(b, prefix, "", d, last);
    }
  }

  lemma RewriteKeepsFirsts(b: Block, f: Finding, last: bool, said: string)
    requires IsStatus(f.status)
    ensures var r := Rewrite(b, f, last);
            && FirstAt(r, STATUS) == FirstAt(b, STATUS) && FirstAt(r, APPROVER) == FirstAt(b, APPROVER) && FirstAt(r, DATE) == FirstAt(b, DATE)
            && (Disposition(f) == "" ==> FirstAt(r, DISPOSITION) == FirstAt(b, DISPOSITION) && Says(r, DISPOSITION, said) == Says(b, DISPOSITION, said))
  {
    hide FirstAt, Says, Disposition, DecisionLines, SubFirst, Append;
    var d := DecisionLines(b, f);
    DecisionLinesKeep(b, f, said);
    DispositionKeeps(d, f, last, STATUS);
    DispositionKeeps(d, f, last, APPROVER);
    DispositionKeeps(d, f, last, DATE);
  }

  lemma TwoFindings(b: Block, f: Finding, g: Finding, last: bool)
    requires IsStatus(f.status) && IsStatus(g.status) && FirstAt(b, STATUS).None?
    ensures Rewrite(Rewrite(b, f, last), g, last) == Rewrite(b, f, last) <==> AgreeOn(b, f, g)
  {
    hide FirstAt, Disposition, Rewrite, StatusLine, ApproverLine, DateLine;
    var r := Rewrite(b, f, last);
    RewriteFixedIff(r, g, last);
    RewriteSaysAll(b, f, last);
    RewriteKeepsFirsts(b, f, last, Disposition(g));
  }

  // ------------------------------------------------------------------
  // One entry, exported twice
  // ------------------------------------------------------------------

  /** The decided finding of a key, if there is one. */
  function FindingNamed(key: Option<Key>, decided: Decided): Option<Finding> {
    if key.Some? then decided(key.value) else None
  }

  /**
   * What must hold of an entry before the first export. If it has no Status line and its
   * finding's lines are still to be written, the finding that its next key names, if any, has
   * nothing to change in what is then there.
   */
  predicate Steady(b: Block, decided: Decided) {
    var f := FindingOf(b, decided);
    f.Some? && FirstAt(b, STATUS).None? && !SaysAll(b, f.value) ==>
      var g := FindingNamed(NextKey(b, f.value), decided);
      g.Some? ==> AgreeOn(b, f.value, g.value)
  }

  /** An entry without a Status line is rewritten exactly when a decided finding has lines to write in it. */
  lemma RewrittenIff(b: Block, decided: Decided, last: bool)
    requires FirstAt(b, STATUS).None? && forall k :: decided(k).Some? ==> IsStatus(decided(k).value.status)
    ensures VerdictOn(b, decided, last) == Rewritten <==> FindingOf(b, decided).Some? && !SaysAll(b, FindingOf(b, decided).value)
  {
    hide Rewrite, BlockKey, FirstAt, SaysAll;
    if FindingOf(b, decided).Some? {
      assert decided(BlockKey(b).value).Some?;
      var f := FindingOf(b, decided).value;
      NotProposed(f);
      RewriteFixedIff(b, f, last);
    }
  }

  lemma SteadyIff(b: Block, decided: Decided, last: bool)
    requires IsBlock(b) && forall k :: decided(k).Some? ==> IsStatus(decided(k).value.status)
    ensures Steady(b, decided) <==> NewBlock(NewBlock(b, decided, last), decided, last) == NewBlock(b, decided, last)
    ensures Steady(b, decided) <==> VerdictOn(NewBlock(b, decided, last), decided, last) != Rewritten
  {
    hide Rewrite, BlockKey, FirstAt, Says, SaysAll, StatusLine, AgreeOn, NextKey, IsBlock;
    if FirstAt(b, STATUS).None? {
      RewrittenIff(b, decided, last);
    }
    if VerdictOn(b, decided, last) == Rewritten {
      assert decided(BlockKey(b).value).Some?;
      RewrittenSteadyIff(b, FindingOf(b, decided).value, decided, last);
    }
  }

  lemma RewrittenSteadyIff(b: Block, f: Finding, decided: Decided, last: bool)
    requires IsBlock(b) && VerdictOn(b, decided, last) == Rewritten && FindingOf(b, decided) == Some(f) && IsStatus(f.status)
    requires forall k :: decided(k).Some? ==> IsStatus(decided(k).value.status)
    ensures Steady(b, decided) <==> VerdictOn(Rewrite(b, f, last), decided, last) != Rewritten
    ensures VerdictOn(Rewrite(b, f, last), decided, last) == Rewritten <==>
              NewBlock(Rewrite(b, f, last), decided, last) != Rewrite(b, f, last)
  {
    hide Rewrite, BlockKey, FirstAt, Says, SaysAll, StatusLine, AgreeOn, NextKey, IsBlock;
    var r := Rewrite(b, f, last);
    RewriteTwice(b, f, last);
    NextKeyIs(b, f, last);
    if FirstAt(b, STATUS).Some? {
      StatusReadsBack(r, f);
      NotProposed(f);
    } else {
      RewrittenIff(b, decided, last);
      if FindingOf(r, decided).Some? {
        var g := FindingOf(r, decided).value;
        assert decided(BlockKey(r).value).Some?;
        TwoFindings(b, f, g, last);
        NotProposed(g);
      }
    }
  }

  /**
   * What the second export says of a rewritten entry with a Status line. It reports a conflict
   * exactly when the entry now has the key of a finding with another status.
   */
  lemma SecondVerdict(b: Block, decided: Decided, last: bool)
    requires VerdictOn(b, decided, last) == Rewritten && FirstAt(b, STATUS).Some?
    requires forall k :: decided(k).Some? ==> IsStatus(decided(k).value.status)
    ensures var f, r := FindingOf(b, decided).value, NewBlock(b, decided, last);
            VerdictOn(r, decided, last) == match FindingOf(r, decided) {
                                             case None => Undecided
                                             case Some(g) => if g.status == f.status then Current else Conflict
                                           }
  {
    hide Rewrite, BlockKey, FirstAt, Says, StatusLine;
    assert decided(BlockKey(b).value).Some?;
    var f := FindingOf(b, decided).value;
    RewriteTwice(b, f, last);
    StatusReadsBack(Rewrite(b, f, last), f);
    NotProposed(f);
  }

  lemma NotProposed(f: Finding)
    requires IsStatus(f.status)
    ensures f.status != PROPOSED
  {}

  // ------------------------------------------------------------------
  // A ledger, exported twice
  // ------------------------------------------------------------------

  /** From the ledger before the first export: the second changes nothing exactly when every entry is steady. */
  lemma SecondExportIff(doc: seq<string>, decided: Decided)
    requires forall k :: decided(k).Some? ==> IsStatus(decided(k).value.status)
    ensures Export(Export(doc, decided), decided) == Export(doc, decided) <==> forall b <- Split(doc).blocks :: Steady(b, decided)
  {
    hide Split, Rewrite, BlockKey, MdStatus, VerdictOn, NewBlock, Steady, IsBlock;
    SplitJoins(doc);
    NewBlocksSplit(doc, decided);
    NewBlocksSplit(Export(doc, decided), decided);
    var preamble, blocks := Split(doc).preamble, Split(doc).blocks;
    var once := NewBlocks(blocks, decided);
    var twice := NewBlocks(once, decided);
    forall i | 0 <= i < |blocks|
      ensures Steady(blocks[i], decided) <==> twice[i] == once[i]
    {
      assert blocks[i] in blocks;
      SteadyIff(blocks[i], decided, i == |blocks| - 1);
    }
    assert twice == once <==> forall i :: 0 <= i < |blocks| ==> Steady(blocks[i], decided);
    assert Export(doc, decided) == preamble + Flat(once);
    assert Export(Export(doc, decided), decided) == preamble + Flat(twice);
  }

  /**
   * When every entry that is rewritten has a Status line, a second export over the result
   * rewrites nothing, whatever becomes of the entries' keys.
   */
  lemma ExportIsIdempotent(doc: seq<string>, decided: Decided)
    requires forall k :: decided(k).Some? ==> IsStatus(decided(k).value.status)
    requires var blocks := Split(doc).blocks;
             forall i :: 0 <= i < |blocks| && VerdictOn(blocks[i], decided, i == |blocks| - 1) == Rewritten ==> FirstAt(blocks[i], STATUS).Some?
    ensures Export(Export(doc, decided), decided) == Export(doc, decided)
    ensures var blocks := Split(Export(doc, decided)).blocks;
            forall i :: 0 <= i < |blocks| ==> VerdictOn(blocks[i], decided, i == |blocks| - 1) != Rewritten
  {
    hide Split, Rewrite, BlockKey, MdStatus, VerdictOn, NewBlock, FirstAt, SaysAll, NextKey, AgreeOn, IsBlock;
    SplitJoins(doc);
    NewBlocksSplit(doc, decided);
    var blocks := Split(doc).blocks;
    forall i | 0 <= i < |blocks|
      ensures Steady(blocks[i], decided)
      ensures VerdictOn(NewBlocks(blocks, decided)[i], decided, i == |blocks| - 1) != Rewritten
    {
      assert blocks[i] in blocks;
      if FirstAt(blocks[i], STATUS).None? {
        RewrittenIff(blocks[i], decided, i == |blocks| - 1);
      }
      SteadyIff(blocks[i], decided, i == |blocks| - 1);
    }
    SecondExportIff(doc, decided);
  }
}
