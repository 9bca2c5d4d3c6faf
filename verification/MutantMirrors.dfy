/** The record of mutants: every row is whole, every active one is anchored in its file and paired with a mirror. */
module MutantMirrors {
  import opened Options
  import opened Text
  import opened MutantAnchors
  import opened MutantReasons
  import opened MutantPaths

  /** What a row says about its edit. */
  datatype Edit = Edit(
    language: Option<string>, file: Option<string>, property: Option<string>, reason: Option<string>,
    line: Option<int>, before: Option<string>, after: Option<string>,
    killers: Option<seq<string>>, suite: Option<string>, package: Option<string>, summary: Option<string>)

  /** One row of the record as parsed: any field may be missing or of another type. */
  datatype Item = Other | Row(id: Option<string>, status: Option<string>, mirror: Option<string>, edit: Edit)

  datatype Error =
    | NotAnObject(index: nat)
    | MissingId(index: nat)
    | DuplicateId(id: string, first: nat, index: nat)
    | BadStatus(id: string)
    | BadLanguage(id: string)
    | MissingText(id: string)
    | MissingReason(id: string)
    | BadLine(id: string)
    | MissingAfter(id: string)
    | MissingBefore(id: string)
    | NoChange(id: string)
    | BadKillers(id: string)
    | MissingSuite(id: string)
    | MissingPackage(id: string)
    | OutsideRepository(id: string)
    | MissingSummary(id: string)
    | MirrorsItself(id: string)
    | NoSuchMirror(id: string)
    | MirrorNotActive(id: string)
    | MirrorPointsElsewhere(id: string)
    | NoSuchFile(id: string)
    | NotAnchored(id: string, why: Located)
    | ReasonNamesNothing(id: string, named: string)
    | ReasonNamesRetired(id: string, named: string)

  predicate Filled(s: Option<string>) {
    s.Some? && s.value != ""
  }

  predicate IsActive(r: Item) {
    r.Row? && r.status == Some("active")
  }

  predicate KnownStatus(r: Item) {
    r.Row? && (r.status == Some("active") || r.status == Some("retired"))
  }

  /** The rows that say which id, in order; a later row replaces an earlier one of the same id. */
  function ById(items: seq<Item>): map<string, Item> {
    if items == [] then map[]
    else
      var rest, r := ById(items[..|items| - 1]), items[|items| - 1];
      if r.Row? && r.id.Some? then rest[r.id.value := r] else rest
  }

  // ------------------------------------------------------------------
  // What a sound record is
  // ------------------------------------------------------------------

  /** A deletion, or an edit that spans lines: the table cannot show it. */
  predicate NeedsSummary(e: Edit) {
    e.before.Some? && e.after.Some? && (e.after.value == "" || '\n' in e.before.value || '\n' in e.after.value)
  }

  /** What an active row's edit must be. */
  predicate EditWhole(e: Edit) {
    && e.line.Some? && e.line.value >= 1
    && Filled(e.before) && e.after.Some? && e.before != e.after
    && e.killers.Some? && e.killers.value != [] && "" !in e.killers.value
    && (e.language == Some("py") ==> Filled(e.suite)) && (e.language == Some("go") ==> Filled(e.package))
    && (e.file.Some? ==> Inside(e.file.value))
    && (NeedsSummary(e) ==> Filled(e.summary))
  }

  predicate RowShaped(r: Item) {
    && r.Row? && Filled(r.id) && KnownStatus(r)
    && (r.edit.language == Some("py") || r.edit.language == Some("go"))
    && Filled(r.edit.file) && Filled(r.edit.property) && Filled(r.mirror)
    && if r.status == Some("retired") then Filled(r.edit.reason) else EditWhole(r.edit)
  }

  predicate DistinctIds(items: seq<Item>) {
    forall i, j :: 0 <= i < j < |items| && items[i].Row? && items[j].Row? && Filled(items[i].id)
                   ==> items[i].id != items[j].id
  }

  /** Two active rows that name each other. */
  predicate Pair(a: Item, b: Item) {
    IsActive(a) && IsActive(b) && a.id != b.id && a.mirror == b.id && b.mirror == a.id
  }

  predicate HasPair(items: seq<Item>, a: Item) {
    exists b <- items :: Pair(a, b)
  }

  /** Exactly one occurrence of the row's `before` text begins on its line of its file. */
  ghost predicate Anchored(r: Item, files: map<string, string>)
    requires r.Row? && RowShaped(r) && IsActive(r)
  {
    var e := r.edit;
    e.file.value in files
    && exists pos :: BeginsOn(files[e.file.value], e.line.value, e.before.value, pos) && OnlyOne(files[e.file.value], e.line.value, e.before.value, pos)
  }

  /** The ids of the rows. */
  function IdsOf(items: seq<Item>): set<string> {
    set r | r in items && r.Row? && r.id.Some? :: r.id.value
  }

  predicate HasActive(items: seq<Item>, id: string) {
    exists r <- items :: IsActive(r) && r.id == Some(id)
  }

  /** Every mutant that a retired row's reason names is an active one. */
  predicate ReasonHolds(r: Item, items: seq<Item>)
    requires RowShaped(r)
  {
    r.status == Some("retired") ==> forall id <- NamedIn(r.edit.reason.value, IdsOf(items), r.id.value) :: HasActive(items, id)
  }

  /**
   * Every row is whole, no two share an id, retired rows name active ones only, and every active row is anchored in its file and
   * has a partner: the active rows come in pairs that name each other.
   */
  ghost predicate Sound(items: seq<Item>, files: map<string, string>) {
    && (forall r <- items :: RowShaped(r))
    && DistinctIds(items)
    && (forall r <- items :: RowHolds(r, items, files))
  }

  /** What a whole row needs of the others and of its file. */
  ghost predicate RowHolds(r: Item, items: seq<Item>, files: map<string, string>)
    requires RowShaped(r)
  {
    ReasonHolds(r, items) && (IsActive(r) ==> HasPair(items, r) && Anchored(r, files))
  }

  // ------------------------------------------------------------------
  // The checks
  // ------------------------------------------------------------------

  function When(fault: bool, e: Error): seq<Error> {
    if fault then [e] else []
  }

  /** The structural errors of one row. */
  function ShapeErrors(r: Item, index: nat, seen: map<string, nat>): seq<Error> {
    if r.Other? then [NotAnObject(index)]
    else if !Filled(r.id) then [MissingId(index)]
    else
      (if r.id.value in seen then [DuplicateId(r.id.value, seen[r.id.value], index)] else [])
      + (if !KnownStatus(r) then [BadStatus(r.id.value)] else RowErrors(r.id.value, r))
  }

  function RowErrors(id: string, r: Item): seq<Error>
    requires r.Row?
  {
    When(r.edit.language != Some("py") && r.edit.language != Some("go"), BadLanguage(id))
    + When(!(Filled(r.edit.file) && Filled(r.edit.property) && Filled(r.mirror)), MissingText(id))
    + (if r.status == Some("retired") then When(!Filled(r.edit.reason), MissingReason(id)) else EditErrors(id, r.edit))
  }

  /** The errors of an active row's edit. */
  function EditErrors(id: string, e: Edit): seq<Error> {
    TextErrors(id, e) + RunErrors(id, e)
  }

  function TextErrors(id: string, e: Edit): seq<Error> {
    When(!(e.line.Some? && e.line.value >= 1), BadLine(id))
    + When(e.after.None?, MissingAfter(id))
    + When(!Filled(e.before), MissingBefore(id))
    + When(e.before.Some? && e.before == e.after, NoChange(id))
  }

  function RunErrors(id: string, e: Edit): seq<Error> {
    When(!(e.killers.Some? && e.killers.value != [] && "" !in e.killers.value), BadKillers(id))
    + When(e.language == Some("py") && !Filled(e.suite), MissingSuite(id))
    + When(e.language == Some("go") && !Filled(e.package), MissingPackage(id))
    + When(e.file.Some? && !Inside(e.file.value), OutsideRepository(id))
    + When(NeedsSummary(e) && !Filled(e.summary), MissingSummary(id))
  }

  lemma EditErrorsIff(id: string, e: Edit)
    ensures EditErrors(id, e) == [] <==> EditWhole(e)
  {
    hide Inside, NeedsSummary;
  }

  /** A row has no structural error exactly when it is whole and its id is new. */
  lemma ShapeErrorsIff(r: Item, index: nat, seen: map<string, nat>)
    ensures ShapeErrors(r, index, seen) == [] <==> RowShaped(r) && r.id.value !in seen
  {
    hide EditErrors, EditWhole;
    if r.Row? && Filled(r.id) {
      EditErrorsIff(r.id.value, r.edit);
    }
  }

  /** What `locate` needs of a row. */
  predicate AnchorFieldsOk(e: Edit) {
    Filled(e.before) && e.line.Some? && e.line.value >= 1
  }

  /** The active row's file is missing, or its text is not where the row says. */
  ghost predicate AnchorFault(e: Error, r: Item, files: map<string, string>) {
    && IsActive(r) && r.id.Some? && r.edit.file.Some?
    && match e
       case NoSuchFile(id) => r.id == Some(id) && r.edit.file.value !in files
       case NotAnchored(id, why) =>
         && r.id == Some(id) && r.edit.file.value in files && r.edit.line.Some? && r.edit.before.Some?
         && WhyNot(why, files[r.edit.file.value], r.edit.line.value, r.edit.before.value)
       case _ => false
  }

  /** The anchor check of one row; a row that other checks refuse is passed over. */
  method AnchorErrors(r: Item, files: map<string, string>) returns (errors: seq<Error>)
    ensures RowShaped(r) && IsActive(r) ==> (errors == [] <==> Anchored(r, files))
    ensures !IsActive(r) ==> errors == []
    ensures forall e <- errors :: AnchorFault(e, r, files)
  {
    hide Components, EditErrors;
    errors := [];
    if IsActive(r) && r.id.Some? && r.edit.file.Some? && Inside(r.edit.file.value) {
      var path := r.edit.file.value;
      if path !in files {
        return [NoSuchFile(r.id.value)];
      }
      if AnchorFieldsOk(r.edit) {
        var found := Locate(files[path], r.edit.line.value, r.edit.before.value);
        if !found.At? {
          return [NotAnchored(r.id.value, found)];
        }
      }
    }
  }

  /** The mirror errors of one row. */
  function MirrorErrors(r: Item, byId: map<string, Item>): seq<Error> {
    if !(IsActive(r) && r.id.Some?) then []
    else if r.mirror == r.id then [MirrorsItself(r.id.value)]
    else if r.mirror.None? || r.mirror.value !in byId then [NoSuchMirror(r.id.value)]
    else
      var target := byId[r.mirror.value];
      if !IsActive(target) then [MirrorNotActive(r.id.value)]
      else if target.mirror != r.id then [MirrorPointsElsewhere(r.id.value)]
      else []
  }

  // ------------------------------------------------------------------
  // What an error tells
  // ------------------------------------------------------------------

  predicate Named(r: Item, id: string) {
    r.Row? && r.id == Some(id)
  }

  predicate Retired(r: Item, id: string) {
    Named(r, id) && r.status == Some("retired")
  }

  predicate Active(r: Item, id: string) {
    Named(r, id) && r.status == Some("active")
  }

  predicate Judged(r: Item, id: string) {
    Retired(r, id) || Active(r, id)
  }

  /** The last row with the id, which is the one a name stands for, has the property. */
  ghost predicate LastRow(items: seq<Item>, id: string, property: Item -> bool) {
    exists j ::
      && 0 <= j < |items| && Named(items[j], id) && property(items[j])
      && forall k :: j < k < |items| ==> !Named(items[k], id)
  }

  predicate NoRow(items: seq<Item>, id: string) {
    forall r <- items :: !Named(r, id)
  }

  /** The fault that an error about an active row's edit names. */
  ghost predicate EditFault(e: Error, id: string, d: Edit) {
    match e
    case BadLine(n) => n == id && (d.line.None? || d.line.value < 1)
    case MissingAfter(n) => n == id && d.after.None?
    case MissingBefore(n) => n == id && !Filled(d.before)
    case NoChange(n) => n == id && d.before.Some? && d.after == d.before
    case BadKillers(n) => n == id && (d.killers.None? || d.killers.value == [] || "" in d.killers.value)
    case MissingSuite(n) => n == id && d.language == Some("py") && !Filled(d.suite)
    case MissingPackage(n) => n == id && d.language == Some("go") && !Filled(d.package)
    case OutsideRepository(n) => n == id && d.file.Some? && LeavesRepository(d.file.value)
    case MissingSummary(n) => n == id && NeedsSummary(d) && !Filled(d.summary)
    case _ => false
  }

  /** The fault that an error about any row's fields names. */
  predicate FieldFault(e: Error, r: Item) {
    match e
    case BadStatus(id) => Named(r, id) && r.status !in {Some("active"), Some("retired")}
    case BadLanguage(id) => Judged(r, id) && r.edit.language !in {Some("py"), Some("go")}
    case MissingText(id) => Judged(r, id) && (!Filled(r.edit.file) || !Filled(r.edit.property) || !Filled(r.mirror))
    case MissingReason(id) => Retired(r, id) && !Filled(r.edit.reason)
    case _ => false
  }

  /** The fault of row i among the others that an error names. */
  ghost predicate MirrorFault(e: Error, items: seq<Item>, r: Item) {
    match e
    case MirrorsItself(id) => Active(r, id) && r.mirror == Some(id)
    case NoSuchMirror(id) => Active(r, id) && (r.mirror.None? || NoRow(items, r.mirror.value))
    case MirrorNotActive(id) => Active(r, id) && r.mirror.Some? && LastRow(items, r.mirror.value, (x: Item) => x.Row? && x.status != Some("active"))
    case MirrorPointsElsewhere(id) => Active(r, id) && r.mirror.Some? && LastRow(items, r.mirror.value, (x: Item) => x.Row? && x.mirror != Some(id))
    case ReasonNamesNothing(id, named) => Retired(r, id) && Mentions(r, items, named) && NoRow(items, named)
    case ReasonNamesRetired(id, named) =>
      Retired(r, id) && Mentions(r, items, named) && LastRow(items, named, (x: Item) => x.Row? && x.status != Some("active"))
    case _ => false
  }

  /** The fault that an error about row i names. */
  ghost predicate Fault(e: Error, items: seq<Item>, i: nat, files: map<string, string>)
    requires i < |items|
  {
    var r := items[i];
    match e
    case NotAnObject(index) => index == i && r.Other?
    case MissingId(index) => index == i && r.Row? && (r.id == None || r.id == Some(""))
    case DuplicateId(id, first, index) =>
      && index == i && first < i && Named(r, id) && Named(items[first], id)
      && forall j :: 0 <= j < first ==> !Named(items[j], id)
    case _ =>
      || FieldFault(e, r) || MirrorFault(e, items, r) || AnchorFault(e, r, files)
      || (IsActive(r) && r.id.Some? && EditFault(e, r.id.value, r.edit))
  }

  ghost predicate Mentions(r: Item, items: seq<Item>, named: string)
    requires r.Row?
  {
    r.edit.reason.Some? && r.id.Some? && named in NamedIn(r.edit.reason.value, IdsOf(items), r.id.value)
  }

  /** The index at which each id was first seen. */
  predicate SeenFirst(seen: map<string, nat>, items: seq<Item>) {
    && (forall id <- seen :: id != "" && seen[id] < |items| && items[seen[id]].Row? && items[seen[id]].id == Some(id))
    && (forall i :: 0 <= i < |items| && items[i].Row? && Filled(items[i].id) ==> items[i].id.value in seen && seen[items[i].id.value] <= i)
  }

  lemma {:induction false} ByIdNamesRows(items: seq<Item>, id: string)
    requires id in ById(items)
    ensures ById(items)[id] in items && ById(items)[id].Row? && ById(items)[id].id == Some(id)
  {
    var front, r := items[..|items| - 1], items[|items| - 1];
    if !(r.Row? && r.id == Some(id)) {
      ByIdNamesRows(front, id);
    }
  }

  lemma {:induction false} ByIdFindsRows(items: seq<Item>, i: nat)
    requires DistinctIds(items) && i < |items| && items[i].Row? && Filled(items[i].id)
    ensures items[i].id.value in ById(items) && ById(items)[items[i].id.value] == items[i]
  {
    var front := items[..|items| - 1];
    if i < |front| {
      assert front[i] == items[i];
      ByIdFindsRows(front, i);
    }
  }

  /** A row has no mirror error exactly when some row of the record is its pair. */
  lemma NoMirrorError(items: seq<Item>, r: Item)
    requires DistinctIds(items) && r in items && RowShaped(r)
    ensures MirrorErrors(r, ById(items)) == [] <==> (IsActive(r) ==> HasPair(items, r))
  {
    hide ById, DistinctIds;
    if IsActive(r) {
      var byId := ById(items);
      if MirrorErrors(r, byId) == [] {
        ByIdNamesRows(items, r.mirror.value);
        assert Pair(r, byId[r.mirror.value]);
      }
      if HasPair(items, r) {
        var b :| b in items && Pair(r, b);
        var j :| 0 <= j < |items| && items[j] == b;
        ByIdFindsRows(items, j);
      }
    }
  }

  /** The retired row's reason names an id that has no row, or none that is active. */
  predicate ReasonFault(e: Error, r: Item, byId: map<string, Item>) {
    && r.Row? && r.id.Some? && r.status == Some("retired") && r.edit.reason.Some?
    && (e.ReasonNamesNothing? || e.ReasonNamesRetired?)
    && e.id == r.id.value && e.named in NamedIn(r.edit.reason.value, byId.Keys, r.id.value)
    && if e.ReasonNamesNothing? then e.named !in byId else e.named in byId && !IsActive(byId[e.named])
  }

  /** The errors of a retired row's reason. */
  method ReasonErrors(r: Item, byId: map<string, Item>) returns (errors: seq<Error>)
    ensures r.Row? && r.id.Some? && r.status == Some("retired") && r.edit.reason.Some? ==>
              (errors == [] <==> forall id <- NamedIn(r.edit.reason.value, byId.Keys, r.id.value) :: id in byId && IsActive(byId[id]))
    ensures r.Row? && r.status != Some("retired") ==> errors == []
    ensures forall e <- errors :: ReasonFault(e, r, byId)
  {
    errors := [];
    if r.Row? && r.id.Some? && r.status == Some("retired") && r.edit.reason.Some? {
      var named := NamedIn(r.edit.reason.value, byId.Keys, r.id.value);
      var todo := named;
      while todo != {}
        invariant todo <= named
        invariant errors == [] <==> forall id <- named - todo :: id in byId && IsActive(byId[id])
        invariant forall e <- errors :: ReasonFault(e, r, byId)
      {
        var id :| id in todo;
        todo := todo - {id};
        if id !in byId {
          errors := errors + [ReasonNamesNothing(r.id.value, id)];
        } else if !IsActive(byId[id]) {
          errors := errors + [ReasonNamesRetired(r.id.value, id)];
        }
      }
    }
  }

  lemma {:induction false} ByIdKeys(items: seq<Item>)
    ensures ById(items).Keys == IdsOf(items)
  {
    if items != [] {
      var front, r := items[..|items| - 1], items[|items| - 1];
      assert items == front + [r];
      ByIdKeys(front);
      assert r in items;
    }
  }

  /** The row that is looked up is active exactly when some active row has the id. */
  lemma ActiveById(items: seq<Item>, id: string)
    requires DistinctIds(items) && forall r <- items :: RowShaped(r)
    ensures (id in ById(items) && IsActive(ById(items)[id])) <==> HasActive(items, id)
  {
    hide ById, RowShaped, DistinctIds;
    if id in ById(items) {
      ByIdNamesRows(items, id);
    }
    if r :| r in items && IsActive(r) && r.id == Some(id) {
      var i :| 0 <= i < |items| && items[i] == r;
      ShapedHasId(r);
      ByIdFindsRows(items, i);
    }
  }

  /** A retired row's reason holds exactly when every id it names is looked up as an active row. */
  lemma ReasonHoldsIff(r: Item, items: seq<Item>)
    requires DistinctIds(items) && r in items && forall x <- items :: RowShaped(x)
    ensures r.Row? && r.id.Some? && (r.status == Some("retired") ==> r.edit.reason.Some?)
    ensures r.status == Some("retired") ==>
              (ReasonHolds(r, items) <==>
                forall id <- NamedIn(r.edit.reason.value, ById(items).Keys, r.id.value) :: id in ById(items) && IsActive(ById(items)[id]))
  {
    hide ById, DistinctIds, NamedIn, HasActive, EditWhole;
    ByIdKeys(items);
    if r.status == Some("retired") {
      forall id
        ensures (id in ById(items) && IsActive(ById(items)[id])) <==> HasActive(items, id)
      {
        ActiveById(items, id);
      }
    }
  }

  /** The record check reports nothing exactly when the record is sound. */
  method CheckRecord(items: seq<Item>, files: map<string, string>) returns (errors: seq<Error>)
    ensures errors == [] <==> Sound(items, files)
    ensures forall e <- errors :: IsTold(e, items, files)
  {
    hide ById, MirrorErrors, HasPair, ShapeErrors, RowShaped, DistinctIds, SeenFirst, Anchored, ReasonHolds, RowHolds, NamedIn, Fault,
      AnchorFault, ReasonFault;
    errors := [];
    NothingSeen();
    var seen: map<string, nat> := map[];
    for i := 0 to |items|
      invariant SeenFirst(seen, items[..i])
      invariant errors == [] <==> (forall r <- items[..i] :: RowShaped(r)) && DistinctIds(items[..i])
      invariant forall e <- errors :: IsTold(e, items, files)
    {
      var r := items[i];
      ShapeFaults(items, i, seen, files);
      OneMoreRow(items[..i], r, seen);
      assert items[..i] + [r] == items[..i + 1];
      errors := errors + ShapeErrors(r, i, seen);
      if r.Row? && Filled(r.id) && r.id.value !in seen {
        seen := seen[r.id.value := i];
      }
    }
    assert items[..|items|] == items;
    ghost var shaped := errors == [];
    assert shaped <==> (forall r <- items :: RowShaped(r)) && DistinctIds(items);
    var byId := ById(items);
    for i := 0 to |items|
      invariant errors == [] ==> shaped
      invariant shaped ==> (errors == [] <==> forall r <- items[..i] :: RowHolds(r, items, files))
      invariant forall e <- errors :: IsTold(e, items, files)
    {
      var reason := ReasonErrors(items[i], byId);
      var anchor := AnchorErrors(items[i], files);
      RowFaults(items, i, files, reason, anchor);
      if shaped {
        RowErrorsIff(items, files, items[i], reason, anchor);
      }
      assert forall r :: r in items[..i + 1] <==> r in items[..i] || r == items[i];
      errors := errors + (reason + MirrorErrors(items[i], byId) + anchor);
    }
  }

  /** Some row has the fault that the error names. */
  ghost predicate IsTold(e: Error, items: seq<Item>, files: map<string, string>) {
    exists i :: 0 <= i < |items| && Fault(e, items, i, files)
  }

  ghost predicate All(errors: seq<Error>, tells: Error -> bool) {
    forall e <- errors :: tells(e)
  }

  lemma AllWhen(fault: bool, e: Error, tells: Error -> bool)
    requires fault ==> tells(e)
    ensures All(When(fault, e), tells)
  {}

  lemma AllSum(a: seq<Error>, b: seq<Error>, tells: Error -> bool)
    requires All(a, tells) && All(b, tells)
    ensures All(a + b, tells)
  {}

  lemma TextFaults(id: string, d: Edit)
    ensures All(TextErrors(id, d), e => EditFault(e, id, d))
  {
    hide LeavesRepository, NeedsSummary, All, When;
    var tells := e => EditFault(e, id, d);
    var a, b, c, f := When(!(d.line.Some? && d.line.value >= 1), BadLine(id)), When(d.after.None?, MissingAfter(id)),
      When(!Filled(d.before), MissingBefore(id)), When(d.before.Some? && d.before == d.after, NoChange(id));
    AllWhen(!(d.line.Some? && d.line.value >= 1), BadLine(id), tells);
    AllWhen(d.after.None?, MissingAfter(id), tells);
    AllWhen(!Filled(d.before), MissingBefore(id), tells);
    AllWhen(d.before.Some? && d.before == d.after, NoChange(id), tells);
    AllSum(a, b, tells);
    AllSum(a + b, c, tells);
    AllSum(a + b + c, f, tells);
  }

  lemma RunFaults(id: string, d: Edit)
    ensures All(RunErrors(id, d), e => EditFault(e, id, d))
  {
    hide Inside, LeavesRepository, NeedsSummary, All, When;
    var tells := e => EditFault(e, id, d);
    var noKillers := !(d.killers.Some? && d.killers.value != [] && "" !in d.killers.value);
    var outside := d.file.Some? && !Inside(d.file.value);
    if d.file.Some? {
      InsideIff(d.file.value);
    }
    var a, b, c := When(noKillers, BadKillers(id)), When(d.language == Some("py") && !Filled(d.suite), MissingSuite(id)),
      When(d.language == Some("go") && !Filled(d.package), MissingPackage(id));
    var f, g := When(outside, OutsideRepository(id)), When(NeedsSummary(d) && !Filled(d.summary), MissingSummary(id));
    AllWhen(noKillers, BadKillers(id), tells);
    AllWhen(d.language == Some("py") && !Filled(d.suite), MissingSuite(id), tells);
    AllWhen(d.language == Some("go") && !Filled(d.package), MissingPackage(id), tells);
    AllWhen(outside, OutsideRepository(id), tells);
    AllWhen(NeedsSummary(d) && !Filled(d.summary), MissingSummary(id), tells);
    AllSum(a, b, tells);
    AllSum(a + b, c, tells);
    AllSum(a + b + c, f, tells);
    AllSum(a + b + c + f, g, tells);
  }

  lemma EditFaults(id: string, d: Edit)
    ensures All(EditErrors(id, d), e => EditFault(e, id, d))
  {
    hide TextErrors, RunErrors, EditFault, All;
    TextFaults(id, d);
    RunFaults(id, d);
    AllSum(TextErrors(id, d), RunErrors(id, d), e => EditFault(e, id, d));
  }

  /** The fault of one row, in its fields or its edit. */
  ghost predicate OwnFault(e: Error, r: Item) {
    FieldFault(e, r) || (IsActive(r) && r.id.Some? && EditFault(e, r.id.value, r.edit))
  }

  lemma RowFieldFaults(r: Item)
    requires KnownStatus(r) && r.id.Some?
    ensures All(RowErrors(r.id.value, r), e => OwnFault(e, r))
  {
    hide EditErrors, EditFault, All, When, Filled;
    var id, tells := r.id.value, e => OwnFault(e, r);
    var noLanguage := r.edit.language != Some("py") && r.edit.language != Some("go");
    var noText := !(Filled(r.edit.file) && Filled(r.edit.property) && Filled(r.mirror));
    AllWhen(noLanguage, BadLanguage(id), tells);
    AllWhen(noText, MissingText(id), tells);
    var a, b := When(noLanguage, BadLanguage(id)), When(noText, MissingText(id));
    AllSum(a, b, tells);
    if r.status == Some("retired") {
      AllWhen(!Filled(r.edit.reason), MissingReason(id), tells);
      AllSum(a + b, When(!Filled(r.edit.reason), MissingReason(id)), tells);
    } else {
      EditFaults(id, r.edit);
      AllWeaker(EditErrors(id, r.edit), e => EditFault(e, id, r.edit), tells);
      AllSum(a + b, EditErrors(id, r.edit), tells);
    }
  }

  lemma AllWeaker(errors: seq<Error>, tells: Error -> bool, more: Error -> bool)
    requires All(errors, tells) && forall e :: tells(e) ==> more(e)
    ensures All(errors, more)
  {}

  /** The structural errors of a row name its faults. */
  lemma ShapeFaults(items: seq<Item>, i: nat, seen: map<string, nat>, files: map<string, string>)
    requires i < |items| && SeenFirst(seen, items[..i])
    ensures All(ShapeErrors(items[i], i, seen), e => Fault(e, items, i, files))
  {
    hide RowErrors, SeenFirst, OwnFault;
    var r := items[i];
    if r.Row? && Filled(r.id) {
      var id := r.id.value;
      if id in seen {
        FirstOfId(items, i, seen, id);
      }
      var rows := if !KnownStatus(r) then [BadStatus(id)] else RowErrors(id, r);
      if KnownStatus(r) {
        RowFieldFaults(r);
      } else {
        StatusFault(r);
      }
      OwnFaults(items, i, files, rows);
      AllSum(if id in seen then [DuplicateId(id, seen[id], i)] else [], rows, e => Fault(e, items, i, files));
    }
  }

  lemma StatusFault(r: Item)
    requires r.Row? && r.id.Some? && !KnownStatus(r)
    ensures OwnFault(BadStatus(r.id.value), r)
  {
    hide EditFault;
  }

  /** A fault in a row's own fields is none of those about the rows' order. */
  lemma OwnFaults(items: seq<Item>, i: nat, files: map<string, string>, errors: seq<Error>)
    requires i < |items| && All(errors, e => OwnFault(e, items[i]))
    ensures All(errors, e => Fault(e, items, i, files))
  {
    hide MirrorFault, AnchorFault;
  }

  lemma FirstOfId(items: seq<Item>, i: nat, seen: map<string, nat>, id: string)
    requires i < |items| && SeenFirst(seen, items[..i]) && id in seen
    ensures seen[id] < i && Named(items[seen[id]], id) && forall j :: 0 <= j < seen[id] ==> !Named(items[j], id)
  {
    assert forall j :: 0 <= j < i ==> items[..i][j] == items[j];
  }

  lemma {:induction false} ByIdIsLast(items: seq<Item>, id: string)
    ensures id !in ById(items) <==> NoRow(items, id)
    ensures id in ById(items) ==>
              exists j :: 0 <= j < |items| && Named(items[j], id) && items[j] == ById(items)[id]
                && forall k :: j < k < |items| ==> !Named(items[k], id)
  {
    if items != [] {
      var n := |items| - 1;
      var front := items[..n];
      assert items == front + [items[n]];
      ByIdIsLast(front, id);
      assert items[n] in items && forall r <- front :: r in items;
      if Named(items[n], id) {
        assert items[n] == ById(items)[id];
      } else if id in ById(front) {
        var j :| 0 <= j < n && Named(front[j], id) && front[j] == ById(front)[id] && forall k :: j < k < n ==> !Named(front[k], id);
        assert items[j] == front[j] && forall k :: j < k < n ==> items[k] == front[k];
      }
    }
  }

  lemma LastRowIs(items: seq<Item>, id: string, property: Item -> bool)
    requires id in ById(items) && property(ById(items)[id])
    ensures LastRow(items, id, property)
  {
    hide ById;
    ByIdIsLast(items, id);
  }

  lemma MirrorFaults(items: seq<Item>, i: nat, files: map<string, string>)
    requires i < |items|
    ensures forall e <- MirrorErrors(items[i], ById(items)) :: Fault(e, items, i, files)
  {
    hide ById, LastRow, NoRow;
    var r := items[i];
    if IsActive(r) && r.id.Some? && r.mirror.Some? && r.mirror != r.id {
      var m := r.mirror.value;
      ByIdIsLast(items, m);
      if m in ById(items) {
        ByIdNamesRows(items, m);
        if !IsActive(ById(items)[m]) {
          LastRowIs(items, m, (x: Item) => x.Row? && x.status != Some("active"));
        } else if ById(items)[m].mirror != r.id {
          LastRowIs(items, m, (x: Item) => x.Row? && x.mirror != Some(r.id.value));
        }
      }
    }
  }

  lemma ReasonIsFault(items: seq<Item>, i: nat, files: map<string, string>, e: Error)
    requires i < |items| && ReasonFault(e, items[i], ById(items))
    ensures Fault(e, items, i, files)
  {
    hide ById, LastRow, NoRow, NamedIn, AnchorFault, FieldFault, EditFault;
    if e.ReasonNamesNothing? {
      NothingNamed(items, items[i], e);
    } else {
      RetiredNamed(items, items[i], e);
    }
  }

  lemma NothingNamed(items: seq<Item>, r: Item, e: Error)
    requires e.ReasonNamesNothing? && ReasonFault(e, r, ById(items))
    ensures MirrorFault(e, items, r)
  {
    hide ById, LastRow, NoRow, NamedIn;
    ByIdKeys(items);
    ByIdIsLast(items, e.named);
  }

  lemma RetiredNamed(items: seq<Item>, r: Item, e: Error)
    requires e.ReasonNamesRetired? && ReasonFault(e, r, ById(items))
    ensures MirrorFault(e, items, r)
  {
    hide ById, LastRow, NoRow, NamedIn;
    ByIdKeys(items);
    ByIdNamesRows(items, e.named);
    LastRowIs(items, e.named, (x: Item) => x.Row? && x.status != Some("active"));
  }

  lemma RowFaults(items: seq<Item>, i: nat, files: map<string, string>, reason: seq<Error>, anchor: seq<Error>)
    requires i < |items|
    requires forall e <- reason :: ReasonFault(e, items[i], ById(items))
    requires forall e <- anchor :: AnchorFault(e, items[i], files)
    ensures forall e <- reason + MirrorErrors(items[i], ById(items)) + anchor :: IsTold(e, items, files)
  {
    hide ReasonFault, AnchorFault, ById, MirrorErrors, Fault;
    MirrorFaults(items, i, files);
    forall e | e in reason
      ensures Fault(e, items, i, files)
    {
      ReasonIsFault(items, i, files, e);
    }
    forall e | e in anchor
      ensures Fault(e, items, i, files)
    {
      AnchorIsFault(items, i, files, e);
    }
  }

  lemma AnchorIsFault(items: seq<Item>, i: nat, files: map<string, string>, e: Error)
    requires i < |items| && AnchorFault(e, items[i], files)
    ensures Fault(e, items, i, files)
  {
    hide WhyNot;
  }

  /** A row has no error exactly when it holds. */
  lemma RowErrorsIff(items: seq<Item>, files: map<string, string>, r: Item, reason: seq<Error>, anchor: seq<Error>)
    requires DistinctIds(items) && r in items && forall x <- items :: RowShaped(x)
    requires r.Row? && r.id.Some? && r.status == Some("retired") && r.edit.reason.Some? ==>
               (reason == [] <==>
                 forall id <- NamedIn(r.edit.reason.value, ById(items).Keys, r.id.value) :: id in ById(items) && IsActive(ById(items)[id]))
    requires r.Row? && r.status != Some("retired") ==> reason == []
    requires IsActive(r) ==> (anchor == [] <==> Anchored(r, files))
    requires !IsActive(r) ==> anchor == []
    ensures reason + MirrorErrors(r, ById(items)) + anchor == [] <==> RowHolds(r, items, files)
  {
    hide ById, DistinctIds, NamedIn, MirrorErrors, HasPair, Anchored, ReasonHolds, RowShaped;
    NoMirrorError(items, r);
    ReasonHoldsIff(r, items);
    OnlyRetired(r, items);
  }

  lemma OnlyRetired(r: Item, items: seq<Item>)
    requires RowShaped(r)
    ensures r.status != Some("retired") ==> ReasonHolds(r, items)
    ensures IsActive(r) ==> r.status != Some("retired")
  {}

  lemma NothingSeen()
    ensures SeenFirst(map[], []) && DistinctIds([])
  {}

  lemma ShapedHasId(r: Item)
    ensures RowShaped(r) ==> r.Row? && Filled(r.id)
  {}

  lemma OneMoreRow(items: seq<Item>, r: Item, seen: map<string, nat>)
    requires SeenFirst(seen, items)
    ensures DistinctIds(items) && (forall x <- items :: RowShaped(x)) && ShapeErrors(r, |items|, seen) == [] ==>
              (forall x <- items + [r] :: RowShaped(x)) && DistinctIds(items + [r])
    ensures (forall x <- items + [r] :: RowShaped(x)) && DistinctIds(items + [r]) ==>
              (forall x <- items :: RowShaped(x)) && DistinctIds(items) && ShapeErrors(r, |items|, seen) == []
    ensures SeenFirst(if r.Row? && Filled(r.id) && r.id.value !in seen then seen[r.id.value := |items|] else seen, items + [r])
  {
    hide ShapeErrors, RowShaped;
    ShapeErrorsIff(r, |items|, seen);
    ShapedHasId(r);
    var more := items + [r];
    assert more[|items|] == r && r in more;
    assert forall i :: 0 <= i < |items| ==> more[i] == items[i];
    assert forall x <- items :: x in more;
  }

  // ------------------------------------------------------------------
  // Mirrors as an involution
  // ------------------------------------------------------------------

  function ActiveIds(items: seq<Item>): set<string> {
    set r | r in items && IsActive(r) && r.id.Some? :: r.id.value
  }

  /** The mirror that the record gives an id. */
  function MirrorOf(items: seq<Item>): map<string, string> {
    map id | id in ById(items) && ById(items)[id].Row? && ById(items)[id].mirror.Some? :: ById(items)[id].mirror.value
  }

  predicate Involution(f: map<string, string>, ids: set<string>) {
    forall id <- ids :: MirrorsBack(f, ids, id)
  }

  predicate MirrorsBack(f: map<string, string>, ids: set<string>, id: string) {
    id in f && f[id] in ids && f[id] != id && f[id] in f && f[f[id]] == id
  }

  /** In a sound record, mirror is a fixed-point-free involution on the active ids. */
  lemma MirrorIsAnInvolution(items: seq<Item>, files: map<string, string>)
    requires Sound(items, files)
    ensures Involution(MirrorOf(items), ActiveIds(items))
  {
    forall id | id in ActiveIds(items)
      ensures MirrorsBack(MirrorOf(items), ActiveIds(items), id)
    {
      var i :| 0 <= i < |items| && IsActive(items[i]) && items[i].id == Some(id);
      RowMirrorsBack(items, files, i);
    }
  }

  lemma RowMirrorsBack(items: seq<Item>, files: map<string, string>, i: nat)
    requires Sound(items, files) && i < |items| && IsActive(items[i]) && items[i].id.Some?
    ensures MirrorsBack(MirrorOf(items), ActiveIds(items), items[i].id.value)
  {
    hide ById;
    assert items[i] in items;
    var b :| b in items && Pair(items[i], b);
    var j :| 0 <= j < |items| && items[j] == b;
    ByIdFindsRows(items, i);
    ByIdFindsRows(items, j);
  }

  lemma {:induction false} PairedIsEven(f: map<string, string>, ids: set<string>)
    requires Involution(f, ids)
    ensures |ids| % 2 == 0
    decreases |ids|
  {
    if ids != {} {
      var id :| id in ids;
      var pair := {id, f[id]};
      var rest := ids - pair;
      PairedIsEven(f, rest);
      assert |pair| == 2;
      assert |rest| == |ids| - 2;
    }
  }

  /** The number of active rows: one per active id. */
  function ActiveCount(items: seq<Item>): nat {
    if items == [] then 0
    else ActiveCount(items[..|items| - 1]) + (if IsActive(items[|items| - 1]) then 1 else 0)
  }

  lemma {:induction false} OneRowPerId(items: seq<Item>)
    requires DistinctIds(items) && forall r <- items :: RowShaped(r)
    ensures ActiveCount(items) == |ActiveIds(items)|
  {
    if items != [] {
      var front, r := items[..|items| - 1], items[|items| - 1];
      assert items == front + [r];
      OneRowPerId(front);
      if IsActive(r) {
        NotYetListed(front, r);
        assert ActiveIds(items) == ActiveIds(front) + {r.id.value};
      } else {
        assert ActiveIds(items) == ActiveIds(front);
      }
    }
  }

  lemma NotYetListed(front: seq<Item>, r: Item)
    requires DistinctIds(front + [r]) && RowShaped(r) && forall x <- front :: RowShaped(x)
    ensures r.id.value !in ActiveIds(front)
  {
    var items := front + [r];
    forall i | 0 <= i < |front|
      ensures front[i].Row? && front[i].id != r.id
    {
      assert front[i] in front;
      assert items[i] == front[i] && items[|front|] == r;
    }
  }

  /** A record the check accepts has an even number of active mutants. */
  lemma ActiveRowsAreEven(items: seq<Item>, files: map<string, string>)
    requires Sound(items, files)
    ensures ActiveCount(items) % 2 == 0
  {
    MirrorIsAnInvolution(items, files);
    PairedIsEven(MirrorOf(items), ActiveIds(items));
    OneRowPerId(items);
  }

  // ------------------------------------------------------------------
  // Planting the mutants of a record
  // ------------------------------------------------------------------

  /**
   * Every active mutant of an accepted record can be planted in one way only, and the planted
   * file differs from the original in the window alone.
   */
  lemma AcceptedMutantsPlant(items: seq<Item>, files: map<string, string>, r: Item) returns (pos: nat)
    requires Sound(items, files) && r in items && IsActive(r)
    ensures var e := r.edit;
            && e.file.Some? && e.file.value in files && e.line.Some? && e.before.Some? && e.after.Some?
            && var text := files[e.file.value];
               && BeginsOn(text, e.line.value, e.before.value, pos) && OnlyOne(text, e.line.value, e.before.value, pos)
               && Plant(text, pos, e.before.value, e.after.value) != text
               && Plant(Plant(text, pos, e.before.value, e.after.value), pos, e.after.value, e.before.value) == text
  {
    hide Inside, NeedsSummary, Plant, BeginsOn, OnlyOne;
    var e := r.edit;
    var text := files[e.file.value];
    var p :| BeginsOn(text, e.line.value, e.before.value, p) && OnlyOne(text, e.line.value, e.before.value, p);
    BeginsInside(text, e.line.value, e.before.value, p);
    pos := p;
    PlantIsOneEdit(text, e.line.value, pos, e.before.value, e.after.value);
  }

  lemma BeginsInside(text: string, line: int, before: string, pos: int)
    requires BeginsOn(text, line, before, pos)
    ensures 0 <= pos && OccursAt(text, before, pos)
  {}
}
