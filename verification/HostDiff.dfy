/** The upgrade diff of a host surface: how every name of the predecessor and of the current manifest is accounted for. */
module HostDiff {
  import opened Wrappers
  import Json
  import opened Texts
  import opened Ordering
  import opened Defaults
  import opened HostDefaults

  datatype Coverage = Supported | RuntimeOwned | Unsupported

  datatype Item = Item(
    name: string,
    coverage: Coverage,
    mapped: Option<string>,
    consumer: Option<string>,
    renamedFrom: Option<string>,
    testRef: Option<string>,
    capability: Option<string>,
    valueType: ValueType,
    enumValues: seq<string>,
    default: HostDefault)

  datatype LegacyItem = LegacyItem(name: string, coverage: Coverage)

  datatype Predecessor = NoPredecessor | Legacy(legacy: seq<LegacyItem>) | Current(items: seq<Item>)

  datatype Manifest = Manifest(items: seq<Item>, retired: seq<string>)

  datatype Rename = Rename(source: string, target: string)

  datatype Diff = Diff(
    added: seq<string>,
    removed: seq<string>,
    renamed: seq<Rename>,
    typeChanged: seq<string>,
    enumChanged: seq<string>,
    defaultChanged: seq<string>,
    mappingChanged: seq<string>,
    legacyUntyped: seq<string>)

  /** Reviews both defaults and compares them; none when one of them cannot be reviewed. */
  type Comparer = (Item, Item) -> Option<bool>

  // ---- the predecessor, by name ----

  function TypedItems(items: seq<Item>): (m: map<string, Item>)
    ensures forall name :: name in m <==> exists i :: 0 <= i < |items| && items[i].name == name
    ensures forall name :: name in m ==> m[name].name == name && m[name] in items
  {
    if items == [] then map[]
    else
      assert items == items[..|items| - 1] + [items[|items| - 1]];
      TypedItems(items[..|items| - 1])[items[|items| - 1].name := items[|items| - 1]]
  }

  function LegacyItems(items: seq<LegacyItem>): (m: map<string, LegacyItem>)
    ensures forall name :: name in m <==> exists i :: 0 <= i < |items| && items[i].name == name
  {
    if items == [] then map[]
    else
      assert items == items[..|items| - 1] + [items[|items| - 1]];
      LegacyItems(items[..|items| - 1])[items[|items| - 1].name := items[|items| - 1]]
  }

  datatype Context = Context(
    typed: map<string, Item>,
    legacy: map<string, LegacyItem>,
    previous: seq<string>,
    currentNames: set<string>,
    retired: set<string>)
  {
    predicate WasThere(name: string) {
      name in typed || name in legacy
    }
  }

  function NameSet(items: seq<Item>): set<string> {
    set i | 0 <= i < |items| :: items[i].name
  }

  function TextSet(texts: seq<string>): set<string> {
    set x | x in texts
  }

  /** The names of the predecessor, in order. */
  function PreviousNames(predecessor: Predecessor): (r: seq<string>) {
    match predecessor
    case NoPredecessor => []
    case Legacy(items) => Ordered(seq(|items|, i requires 0 <= i < |items| => items[i].name))
    case Current(items) => Ordered(seq(|items|, i requires 0 <= i < |items| => items[i].name))
  }

  function ContextOf(current: Manifest, predecessor: Predecessor): Context {
    Context(if predecessor.Current? then TypedItems(predecessor.items) else map[],
            if predecessor.Legacy? then LegacyItems(predecessor.legacy) else map[],
            PreviousNames(predecessor), NameSet(current.items), TextSet(current.retired))
  }

  lemma PreviousAreThere(current: Manifest, predecessor: Predecessor)
    ensures var c := ContextOf(current, predecessor); forall name :: name in c.previous <==> c.WasThere(name)
    ensures Distinct(PreviousNames(predecessor))
  {
    hide Ordered;
    match predecessor
    case NoPredecessor =>
    case Legacy(items) =>
      var names := seq(|items|, i requires 0 <= i < |items| => items[i].name);
      OrderedSorted(names);
      assert forall i :: 0 <= i < |items| ==> names[i] == items[i].name;
    case Current(items) =>
      var names := seq(|items|, i requires 0 <= i < |items| => items[i].name);
      OrderedSorted(names);
      assert forall i :: 0 <= i < |items| ==> names[i] == items[i].name;
  }

  // ---- one item ----

  /** A rename that may be recorded, given the sources renamed so far. */
  predicate RenameOk(c: Context, item: Item, renamed: set<string>)
    requires item.renamedFrom.Some?
  {
    var source := item.renamedFrom.value;
    && c.WasThere(source) && source !in c.currentNames && source !in c.retired
    && !c.WasThere(item.name) && source !in renamed
  }

  function PreviousName(item: Item): string {
    if item.renamedFrom.Some? then item.renamedFrom.value else item.name
  }

  predicate TypeChanged(was: Item, item: Item) {
    was.valueType != item.valueType
  }

  predicate EnumChanged(was: Item, item: Item) {
    was.enumValues != item.enumValues
  }

  predicate MappingChanged(was: Item, item: Item) {
    was.mapped != item.mapped || was.consumer != item.consumer || was.capability != item.capability
  }

  predicate BlankText(s: Option<string>) {
    s.None? || forall i :: 0 <= i < |s.value| ==> WhiteSpace(s.value[i])
  }

  /** What the walk over the items has gathered. */
  datatype Walked = Walked(renamed: set<string>, diff: Diff)

  function If(b: bool, name: string): seq<string> {
    if b then [name] else []
  }

  function Renames(item: Item): seq<Rename> {
    if item.renamedFrom.Some? then [Rename(item.renamedFrom.value, item.name)] else []
  }

  function StepItem(c: Context, w: Walked, item: Item, same: Comparer): Result<Walked> {
    if item.renamedFrom.Some? && !RenameOk(c, item, w.renamed) then Err(Invalid)
    else
      var d := w.diff.(renamed := w.diff.renamed + Renames(item));
      var renamed := if item.renamedFrom.Some? then w.renamed + {item.renamedFrom.value} else w.renamed;
      var name := PreviousName(item);
      if name in c.typed then
        var was := c.typed[name];
        if same(was, item).None? then Err(Invalid)
        else if was.coverage == Supported && item.coverage == Supported
                && (item.renamedFrom.Some? || TypeChanged(was, item) || EnumChanged(was, item)
                    || !same(was, item).value || MappingChanged(was, item))
                && was.testRef == item.testRef then Err(Invalid)
        else
          Ok(Walked(renamed, d.(typeChanged := d.typeChanged + If(TypeChanged(was, item), item.name),
                                enumChanged := d.enumChanged + If(EnumChanged(was, item), item.name),
                                defaultChanged := d.defaultChanged + If(!same(was, item).value, item.name),
                                mappingChanged := d.mappingChanged + If(MappingChanged(was, item), item.name))))
      else if name in c.legacy then
        if c.legacy[name].coverage == Supported && item.coverage == Supported && BlankText(item.testRef) then Err(Invalid)
        else Ok(Walked(renamed, d.(legacyUntyped := d.legacyUntyped + [item.name])))
      else Ok(Walked(renamed, d.(added := d.added + [item.name])))
  }

  const NO_DIFF := Diff([], [], [], [], [], [], [], [])

  function Walk(c: Context, items: seq<Item>, same: Comparer): Result<Walked> {
    if items == [] then Ok(Walked({}, NO_DIFF))
    else
      var before := Walk(c, items[..|items| - 1], same);
      if before.Err? then before else StepItem(c, before.value, items[|items| - 1], same)
  }

  lemma {:induction false} WalkFails(c: Context, items: seq<Item>, same: Comparer, k: nat)
    requires k <= |items| && Walk(c, items[..k], same).Err?
    ensures Walk(c, items, same).Err?
    decreases |items|
  {
    hide StepItem;
    if k < |items| {
      assert items[..|items| - 1][..k] == items[..k];
      WalkFails(c, items[..|items| - 1], same, k);
    } else {
      assert items[..k] == items;
    }
  }

  // ---- sorting ----

  function SortTexts(xs: seq<string>): (r: seq<string>)
    ensures |r| == |xs|
  {
    if xs == [] then []
    else
      var front, x := SortTexts(xs[..|xs| - 1]), xs[|xs| - 1];
      Json.InsertAt(front, Json.Slot(front, x), x)
  }

  lemma InsertCounts<T>(s: seq<T>, i: nat, x: T)
    requires i <= |s|
    ensures multiset(Json.InsertAt(s, i, x)) == multiset(s) + multiset{x}
  {
    assert s == s[..i] + s[i..];
  }

  lemma LastCounts<T>(s: seq<T>)
    requires s != []
    ensures multiset(s) == multiset(s[..|s| - 1]) + multiset{s[|s| - 1]}
  {
    assert s == s[..|s| - 1] + [s[|s| - 1]];
  }

  lemma SameCounts<T>(a: seq<T>, b: seq<T>)
    requires multiset(a) == multiset(b)
    ensures forall x :: x in a <==> x in b
  {
    assert forall x :: x in a <==> x in multiset(a);
    assert forall x :: x in b <==> x in multiset(b);
  }

  /** Sorting keeps every text as often as it was there. */
  lemma {:induction false} SortMembers(xs: seq<string>)
    ensures multiset(SortTexts(xs)) == multiset(xs)
    ensures forall x :: x in SortTexts(xs) <==> x in xs
  {
    hide Json.InsertAt, Json.Slot;
    if xs != [] {
      var n := |xs| - 1;
      SortMembers(xs[..n]);
      var front := SortTexts(xs[..n]);
      InsertCounts(front, Json.Slot(front, xs[n]), xs[n]);
      LastCounts(xs);
    }
    SameCounts(SortTexts(xs), xs);
  }

  predicate RenameLess(a: Rename, b: Rename) {
    Less(a.source, b.source) || (a.source == b.source && Less(a.target, b.target))
  }

  function RenameSlot(rs: seq<Rename>, r: Rename): (i: nat)
    ensures i <= |rs|
  {
    if rs == [] || !RenameLess(rs[0], r) then 0 else RenameSlot(rs[1..], r) + 1
  }

  function SortRenames(rs: seq<Rename>): (r: seq<Rename>)
    ensures |r| == |rs|
  {
    if rs == [] then []
    else
      var front, x := SortRenames(rs[..|rs| - 1]), rs[|rs| - 1];
      Json.InsertAt(front, RenameSlot(front, x), x)
  }

  lemma {:induction false} RenameMembers(rs: seq<Rename>)
    ensures multiset(SortRenames(rs)) == multiset(rs)
    ensures forall r :: r in SortRenames(rs) <==> r in rs
  {
    hide Json.InsertAt, RenameSlot;
    if rs != [] {
      var n := |rs| - 1;
      RenameMembers(rs[..n]);
      var front := SortRenames(rs[..n]);
      InsertCounts(front, RenameSlot(front, rs[n]), rs[n]);
      LastCounts(rs);
    }
    SameCounts(SortRenames(rs), rs);
  }

  function SortedDiff(d: Diff): Diff {
    Diff(SortTexts(d.added), SortTexts(d.removed), SortRenames(d.renamed), SortTexts(d.typeChanged),
         SortTexts(d.enumChanged), SortTexts(d.defaultChanged), SortTexts(d.mappingChanged), SortTexts(d.legacyUntyped))
  }

  // ---- the whole diff ----

  /** A name that is gone: neither kept nor renamed. */
  predicate Gone(c: Context, renamed: set<string>, name: string) {
    name !in c.currentNames && name !in renamed
  }

  function Removed(names: seq<string>, c: Context, renamed: set<string>): (r: seq<string>)
    ensures forall x :: x in r <==> x in names && Gone(c, renamed, x)
  {
    if names == [] then []
    else
      assert names == names[..|names| - 1] + [names[|names| - 1]];
      var front, last := Removed(names[..|names| - 1], c, renamed), names[|names| - 1];
      if Gone(c, renamed, last) then front + [last] else front
  }

  /** Every name that is gone was retired. */
  predicate GoneRetired(names: seq<string>, c: Context, renamed: set<string>) {
    forall i :: 0 <= i < |names| && Gone(c, renamed, names[i]) ==> names[i] in c.retired
  }

  /** Every retired name was there, and is gone. */
  predicate RetiredGone(c: Context, renamed: set<string>) {
    forall name :: name in c.retired ==> c.WasThere(name) && Gone(c, renamed, name)
  }

  function UpgradeDiff(current: Manifest, predecessor: Predecessor, same: Comparer): Result<Diff> {
    var c := ContextOf(current, predecessor);
    var walked := Walk(c, current.items, same);
    if walked.Err? then Err(walked.error)
    else
      var w := walked.value;
      if !GoneRetired(c.previous, c, w.renamed) || !RetiredGone(c, w.renamed) then Err(Invalid)
      else Ok(SortedDiff(w.diff.(removed := Removed(c.previous, c, w.renamed))))
  }

  method HostSurfaceUpgradeDiff(current: Manifest, predecessor: Predecessor, same: Comparer) returns (r: Result<Diff>)
    ensures r.Ok? <==> UpgradeDiff(current, predecessor, same).Ok?
    ensures r.Ok? ==> r == UpgradeDiff(current, predecessor, same)
  {
    hide StepItem, SortedDiff, RetiredGone, GoneRetired, Removed, ContextOf;
    var c := ContextOf(current, predecessor);
    var renamed: set<string> := {};
    var diff := NO_DIFF;
    for k := 0 to |current.items|
      invariant Walk(c, current.items[..k], same) == Ok(Walked(renamed, diff))
    {
      assert current.items[..k + 1][..k] == current.items[..k] && current.items[..k + 1][k] == current.items[k];
      var step := WalkItem(c, renamed, diff, current.items[k], same);
      if step.Err? {
        WalkFails(c, current.items, same, k + 1);
        return Err(step.error);
      }
      renamed, diff := step.value.renamed, step.value.diff;
    }
    assert current.items[..|current.items|] == current.items;
    var removed := RemoveGone(c, renamed);
    if removed.Err? {
      return Err(removed.error);
    }
    if !RetiredGone(c, renamed) {
      return Err(Invalid);
    }
    return Ok(SortedDiff(diff.(removed := removed.value)));
  }

  /** Lists the names that are gone; each must have been retired. */
  method RemoveGone(c: Context, renamed: set<string>) returns (r: Result<seq<string>>)
    ensures r == if GoneRetired(c.previous, c, renamed) then Ok(Removed(c.previous, c, renamed)) else Err(Invalid)
  {
    var removed: seq<string> := [];
    var names := c.previous;
    for k := 0 to |names|
      invariant removed == Removed(names[..k], c, renamed)
      invariant forall i :: 0 <= i < k && Gone(c, renamed, names[i]) ==> names[i] in c.retired
    {
      assert names[..k + 1][..k] == names[..k] && names[..k + 1][k] == names[k];
      if names[k] !in c.currentNames && names[k] !in renamed {
        if names[k] !in c.retired {
          return Err(Invalid);
        }
        removed := removed + [names[k]];
      }
    }
    assert names[..|names|] == names;
    return Ok(removed);
  }

  /** One item of the loop: records its rename and what changed. */
  method WalkItem(c: Context, renamed: set<string>, diff: Diff, item: Item, same: Comparer) returns (r: Result<Walked>)
    ensures r.Ok? <==> StepItem(c, Walked(renamed, diff), item, same).Ok?
    ensures r.Ok? ==> r == StepItem(c, Walked(renamed, diff), item, same)
  {
    hide RenameOk;
    var seen, d := renamed, diff;
    var name := item.name;
    if item.renamedFrom.Some? {
      name := item.renamedFrom.value;
      if !RenameOk(c, item, renamed) {
        return Err(Invalid);
      }
      seen := seen + {name};
      d := d.(renamed := d.renamed + [Rename(name, item.name)]);
    } else {
      assert d.renamed + [] == d.renamed;
    }
    if name in c.typed {
      var was := c.typed[name];
      var compared := same(was, item);
      if compared.None? {
        return Err(Invalid);
      }
      var typeChanged, enumChanged := was.valueType != item.valueType, was.enumValues != item.enumValues;
      var defaultChanged, mappingChanged := !compared.value, MappingChanged(was, item);
      d := d.(typeChanged := d.typeChanged + If(typeChanged, item.name),
              enumChanged := d.enumChanged + If(enumChanged, item.name),
              defaultChanged := d.defaultChanged + If(defaultChanged, item.name),
              mappingChanged := d.mappingChanged + If(mappingChanged, item.name));
      if was.coverage == Supported && item.coverage == Supported
         && (item.renamedFrom.Some? || typeChanged || enumChanged || defaultChanged || mappingChanged)
         && was.testRef == item.testRef {
        return Err(Invalid);
      }
    } else if name in c.legacy {
      d := d.(legacyUntyped := d.legacyUntyped + [item.name]);
      if c.legacy[name].coverage == Supported && item.coverage == Supported && BlankText(item.testRef) {
        return Err(Invalid);
      }
    } else {
      d := d.(added := d.added + [item.name]);
    }
    return Ok(Walked(seen, d));
  }

  // ---- every name is accounted for ----

  /** What the walk says about its items. */
  ghost predicate WalkTells(c: Context, items: seq<Item>, w: Walked) {
    && (forall x :: x in w.renamed <==> exists i :: 0 <= i < |items| && items[i].renamedFrom == Some(x))
    && (forall x :: x in w.diff.added <==> exists i :: 0 <= i < |items| && IsNew(c, items[i], x))
    && (forall r :: r in w.diff.renamed <==> exists i :: 0 <= i < |items| && IsRename(items[i], r))
    && (forall i :: 0 <= i < |items| && items[i].renamedFrom.Some? ==> RenameOk(c, items[i], {}))
  }

  predicate IsNew(c: Context, item: Item, x: string) {
    item.name == x && item.renamedFrom.None? && !c.WasThere(x)
  }

  predicate IsRename(item: Item, r: Rename) {
    item.renamedFrom == Some(r.source) && item.name == r.target
  }

  lemma StepTells(c: Context, w: Walked, item: Item, same: Comparer)
    requires StepItem(c, w, item, same).Ok?
    ensures var next := StepItem(c, w, item, same).value;
            && next.renamed == w.renamed + (if item.renamedFrom.Some? then {item.renamedFrom.value} else {})
            && next.diff.added == w.diff.added + (if IsNew(c, item, item.name) then [item.name] else [])
            && next.diff.renamed == w.diff.renamed + Renames(item)
    ensures item.renamedFrom.Some? ==> RenameOk(c, item, {})
  {
    var next := StepItem(c, w, item, same).value;
    if item.renamedFrom.None? {
      assert w.renamed + {} == w.renamed;
    }
    if !IsNew(c, item, item.name) {
      assert w.diff.added + [] == w.diff.added;
    }
  }

  lemma {:induction false} WalkIsTold(c: Context, items: seq<Item>, same: Comparer)
    requires Walk(c, items, same).Ok?
    ensures WalkTells(c, items, Walk(c, items, same).value)
  {
    hide StepItem, RenameOk, IsNew, IsRename, Renames;
    if items != [] {
      var n := |items| - 1;
      WalkIsTold(c, items[..n], same);
      var before := Walk(c, items[..n], same).value;
      StepTells(c, before, items[n], same);
      ToldAppend(c, items, before, Walk(c, items, same).value);
    }
  }

  lemma ToldAppend(c: Context, items: seq<Item>, before: Walked, after: Walked)
    requires items != [] && WalkTells(c, items[..|items| - 1], before)
    requires var item := items[|items| - 1];
             && after.renamed == before.renamed + (if item.renamedFrom.Some? then {item.renamedFrom.value} else {})
             && after.diff.added == before.diff.added + (if IsNew(c, item, item.name) then [item.name] else [])
             && after.diff.renamed == before.diff.renamed + Renames(item)
             && (item.renamedFrom.Some? ==> RenameOk(c, item, {}))
    ensures WalkTells(c, items, after)
  {
    hide RenameOk, Context.WasThere;
    var n := |items| - 1;
    var front, item := items[..n], items[n];
    assert forall i :: 0 <= i < n ==> items[i] == front[i];
    forall x
      ensures x in after.renamed <==> exists i :: 0 <= i < |items| && items[i].renamedFrom == Some(x)
    {
      if exists i :: 0 <= i < |front| && front[i].renamedFrom == Some(x) {
        var i :| 0 <= i < |front| && front[i].renamedFrom == Some(x);
        assert items[i].renamedFrom == Some(x);
      }
      assert x in after.renamed <==> x in before.renamed || items[n].renamedFrom == Some(x);
    }
    forall x
      ensures x in after.diff.added <==> exists i :: 0 <= i < |items| && IsNew(c, items[i], x)
    {
      if exists i :: 0 <= i < |front| && IsNew(c, front[i], x) {
        var i :| 0 <= i < |front| && IsNew(c, front[i], x);
        assert IsNew(c, items[i], x);
      }
      assert x in after.diff.added <==> x in before.diff.added || IsNew(c, items[n], x);
    }
    forall r
      ensures r in after.diff.renamed <==> exists i :: 0 <= i < |items| && IsRename(items[i], r)
    {
      if exists i :: 0 <= i < |front| && IsRename(front[i], r) {
        var i :| 0 <= i < |front| && IsRename(front[i], r);
        assert IsRename(items[i], r);
      }
      assert r in after.diff.renamed <==> r in before.diff.renamed || IsRename(items[n], r);
    }
  }

  predicate DistinctNames(items: seq<Item>) {
    forall i, j :: 0 <= i < j < |items| ==> items[i].name != items[j].name
  }

  function Sources(renamed: seq<Rename>): set<string> {
    set r | r in renamed :: r.source
  }

  function Targets(renamed: seq<Rename>): set<string> {
    set r | r in renamed :: r.target
  }

  /** The names of the predecessor. */
  function PreviousSet(predecessor: Predecessor): set<string> {
    TextSet(PreviousNames(predecessor))
  }

  /** Names of the predecessor that the current manifest keeps under the same name. */
  function KeptNames(predecessor: Predecessor, d: Diff): set<string> {
    PreviousSet(predecessor) - TextSet(d.removed) - Sources(d.renamed)
  }

  lemma DiffParts(current: Manifest, predecessor: Predecessor, same: Comparer) returns (w: Walked)
    requires UpgradeDiff(current, predecessor, same).Ok?
    ensures var c := ContextOf(current, predecessor); var d := UpgradeDiff(current, predecessor, same).value;
            && WalkTells(c, current.items, w) && GoneRetired(c.previous, c, w.renamed) && RetiredGone(c, w.renamed)
            && (forall x :: x in d.added <==> x in w.diff.added) && (forall r :: r in d.renamed <==> r in w.diff.renamed)
            && forall x :: x in d.removed <==> x in c.previous && Gone(c, w.renamed, x)
  {
    hide WalkTells, GoneRetired, RetiredGone, SortTexts, SortRenames, ContextOf, StepItem;
    var c := ContextOf(current, predecessor);
    w := Walk(c, current.items, same).value;
    WalkIsTold(c, current.items, same);
    SortMembers(w.diff.added);
    SortMembers(Removed(c.previous, c, w.renamed));
    RenameMembers(w.diff.renamed);
  }

  /** Exactly the retired names are removed. */
  lemma RemovedAreRetired(current: Manifest, predecessor: Predecessor, same: Comparer)
    requires UpgradeDiff(current, predecessor, same).Ok?
    ensures TextSet(UpgradeDiff(current, predecessor, same).value.removed) == TextSet(current.retired)
  {
    hide WalkTells, UpgradeDiff, PreviousNames, TypedItems, LegacyItems;
    var c := ContextOf(current, predecessor);
    var d := UpgradeDiff(current, predecessor, same).value;
    var w := DiffParts(current, predecessor, same);
    PreviousAreThere(current, predecessor);
    forall x
      ensures x in d.removed <==> x in current.retired
    {
      if x in d.removed {
        var i :| 0 <= i < |c.previous| && c.previous[i] == x;
      }
      assert x in current.retired <==> x in c.retired;
    }
  }

  lemma NamesOf(items: seq<Item>, i: nat)
    requires i < |items|
    ensures items[i].name in NameSet(items)
  {
  }

  lemma SourceIs(renamed: seq<Rename>, x: string)
    ensures x in Sources(renamed) <==> exists r :: r in renamed && r.source == x
    ensures x in Targets(renamed) <==> exists r :: r in renamed && r.target == x
  {
  }

  /** The rename sources of the diff are those the walk gathered. */
  lemma SourcesGathered(c: Context, items: seq<Item>, w: Walked, renamed: seq<Rename>)
    requires WalkTells(c, items, w) && forall r :: r in renamed <==> r in w.diff.renamed
    ensures Sources(renamed) == w.renamed
  {
    hide RenameOk, IsNew;
    forall x
      ensures x in Sources(renamed) <==> x in w.renamed
    {
      SourceIs(renamed, x);
      if x in w.renamed {
        var i :| 0 <= i < |items| && items[i].renamedFrom == Some(x);
        assert IsRename(items[i], Rename(x, items[i].name));
        assert Rename(x, items[i].name) in renamed;
      }
      if x in Sources(renamed) {
        var r :| r in renamed && r.source == x;
        var i :| 0 <= i < |items| && IsRename(items[i], r);
      }
    }
  }

  /** With distinct names an item that is renamed to a name leaves no other item to be new under it. */
  lemma NotBoth(c: Context, items: seq<Item>, i: nat, j: nat, r: Rename)
    requires DistinctNames(items) && i < |items| && j < |items| && IsRename(items[i], r)
    ensures !IsNew(c, items[j], r.target)
  {
  }

  lemma CurrentNotSource(c: Context, items: seq<Item>, w: Walked, j: nat, x: string)
    requires WalkTells(c, items, w) && j < |items|
    ensures x in c.currentNames ==> items[j].renamedFrom != Some(x)
  {
    hide IsNew, IsRename;
  }

  /** A rename target is a current name, was not there before, and is not counted as added. */
  lemma TargetPlaced(c: Context, items: seq<Item>, w: Walked, r: Rename)
    requires WalkTells(c, items, w) && DistinctNames(items) && r in w.diff.renamed
    ensures r.target in NameSet(items) && !c.WasThere(r.target) && r.target !in w.diff.added
  {
    hide DistinctNames;
    var i :| 0 <= i < |items| && IsRename(items[i], r);
    assert RenameOk(c, items[i], {});
    NamesOf(items, i);
    forall j | 0 <= j < |items|
      ensures !IsNew(c, items[j], r.target)
    {
      NotBoth(c, items, i, j, r);
    }
  }

  /** A current name was there before and is no rename source, or is added, or is a rename target. */
  lemma CurrentPlaced(c: Context, items: seq<Item>, w: Walked, x: string)
    requires WalkTells(c, items, w) && c.currentNames == NameSet(items) && x in NameSet(items)
    ensures x !in w.renamed
    ensures c.WasThere(x) || x in w.diff.added || exists r :: r in w.diff.renamed && r.target == x
  {
    var i :| 0 <= i < |items| && items[i].name == x;
    forall j | 0 <= j < |items|
      ensures items[j].renamedFrom != Some(x)
    {
      CurrentNotSource(c, items, w, j, x);
    }
    if items[i].renamedFrom.Some? {
      var r := Rename(items[i].renamedFrom.value, x);
      assert IsRename(items[i], r);
      assert r in w.diff.renamed;
    } else if !c.WasThere(x) {
      assert IsNew(c, items[i], x);
    }
  }

  /** An added name is current and was not there before. */
  lemma AddedPlaced(c: Context, items: seq<Item>, w: Walked, x: string)
    requires WalkTells(c, items, w) && x in w.diff.added
    ensures x in NameSet(items) && !c.WasThere(x)
  {
    var i :| 0 <= i < |items| && IsNew(c, items[i], x);
    NamesOf(items, i);
  }

  /** Where one name of the current manifest or of the predecessor ends up. */
  lemma NamePlaced(current: Manifest, predecessor: Predecessor, same: Comparer, x: string)
    requires UpgradeDiff(current, predecessor, same).Ok? && DistinctNames(current.items)
    ensures var d := UpgradeDiff(current, predecessor, same).value;
            && (x in NameSet(current.items) <==> x in KeptNames(predecessor, d) || x in d.added || x in Targets(d.renamed))
            && !(x in KeptNames(predecessor, d) && x in d.added) && !(x in KeptNames(predecessor, d) && x in Targets(d.renamed))
            && !(x in d.added && x in Targets(d.renamed))
  {
    hide UpgradeDiff, PreviousNames, TypedItems, LegacyItems, GoneRetired, RetiredGone, WalkTells, DistinctNames, NameSet;
    hide Sources, Targets, Context.WasThere;
    var c := ContextOf(current, predecessor);
    var d := UpgradeDiff(current, predecessor, same).value;
    var items := current.items;
    var w := DiffParts(current, predecessor, same);
    PreviousAreThere(current, predecessor);
    SourcesGathered(c, items, w, d.renamed);
    SourceIs(d.renamed, x);
    if x in Targets(d.renamed) {
      var r :| r in d.renamed && r.target == x;
      TargetPlaced(c, items, w, r);
    }
    if x in d.added {
      AddedPlaced(c, items, w, x);
    }
    if x in NameSet(items) {
      CurrentPlaced(c, items, w, x);
    }
  }

  /** Every name of the predecessor and of the manifest is accounted for once: what is neither removed nor renamed away,
      what is added, and what is renamed to, are disjoint and together are the current names. */
  lemma NamesPartition(current: Manifest, predecessor: Predecessor, same: Comparer)
    requires UpgradeDiff(current, predecessor, same).Ok? && DistinctNames(current.items)
    ensures var d := UpgradeDiff(current, predecessor, same).value;
            && KeptNames(predecessor, d) + TextSet(d.added) + Targets(d.renamed) == NameSet(current.items)
            && KeptNames(predecessor, d) !! TextSet(d.added) !! Targets(d.renamed)
  {
    hide UpgradeDiff, KeptNames, NameSet, Targets, DistinctNames;
    forall x
      ensures var d := UpgradeDiff(current, predecessor, same).value;
              && (x in NameSet(current.items) <==> x in KeptNames(predecessor, d) || x in d.added || x in Targets(d.renamed))
              && !(x in KeptNames(predecessor, d) && x in d.added) && !(x in KeptNames(predecessor, d) && x in Targets(d.renamed))
              && !(x in d.added && x in Targets(d.renamed))
    {
      NamePlaced(current, predecessor, same, x);
    }
  }

  // ---- a manifest against itself ----

  lemma SelfStep(c: Context, item: Item, same: Comparer)
    requires item.name in c.typed && c.typed[item.name] == item && item.renamedFrom.None? && same(item, item) == Some(true)
    ensures StepItem(c, Walked({}, NO_DIFF), item, same) == Ok(Walked({}, NO_DIFF))
  {
    assert NO_DIFF.renamed + Renames(item) == [];
    assert NO_DIFF.typeChanged + If(false, item.name) == [];
  }

  lemma {:induction false} SelfWalk(c: Context, items: seq<Item>, same: Comparer)
    requires forall i :: 0 <= i < |items| ==>
               items[i].name in c.typed && c.typed[items[i].name] == items[i] && items[i].renamedFrom.None?
               && same(items[i], items[i]) == Some(true)
    ensures Walk(c, items, same) == Ok(Walked({}, NO_DIFF))
  {
    hide StepItem;
    if items != [] {
      SelfWalk(c, items[..|items| - 1], same);
      SelfStep(c, items[|items| - 1], same);
    }
  }

  lemma TypedSelf(items: seq<Item>, i: nat)
    requires DistinctNames(items) && i < |items|
    ensures items[i].name in TypedItems(items) && TypedItems(items)[items[i].name] == items[i]
  {
    var found := TypedItems(items)[items[i].name];
    var j :| 0 <= j < |items| && items[j] == found;
  }

  /** A manifest compared with itself, without renames and retirements, has the empty diff. */
  lemma SelfDiffEmpty(m: Manifest, same: Comparer)
    requires DistinctNames(m.items) && m.retired == []
    requires forall i :: 0 <= i < |m.items| ==> m.items[i].renamedFrom.None? && same(m.items[i], m.items[i]) == Some(true)
    ensures UpgradeDiff(m, Current(m.items), same) == Ok(NO_DIFF)
  {
    hide Walk, TypedItems, DistinctNames, PreviousNames;
    var c := ContextOf(m, Current(m.items));
    forall i | 0 <= i < |m.items|
      ensures m.items[i].name in c.typed && c.typed[m.items[i].name] == m.items[i]
    {
      TypedSelf(m.items, i);
    }
    SelfWalk(c, m.items, same);
    PreviousAreThere(m, Current(m.items));
    forall x | x in c.previous
      ensures x in c.currentNames
    {
      var i :| 0 <= i < |m.items| && m.items[i].name == x;
    }
    NothingRemoved(c.previous, c);
  }

  lemma {:induction false} NothingRemoved(names: seq<string>, c: Context)
    requires forall x :: x in names ==> x in c.currentNames
    ensures Removed(names, c, {}) == [] && GoneRetired(names, c, {})
  {
    var removed := Removed(names, c, {});
    if removed != [] {
      var x := First(removed);
    }
  }
}
