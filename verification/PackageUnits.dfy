/** Turning a package listing into comparable units (src/lib/adt/packageUnits.ts, `collectComparableUnits`). */
module PackageUnits {
  import opened Sequences
  import opened MapLimited

  datatype ComparableUnit = ComparableUnit(name: string, kind: string, parent: Option<string>, url: string)

  datatype Entry = Entry(name: string, kind: string)

  /** The expansion of a function group, asked for on account of the item with that number. */
  datatype Call = Call(group: Entry, item: nat)

  /** The ADT client and the URL helpers, as functions. Each call gets an answer of its own, even if the group is the same.
      A rejected listing is None; so is a URI that cannot be built. */
  datatype Reader = Reader(
    modules: Call -> Option<seq<string>>,
    includes: Call -> Option<seq<string>>,
    objectUri: (string, string) -> Option<string>,
    upper: string -> string,
    encodedLower: string -> string)

  const DIRECT_SOURCE_TYPES: set<string> := {
    "CLAS/OC", "CLAS", "INTF/OI", "INTF", "PROG/P", "PROG", "PROG/I", "INCL", "DDLS/DF", "DDLS", "TABL/DT", "TABL",
    "TABL/DS", "STRU/DS", "STRU", "BDEF/BDO", "BDEF", "SRVD/SRV", "SRVD", "DDLX/EX", "DDLX" }

  const FUNCTION_GROUP_TYPES: set<string> := { "FUGR/F", "FUGR", "FUNC" }

  const DEFAULT_EXPANSIONS := 8

  datatype Treatment = ReadDirectly | ExpandGroup | CannotCompare

  function TreatmentOf(kind: string): Treatment {
    if kind in DIRECT_SOURCE_TYPES then ReadDirectly
    else if kind in FUNCTION_GROUP_TYPES then ExpandGroup
    else CannotCompare
  }

  // ---------- The reference: a sequential flat-map ----------

  /** The item is named and its type is asked for. */
  predicate Considered(reader: Reader, filter: Option<set<string>>, item: Entry) {
    reader.upper(item.name) != "" && (filter.Some? ==> item.kind in filter.value)
  }

  function OrEmpty(listing: Option<seq<string>>): seq<string> {
    if listing.Some? then listing.value else []
  }

  function GroupUrl(reader: Reader, group: string, collection: string, member: string): string {
    "/sap/bc/adt/functions/groups/" + reader.encodedLower(group) + "/" + collection + "/" + reader.encodedLower(member) + "/source/main"
  }

  function Expand(reader: Reader, call: Call): seq<ComparableUnit> {
    var group := call.group.name;
    Map((fm: string) => ComparableUnit(reader.upper(fm), "FUGR/FF", Some(group), GroupUrl(reader, group, "fmodules", fm)),
        OrEmpty(reader.modules(call)))
    + Map((name: string) => ComparableUnit(reader.upper(name), "FUGR/I", Some(group), GroupUrl(reader, group, "includes", name)),
          OrEmpty(reader.includes(call)))
  }

  function DirectUnit(name: string, kind: string, uri: string): ComparableUnit {
    ComparableUnit(name, kind, None, uri + "/source/main")
  }

  function Reported(reader: Reader, item: Entry): Entry {
    Entry(reader.upper(item.name), item.kind)
  }

  /** The units that the reads for item n yield. */
  function UnitsOf(reader: Reader, filter: Option<set<string>>, item: Entry, n: nat): seq<ComparableUnit> {
    var name := reader.upper(item.name);
    if !Considered(reader, filter, item) then [] else
    match TreatmentOf(item.kind)
    case ReadDirectly =>
      var uri := reader.objectUri(name, item.kind);
      if uri.Some? then [DirectUnit(name, item.kind, uri.value)] else []
    case ExpandGroup => Expand(reader, Call(Reported(reader, item), n))
    case CannotCompare => []
  }

  predicate IsGroup(reader: Reader, filter: Option<set<string>>, item: Entry) {
    Considered(reader, filter, item) && TreatmentOf(item.kind) == ExpandGroup
  }

  /** The expansions asked for. */
  function CallsOf(reader: Reader, filter: Option<set<string>>, items: seq<Entry>): seq<Call> {
    if |items| == 0 then [] else
    var n := |items| - 1;
    CallsOf(reader, filter, items[..n]) + if IsGroup(reader, filter, items[n]) then [Call(Reported(reader, items[n]), n)] else []
  }

  /** The call that answers for each group name: of several, the one that finished last. */
  function Kept(calls: seq<Call>, order: seq<nat>): map<string, Call>
    requires forall k :: 0 <= k < |order| ==> order[k] < |calls|
  {
    if |order| == 0 then map[] else
    var last := calls[order[|order| - 1]];
    Kept(calls, order[..|order| - 1])[last.group.name := last]
  }

  function KeptUnits(reader: Reader, kept: map<string, Call>, group: string): seq<ComparableUnit> {
    if group in kept then Expand(reader, kept[group]) else []
  }

  /** The units listed for item n. */
  function ListedUnits(reader: Reader, filter: Option<set<string>>, item: Entry, n: nat, kept: map<string, Call>): seq<ComparableUnit> {
    if IsGroup(reader, filter, item) then KeptUnits(reader, kept, reader.upper(item.name)) else UnitsOf(reader, filter, item, n)
  }

  function AllUnits(reader: Reader, filter: Option<set<string>>, items: seq<Entry>, kept: map<string, Call>): seq<ComparableUnit> {
    if |items| == 0 then [] else
    var n := |items| - 1;
    AllUnits(reader, filter, items[..n], kept) + ListedUnits(reader, filter, items[n], n, kept)
  }

  ghost predicate WithoutUnits(reader: Reader, filter: Option<set<string>>, item: Entry, n: nat) {
    Considered(reader, filter, item) && UnitsOf(reader, filter, item, n) == []
  }

  /** The considered items whose reads yield no units, each as often as it is listed. */
  ghost function Missing(reader: Reader, filter: Option<set<string>>, items: seq<Entry>): multiset<Entry> {
    if |items| == 0 then multiset{} else
    var n := |items| - 1;
    Missing(reader, filter, items[..n]) +
    if WithoutUnits(reader, filter, items[n], n) then multiset{Reported(reader, items[n])} else multiset{}
  }

  // ---------- The code: classify, expand in parallel, reassemble ----------

  datatype Slot = Direct(unit: ComparableUnit) | Group(call: Call)

  /** What the expansion callback updates. */
  datatype Shared = Shared(expanded: map<string, seq<ComparableUnit>>, notComparable: seq<Entry>)

  function Record(reader: Reader): (Shared, Call) -> Shared {
    (s: Shared, call: Call) =>
      var produced := Expand(reader, call);
      Shared(s.expanded[call.group.name := produced], if produced == [] then s.notComparable + [call.group] else s.notComparable)
  }

  function GroupsOf(slots: seq<Slot>): seq<Call> {
    if |slots| == 0 then [] else
    var slot := slots[|slots| - 1];
    GroupsOf(slots[..|slots| - 1]) + if slot.Group? then [slot.call] else []
  }

  function SlotUnits(reader: Reader, slots: seq<Slot>, kept: map<string, Call>): seq<ComparableUnit> {
    if |slots| == 0 then [] else
    var slot := slots[|slots| - 1];
    SlotUnits(reader, slots[..|slots| - 1], kept) + if slot.Group? then KeptUnits(reader, kept, slot.call.group.name) else [slot.unit]
  }

  /** The groups whose expansion is empty, one part per call. */
  function EmptyGroups(reader: Reader, calls: seq<Call>): (parts: seq<seq<Entry>>)
    ensures |parts| == |calls|
  {
    seq(|calls|, i requires 0 <= i < |calls| => if Expand(reader, calls[i]) == [] then [calls[i].group] else [])
  }

  function TaskFor(reader: Reader, calls: seq<Call>, notComparable: seq<Entry>): Task<Call, (), Shared> {
    Task(calls, _ => (), Record(reader), Shared(map[], notComparable))
  }

  lemma EffectsStep(reader: Reader, calls: seq<Call>, early: seq<Entry>, order: seq<nat>)
    requires |order| != 0 && forall k :: 0 <= k < |order| ==> order[k] < |calls|
    ensures var before, call := Effects(TaskFor(reader, calls, early), order[..|order| - 1]), calls[order[|order| - 1]];
            var after := Effects(TaskFor(reader, calls, early), order);
            && after.expanded == before.expanded[call.group.name := Expand(reader, call)]
            && after.notComparable == if Expand(reader, call) == [] then before.notComparable + [call.group] else before.notComparable
  {
    hide Expand;
  }

  lemma {:induction false} ExpandedInOrder(reader: Reader, calls: seq<Call>, early: seq<Entry>, order: seq<nat>)
    requires forall k :: 0 <= k < |order| ==> order[k] < |calls|
    ensures var expanded, kept := Effects(TaskFor(reader, calls, early), order).expanded, Kept(calls, order);
            expanded.Keys == kept.Keys && forall name :: name in expanded ==> expanded[name] == Expand(reader, kept[name])
  {
    hide Expand;
    if |order| != 0 {
      EffectsStep(reader, calls, early, order);
      ExpandedInOrder(reader, calls, early, order[..|order| - 1]);
    }
  }

  lemma NothingReported(reader: Reader, calls: seq<Call>, early: seq<Entry>)
    ensures Effects(TaskFor(reader, calls, early), []).notComparable == early
  {
  }

  lemma {:induction false} ReportedInOrder(reader: Reader, calls: seq<Call>, early: seq<Entry>, order: seq<nat>)
    requires forall k :: 0 <= k < |order| ==> order[k] < |calls|
    ensures Effects(TaskFor(reader, calls, early), order).notComparable == early + Flatten(Pick(EmptyGroups(reader, calls), order))
  {
    var parts := EmptyGroups(reader, calls);
    if |order| == 0 {
      NothingReported(reader, calls, early);
      assert order == [] && Pick(parts, order) == [];
    } else {
      var rest, i := order[..|order| - 1], order[|order| - 1];
      var before, after := Effects(TaskFor(reader, calls, early), rest), Effects(TaskFor(reader, calls, early), order);
      EffectsStep(reader, calls, early, order);
      ReportedInOrder(reader, calls, early, rest);
      EmptyGroupAt(reader, calls, i);
      PickSnoc(parts, order);
      hide Expand, Effects, EmptyGroups, TaskFor, Pick;
      assert after.notComparable == before.notComparable + parts[i];
      PartAppended(before.notComparable, early, Pick(parts, rest), parts[i]);
    }
  }

  lemma EmptyGroupAt(reader: Reader, calls: seq<Call>, i: nat)
    requires i < |calls|
    ensures EmptyGroups(reader, calls)[i] == if Expand(reader, calls[i]) == [] then [calls[i].group] else []
  {
  }

  lemma PartAppended(before: seq<Entry>, early: seq<Entry>, front: seq<seq<Entry>>, part: seq<Entry>)
    requires before == early + Flatten(front)
    ensures before + part == early + Flatten(front + [part])
  {
    FlattenSnoc(front, part);
  }

  lemma EmptyGroupsSnoc(reader: Reader, calls: seq<Call>, call: Call)
    ensures Flatten(EmptyGroups(reader, calls + [call]))
         == Flatten(EmptyGroups(reader, calls)) + if Expand(reader, call) == [] then [call.group] else []
  {
    hide Expand;
    var part := if Expand(reader, call) == [] then [call.group] else [];
    assert EmptyGroups(reader, calls + [call]) == EmptyGroups(reader, calls) + [part];
    FlattenSnoc(EmptyGroups(reader, calls), part);
  }

  /** The groups among the slots that expand to nothing. */
  function SlotGaps(reader: Reader, slots: seq<Slot>): multiset<Entry> {
    if |slots| == 0 then multiset{} else
    var slot := slots[|slots| - 1];
    SlotGaps(reader, slots[..|slots| - 1]) +
    if slot.Group? && Expand(reader, slot.call) == [] then multiset{slot.call.group} else multiset{}
  }

  lemma {:induction false} SlotGapsAreEmptyGroups(reader: Reader, slots: seq<Slot>)
    ensures multiset(Flatten(EmptyGroups(reader, GroupsOf(slots)))) == SlotGaps(reader, slots)
  {
    hide Expand;
    if |slots| != 0 {
      var slot := slots[|slots| - 1];
      SlotGapsAreEmptyGroups(reader, slots[..|slots| - 1]);
      if slot.Group? {
        EmptyGroupsSnoc(reader, GroupsOf(slots[..|slots| - 1]), slot.call);
      } else {
        assert GroupsOf(slots) == GroupsOf(slots[..|slots| - 1]);
      }
    }
  }

  lemma SlotSnoc(reader: Reader, slots: seq<Slot>, slot: Slot, kept: map<string, Call>)
    ensures SlotUnits(reader, slots + [slot], kept) ==
              SlotUnits(reader, slots, kept) + if slot.Group? then KeptUnits(reader, kept, slot.call.group.name) else [slot.unit]
    ensures SlotGaps(reader, slots + [slot]) == SlotGaps(reader, slots) +
              if slot.Group? && Expand(reader, slot.call) == [] then multiset{slot.call.group} else multiset{}
    ensures GroupsOf(slots + [slot]) == GroupsOf(slots) + if slot.Group? then [slot.call] else []
  {
    hide Expand;
    assert (slots + [slot])[..|slots|] == slots;
  }

  /** Slots and early rejects together carry exactly the calls, the units, whichever calls answer for the groups, and the gaps. */
  ghost predicate Classified(reader: Reader, filter: Option<set<string>>, items: seq<Entry>, slots: seq<Slot>, early: seq<Entry>) {
    && GroupsOf(slots) == CallsOf(reader, filter, items)
    && (forall kept :: SlotUnits(reader, slots, kept) == AllUnits(reader, filter, items, kept))
    && multiset(early) + SlotGaps(reader, slots) == Missing(reader, filter, items)
  }

  lemma ItemSnoc(reader: Reader, filter: Option<set<string>>, items: seq<Entry>, item: Entry, kept: map<string, Call>)
    ensures CallsOf(reader, filter, items + [item])
         == CallsOf(reader, filter, items) + if IsGroup(reader, filter, item) then [Call(Reported(reader, item), |items|)] else []
    ensures AllUnits(reader, filter, items + [item], kept) == AllUnits(reader, filter, items, kept) + ListedUnits(reader, filter, item, |items|, kept)
    ensures Missing(reader, filter, items + [item]) == Missing(reader, filter, items) +
              if WithoutUnits(reader, filter, item, |items|) then multiset{Reported(reader, item)} else multiset{}
  {
    hide UnitsOf, ListedUnits;
    assert (items + [item])[..|items|] == items;
  }

  lemma SlotFilled(reader: Reader, filter: Option<set<string>>, items: seq<Entry>, slots: seq<Slot>, early: seq<Entry>, item: Entry, slot: Slot)
    requires Classified(reader, filter, items, slots, early) && Considered(reader, filter, item)
    requires slot.Group? <==> IsGroup(reader, filter, item)
    requires slot.Group? ==> slot.call == Call(Reported(reader, item), |items|)
    requires slot.Direct? ==> UnitsOf(reader, filter, item, |items|) == [slot.unit]
    ensures Classified(reader, filter, items + [item], slots + [slot], early)
  {
    hide Expand, AllUnits, Missing, SlotUnits, SlotGaps;
    forall kept ensures SlotUnits(reader, slots + [slot], kept) == AllUnits(reader, filter, items + [item], kept) {
      ItemSnoc(reader, filter, items, item, kept);
      SlotSnoc(reader, slots, slot, kept);
    }
    ItemSnoc(reader, filter, items, item, map[]);
    SlotSnoc(reader, slots, slot, map[]);
  }

  lemma NoSlotFilled(reader: Reader, filter: Option<set<string>>, items: seq<Entry>, slots: seq<Slot>, early: seq<Entry>, item: Entry)
    requires Classified(reader, filter, items, slots, early)
    requires !IsGroup(reader, filter, item) && UnitsOf(reader, filter, item, |items|) == []
    ensures Classified(reader, filter, items + [item], slots,
                       if Considered(reader, filter, item) then early + [Reported(reader, item)] else early)
  {
    hide Expand, AllUnits, Missing, UnitsOf, SlotUnits, SlotGaps;
    forall kept ensures SlotUnits(reader, slots, kept) == AllUnits(reader, filter, items + [item], kept) {
      ItemSnoc(reader, filter, items, item, kept);
    }
    ItemSnoc(reader, filter, items, item, map[]);
  }

  method Classify(reader: Reader, filter: Option<set<string>>, items: seq<Entry>)
    returns (slots: seq<Slot>, early: seq<Entry>)
    ensures Classified(reader, filter, items, slots, early)
  {
    slots, early := [], [];
    assert Classified(reader, filter, items[..0], slots, early);
    hide Classified, TreatmentOf, DirectUnit, Expand;
    var i := 0;
    while i < |items|
      invariant 0 <= i <= |items|
      invariant Classified(reader, filter, items[..i], slots, early)
    {
      assert items[..i] + [items[i]] == items[..i + 1];
      var name, kind := reader.upper(items[i].name), items[i].kind;
      if name == "" || (filter.Some? && kind !in filter.value) {
        NoSlotFilled(reader, filter, items[..i], slots, early, items[i]);
      } else {
        match TreatmentOf(kind) {
          case ReadDirectly =>
            var uri := reader.objectUri(name, kind);
            if uri.Some? {
              var slot := Direct(DirectUnit(name, kind, uri.value));
              SlotFilled(reader, filter, items[..i], slots, early, items[i], slot);
              slots := slots + [slot];
            } else {
              NoSlotFilled(reader, filter, items[..i], slots, early, items[i]);
              early := early + [Entry(name, kind)];
            }
          case ExpandGroup =>
            var slot := Group(Call(Entry(name, kind), i));
            SlotFilled(reader, filter, items[..i], slots, early, items[i], slot);
            slots := slots + [slot];
          case CannotCompare =>
            NoSlotFilled(reader, filter, items[..i], slots, early, items[i]);
            early := early + [Entry(name, kind)];
        }
      }
      i := i + 1;
    }
    assert items[..|items|] == items;
  }

  method Reassemble(ghost reader: Reader, slots: seq<Slot>, expanded: map<string, seq<ComparableUnit>>, ghost kept: map<string, Call>)
    returns (units: seq<ComparableUnit>)
    requires expanded.Keys == kept.Keys && forall name :: name in expanded ==> expanded[name] == Expand(reader, kept[name])
    ensures units == SlotUnits(reader, slots, kept)
  {
    hide Expand;
    assert SlotUnits(reader, [], kept) == [];
    hide SlotUnits, GroupsOf, SlotGaps;
    units := [];
    var i := 0;
    while i < |slots|
      invariant 0 <= i <= |slots|
      invariant units == SlotUnits(reader, slots[..i], kept)
    {
      SlotSnoc(reader, slots[..i], slots[i], kept);
      assert slots[..i] + [slots[i]] == slots[..i + 1];
      if slots[i].Direct? {
        units := units + [slots[i].unit];
      } else {
        var name := slots[i].call.group.name;
        units := units + if name in expanded then expanded[name] else [];
      }
      i := i + 1;
    }
    assert slots[..|slots|] == slots;
  }

  lemma Expanded(reader: Reader, calls: seq<Call>, early: seq<Entry>, order: seq<nat>)
    requires Permutation(order, |calls|)
    ensures var s, kept := Effects(TaskFor(reader, calls, early), order), Kept(calls, order);
            && s.expanded.Keys == kept.Keys && (forall name :: name in s.expanded ==> s.expanded[name] == Expand(reader, kept[name]))
            && multiset(s.notComparable) == multiset(early) + multiset(Flatten(EmptyGroups(reader, calls)))
  {
    hide Expand;
    ExpandedInOrder(reader, calls, early, order);
    ReportedInOrder(reader, calls, early, order);
    PermutedFlatten(EmptyGroups(reader, calls), order);
  }

  // ---------- Which units a package has ----------

  /** The item has a name, and its type is one of those asked for. */
  ghost predicate Looked(reader: Reader, filter: Option<set<string>>, item: Entry) {
    reader.upper(item.name) != "" && (filter == None || item.kind in filter.value)
  }

  /** The types whose source can be read under the object's own address. */
  ghost predicate HasOwnSource(kind: string) {
    kind in {
      "CLAS/OC", "CLAS", "INTF/OI", "INTF", "PROG/P", "PROG", "PROG/I", "INCL", "DDLS/DF", "DDLS", "TABL/DT", "TABL",
      "TABL/DS", "STRU/DS", "STRU", "BDEF/BDO", "BDEF", "SRVD/SRV", "SRVD", "DDLX/EX", "DDLX" }
  }

  ghost predicate IsFunctionGroup(kind: string) {
    kind in { "FUGR/F", "FUGR", "FUNC" }
  }

  /** The unit of an object that is read under its own address. */
  ghost predicate IsObjectUnit(reader: Reader, item: Entry, u: ComparableUnit) {
    && u.name == reader.upper(item.name) && u.kind == item.kind && u.parent == None
    && reader.objectUri(u.name, item.kind).Some? && u.url == reader.objectUri(u.name, item.kind).value + "/source/main"
  }

  ghost predicate IsModuleUnit(reader: Reader, group: string, fm: string, u: ComparableUnit) {
    && u.name == reader.upper(fm) && u.kind == "FUGR/FF" && u.parent == Some(group)
    && u.url == "/sap/bc/adt/functions/groups/" + reader.encodedLower(group) + "/fmodules/" + reader.encodedLower(fm) + "/source/main"
  }

  ghost predicate IsIncludeUnit(reader: Reader, group: string, include_: string, u: ComparableUnit) {
    && u.name == reader.upper(include_) && u.kind == "FUGR/I" && u.parent == Some(group)
    && u.url == "/sap/bc/adt/functions/groups/" + reader.encodedLower(group) + "/includes/" + reader.encodedLower(include_) + "/source/main"
  }

  /** The units of a function group: those of its modules in order, then those of its includes in order. */
  ghost predicate AreGroupUnits(reader: Reader, group: string, modules: seq<string>, includes: seq<string>, units: seq<ComparableUnit>) {
    && |units| == |modules| + |includes|
    && AreModuleUnits(reader, group, modules, units[..|modules|]) && AreIncludeUnits(reader, group, includes, units[|modules|..])
  }

  ghost predicate AreModuleUnits(reader: Reader, group: string, modules: seq<string>, units: seq<ComparableUnit>) {
    |units| == |modules| && forall i :: 0 <= i < |modules| ==> IsModuleUnit(reader, group, modules[i], units[i])
  }

  ghost predicate AreIncludeUnits(reader: Reader, group: string, includes: seq<string>, units: seq<ComparableUnit>) {
    |units| == |includes| && forall i :: 0 <= i < |includes| ==> IsIncludeUnit(reader, group, includes[i], units[i])
  }

  /** The names that a call has listed; none if the listing was rejected. */
  ghost function Names(answer: Option<seq<string>>): seq<string> {
    match answer case Some(names) => names case None => []
  }

  /** The units that an item has in the result, given which call counts for the name of a group. */
  ghost predicate AreItemUnits(reader: Reader, filter: Option<set<string>>, item: Entry, kept: map<string, Call>, units: seq<ComparableUnit>) {
    if Looked(reader, filter, item) && HasOwnSource(item.kind) then
      if reader.objectUri(reader.upper(item.name), item.kind).None? then units == [] else |units| == 1 && IsObjectUnit(reader, item, units[0])
    else if Looked(reader, filter, item) && IsFunctionGroup(item.kind) && reader.upper(item.name) in kept then
      var call := kept[reader.upper(item.name)];
      AreGroupUnits(reader, call.group.name, Names(reader.modules(call)), Names(reader.includes(call)), units)
    else units == []
  }

  lemma ModuleUrl(reader: Reader, group: string, fm: string)
    ensures GroupUrl(reader, group, "fmodules", fm)
         == "/sap/bc/adt/functions/groups/" + reader.encodedLower(group) + "/fmodules/" + reader.encodedLower(fm) + "/source/main"
  {
    var head := "/sap/bc/adt/functions/groups/" + reader.encodedLower(group);
    assert "/" + "fmodules" + "/" == "/fmodules/";
    Regroup(head, "/", "fmodules", "/");
  }

  lemma IncludeUrl(reader: Reader, group: string, include_: string)
    ensures GroupUrl(reader, group, "includes", include_)
         == "/sap/bc/adt/functions/groups/" + reader.encodedLower(group) + "/includes/" + reader.encodedLower(include_) + "/source/main"
  {
    var head := "/sap/bc/adt/functions/groups/" + reader.encodedLower(group);
    assert "/" + "includes" + "/" == "/includes/";
    Regroup(head, "/", "includes", "/");
  }

  lemma Regroup(head: string, a: string, b: string, c: string)
    ensures head + a + b + c == head + (a + b + c)
  {
  }

  lemma ModuleUnitsExactly(reader: Reader, group: string, modules: seq<string>)
    ensures AreModuleUnits(reader, group, modules,
                           Map((fm: string) => ComparableUnit(reader.upper(fm), "FUGR/FF", Some(group), GroupUrl(reader, group, "fmodules", fm)), modules))
  {
    forall i | 0 <= i < |modules|
      ensures GroupUrl(reader, group, "fmodules", modules[i])
           == "/sap/bc/adt/functions/groups/" + reader.encodedLower(group) + "/fmodules/" + reader.encodedLower(modules[i]) + "/source/main"
    {
      ModuleUrl(reader, group, modules[i]);
    }
    hide GroupUrl;
  }

  lemma IncludeUnitsExactly(reader: Reader, group: string, includes: seq<string>)
    ensures AreIncludeUnits(reader, group, includes,
                            Map((name: string) => ComparableUnit(reader.upper(name), "FUGR/I", Some(group), GroupUrl(reader, group, "includes", name)), includes))
  {
    forall i | 0 <= i < |includes|
      ensures GroupUrl(reader, group, "includes", includes[i])
           == "/sap/bc/adt/functions/groups/" + reader.encodedLower(group) + "/includes/" + reader.encodedLower(includes[i]) + "/source/main"
    {
      IncludeUrl(reader, group, includes[i]);
    }
    hide GroupUrl;
  }

  lemma GroupUnitsExactly(reader: Reader, call: Call)
    ensures AreGroupUnits(reader, call.group.name, Names(reader.modules(call)), Names(reader.includes(call)), Expand(reader, call))
  {
    var modules, includes, group := Names(reader.modules(call)), Names(reader.includes(call)), call.group.name;
    assert modules == OrEmpty(reader.modules(call)) && includes == OrEmpty(reader.includes(call));
    ModuleUnitsExactly(reader, group, modules);
    IncludeUnitsExactly(reader, group, includes);
    hide AreModuleUnits, AreIncludeUnits, GroupUrl, Names, OrEmpty;
    var a := Map((fm: string) => ComparableUnit(reader.upper(fm), "FUGR/FF", Some(group), GroupUrl(reader, group, "fmodules", fm)), modules);
    var b := Map((name: string) => ComparableUnit(reader.upper(name), "FUGR/I", Some(group), GroupUrl(reader, group, "includes", name)), includes);
    assert Expand(reader, call) == a + b;
    assert (a + b)[..|modules|] == a && (a + b)[|modules|..] == b;
  }

  lemma TreatmentExactly(kind: string)
    ensures HasOwnSource(kind) <==> TreatmentOf(kind) == ReadDirectly
    ensures !HasOwnSource(kind) ==> (IsFunctionGroup(kind) <==> TreatmentOf(kind) == ExpandGroup)
  {
    assert HasOwnSource(kind) <==> kind in DIRECT_SOURCE_TYPES;
    assert IsFunctionGroup(kind) <==> kind in FUNCTION_GROUP_TYPES;
    hide HasOwnSource, IsFunctionGroup;
  }

  lemma ItemUnitsExactly(reader: Reader, filter: Option<set<string>>, item: Entry, n: nat, kept: map<string, Call>)
    ensures AreItemUnits(reader, filter, item, kept, ListedUnits(reader, filter, item, n, kept))
  {
    TreatmentExactly(item.kind);
    hide HasOwnSource, IsFunctionGroup, TreatmentOf, Expand, AreGroupUnits;
    if reader.upper(item.name) in kept {
      GroupUnitsExactly(reader, kept[reader.upper(item.name)]);
    }
  }

  /** One part of the result per item, in the order of the items. */
  ghost predicate InItemOrder(reader: Reader, filter: Option<set<string>>, items: seq<Entry>, kept: map<string, Call>,
                              units: seq<ComparableUnit>, parts: seq<seq<ComparableUnit>>)
  {
    && units == Flatten(parts) && |parts| == |items|
    && forall n :: 0 <= n < |items| ==> AreItemUnits(reader, filter, items[n], kept, parts[n])
  }

  lemma {:induction false} UnitsInOrder(reader: Reader, filter: Option<set<string>>, items: seq<Entry>, kept: map<string, Call>)
    returns (parts: seq<seq<ComparableUnit>>)
    ensures InItemOrder(reader, filter, items, kept, AllUnits(reader, filter, items, kept), parts)
  {
    hide AreItemUnits, ListedUnits;
    if |items| == 0 {
      parts := [];
    } else {
      var n := |items| - 1;
      var before := UnitsInOrder(reader, filter, items[..n], kept);
      var last := ListedUnits(reader, filter, items[n], n, kept);
      ItemUnitsExactly(reader, filter, items[n], n, kept);
      FlattenSnoc(before, last);
      parts := before + [last];
      forall k | 0 <= k < |items| ensures AreItemUnits(reader, filter, items[k], kept, parts[k]) {
        assert k < n ==> items[..n][k] == items[k] && before[k] == parts[k];
      }
    }
  }

  /** The unit belongs to the item, as an object of its own or as a part of the function group. */
  ghost predicate BelongsTo(reader: Reader, filter: Option<set<string>>, item: Entry, kept: map<string, Call>, u: ComparableUnit) {
    var name := reader.upper(item.name);
    && Looked(reader, filter, item)
    && if HasOwnSource(item.kind) then IsObjectUnit(reader, item, u)
       else IsFunctionGroup(item.kind) && name in kept && IsPartOf(reader, kept[name], u)
  }

  /** The unit is of a module or an include that the call has listed. */
  ghost predicate IsPartOf(reader: Reader, call: Call, u: ComparableUnit) {
    || (exists fm :: fm in Names(reader.modules(call)) && IsModuleUnit(reader, call.group.name, fm, u))
    || (exists name :: name in Names(reader.includes(call)) && IsIncludeUnit(reader, call.group.name, name, u))
  }

  lemma PartsOfGroup(reader: Reader, call: Call, units: seq<ComparableUnit>, u: ComparableUnit)
    requires AreGroupUnits(reader, call.group.name, Names(reader.modules(call)), Names(reader.includes(call)), units)
    ensures u in units <==> IsPartOf(reader, call, u)
  {
    hide Names, AreModuleUnits, AreIncludeUnits;
    var modules, includes := Names(reader.modules(call)), Names(reader.includes(call));
    assert units == units[..|modules|] + units[|modules|..];
    ModuleMembers(reader, call.group.name, modules, units[..|modules|], u);
    IncludeMembers(reader, call.group.name, includes, units[|modules|..], u);
  }

  lemma ModuleMembers(reader: Reader, group: string, modules: seq<string>, units: seq<ComparableUnit>, u: ComparableUnit)
    requires AreModuleUnits(reader, group, modules, units)
    ensures u in units <==> exists fm :: fm in modules && IsModuleUnit(reader, group, fm, u)
  {
    forall fm, v | IsModuleUnit(reader, group, fm, u) && IsModuleUnit(reader, group, fm, v) ensures v == u {
    }
    hide IsModuleUnit;
    if k :| 0 <= k < |units| && units[k] == u {
      assert modules[k] in modules;
    }
    if fm :| fm in modules && IsModuleUnit(reader, group, fm, u) {
      var i :| 0 <= i < |modules| && modules[i] == fm;
      assert IsModuleUnit(reader, group, fm, units[i]);
    }
  }

  lemma IncludeMembers(reader: Reader, group: string, includes: seq<string>, units: seq<ComparableUnit>, u: ComparableUnit)
    requires AreIncludeUnits(reader, group, includes, units)
    ensures u in units <==> exists name :: name in includes && IsIncludeUnit(reader, group, name, u)
  {
    forall name, v | IsIncludeUnit(reader, group, name, u) && IsIncludeUnit(reader, group, name, v) ensures v == u {
    }
    hide IsIncludeUnit;
    if k :| 0 <= k < |units| && units[k] == u {
      assert includes[k] in includes;
    }
    if name :| name in includes && IsIncludeUnit(reader, group, name, u) {
      var i :| 0 <= i < |includes| && includes[i] == name;
      assert IsIncludeUnit(reader, group, name, units[i]);
    }
  }

  /** The result holds exactly the units that belong to an item. */
  lemma UnitsExactly(reader: Reader, filter: Option<set<string>>, items: seq<Entry>, kept: map<string, Call>, u: ComparableUnit)
    ensures u in AllUnits(reader, filter, items, kept) <==> exists n :: 0 <= n < |items| && BelongsTo(reader, filter, items[n], kept, u)
  {
    var parts := UnitsInOrder(reader, filter, items, kept);
    FlattenMembers(parts, u);
    hide AllUnits, BelongsTo, Flatten;
    forall n | 0 <= n < |items| ensures u in parts[n] <==> BelongsTo(reader, filter, items[n], kept, u) {
      ItemUnitMembers(reader, filter, items[n], kept, parts[n], u);
    }
  }

  lemma ItemUnitMembers(reader: Reader, filter: Option<set<string>>, item: Entry, kept: map<string, Call>, units: seq<ComparableUnit>, u: ComparableUnit)
    requires AreItemUnits(reader, filter, item, kept, units)
    ensures u in units <==> BelongsTo(reader, filter, item, kept, u)
  {
    var name := reader.upper(item.name);
    hide AreGroupUnits, IsPartOf, HasOwnSource, IsFunctionGroup;
    if Looked(reader, filter, item) && !HasOwnSource(item.kind) && IsFunctionGroup(item.kind) && name in kept {
      PartsOfGroup(reader, kept[name], units, u);
    }
  }

  /** The reads for item n yield nothing: its address cannot be built, its group has neither modules nor includes, or it is of
      a type that is not compared. */
  ghost predicate YieldsNothing(reader: Reader, item: Entry, n: nat) {
    var name := reader.upper(item.name);
    var call := Call(Entry(name, item.kind), n);
    if HasOwnSource(item.kind) then reader.objectUri(name, item.kind).None?
    else IsFunctionGroup(item.kind) ==>
           && (reader.modules(call).Some? ==> reader.modules(call).value == [])
           && (reader.includes(call).Some? ==> reader.includes(call).value == [])
  }

  lemma WithoutUnitsExactly(reader: Reader, filter: Option<set<string>>, item: Entry, n: nat)
    ensures WithoutUnits(reader, filter, item, n) <==> Looked(reader, filter, item) && YieldsNothing(reader, item, n)
  {
    var call := Call(Reported(reader, item), n);
    TreatmentExactly(item.kind);
    hide HasOwnSource, IsFunctionGroup, TreatmentOf;
    assert |Expand(reader, call)| == |OrEmpty(reader.modules(call))| + |OrEmpty(reader.includes(call))|;
  }

  /** An entry is reported if and only if it stands for an item looked at whose reads yield nothing. */
  lemma MissingExactly(reader: Reader, filter: Option<set<string>>, items: seq<Entry>, e: Entry)
    ensures e in Missing(reader, filter, items)
            <==> exists n :: 0 <= n < |items| && e == Entry(reader.upper(items[n].name), items[n].kind)
                             && Looked(reader, filter, items[n]) && YieldsNothing(reader, items[n], n)
  {
    MissingMembers(reader, filter, items, e);
    hide WithoutUnits, YieldsNothing, Looked, Missing;
    forall n | 0 <= n < |items|
      ensures WithoutUnits(reader, filter, items[n], n) <==> Looked(reader, filter, items[n]) && YieldsNothing(reader, items[n], n)
    {
      WithoutUnitsExactly(reader, filter, items[n], n);
    }
  }

  lemma {:induction false} MissingMembers(reader: Reader, filter: Option<set<string>>, items: seq<Entry>, e: Entry)
    ensures e in Missing(reader, filter, items)
            <==> exists n :: 0 <= n < |items| && Reported(reader, items[n]) == e && WithoutUnits(reader, filter, items[n], n)
  {
    hide UnitsOf;
    if |items| != 0 {
      var last := |items| - 1;
      MissingMembers(reader, filter, items[..last], e);
      assert forall n :: 0 <= n < last ==> items[..last][n] == items[n];
    }
  }

  /** The entry stands for item n, which is looked at and whose reads yield nothing. */
  ghost predicate StandsFor(reader: Reader, filter: Option<set<string>>, item: Entry, n: nat, e: Entry) {
    e == Entry(reader.upper(item.name), item.kind) && Looked(reader, filter, item) && YieldsNothing(reader, item, n)
  }

  ghost function ReportedFor(reader: Reader, filter: Option<set<string>>, items: seq<Entry>, e: Entry): set<nat> {
    set n: nat | n < |items| && StandsFor(reader, filter, items[n], n, e)
  }

  lemma ReportedForSnoc(reader: Reader, filter: Option<set<string>>, items: seq<Entry>, e: Entry)
    requires |items| > 0
    ensures var n := |items| - 1; var before := ReportedFor(reader, filter, items[..n], e);
            && ReportedFor(reader, filter, items, e) == (if StandsFor(reader, filter, items[n], n, e) then before + {n} else before)
            && n !in before
  {
    hide StandsFor;
  }

  lemma MissingSnoc(reader: Reader, filter: Option<set<string>>, items: seq<Entry>, e: Entry)
    requires |items| > 0
    ensures var n := |items| - 1;
            Missing(reader, filter, items)[e] == Missing(reader, filter, items[..n])[e] + if StandsFor(reader, filter, items[n], n, e) then 1 else 0
  {
    var n := |items| - 1;
    WithoutUnitsExactly(reader, filter, items[n], n);
    hide WithoutUnits, YieldsNothing, Looked;
  }

  /** An entry is reported as often as it stands for an item. */
  lemma {:induction false} MissingCounted(reader: Reader, filter: Option<set<string>>, items: seq<Entry>, e: Entry)
    ensures Missing(reader, filter, items)[e] == |ReportedFor(reader, filter, items, e)|
  {
    hide StandsFor;
    if |items| == 0 {
      assert ReportedFor(reader, filter, items, e) == {};
    } else {
      MissingCounted(reader, filter, items[..|items| - 1], e);
      MissingSnoc(reader, filter, items, e);
      ReportedForSnoc(reader, filter, items, e);
      hide Missing, ReportedFor;
    }
  }

  /** The call asks for a function group looked at. */
  ghost predicate IsCall(reader: Reader, filter: Option<set<string>>, items: seq<Entry>, c: Call) {
    && c.item < |items| && c.group == Entry(reader.upper(items[c.item].name), items[c.item].kind)
    && Looked(reader, filter, items[c.item]) && !HasOwnSource(items[c.item].kind) && IsFunctionGroup(items[c.item].kind)
  }

  lemma IsCallSnoc(reader: Reader, filter: Option<set<string>>, items: seq<Entry>, c: Call)
    requires |items| > 0
    ensures var n := |items| - 1;
            && (IsCall(reader, filter, items[..n], c) ==> c.item < n)
            && (IsCall(reader, filter, items, c)
                <==> IsCall(reader, filter, items[..n], c) || (IsGroup(reader, filter, items[n]) && c == Call(Reported(reader, items[n]), n)))
  {
    var n := |items| - 1;
    TreatmentExactly(items[n].kind);
    hide HasOwnSource, IsFunctionGroup, TreatmentOf;
    assert c.item < n ==> items[..n][c.item] == items[c.item];
  }

  /** The calls are those for the function groups looked at, in the order of the items. */
  lemma {:induction false} CallsExactly(reader: Reader, filter: Option<set<string>>, items: seq<Entry>)
    ensures var calls := CallsOf(reader, filter, items);
            && (forall c :: c in calls <==> IsCall(reader, filter, items, c))
            && forall i, j :: 0 <= i < j < |calls| ==> calls[i].item < calls[j].item
  {
    assert forall c :: IsCall(reader, filter, items, c) ==> |items| != 0;
    hide IsCall;
    if |items| != 0 {
      var n := |items| - 1;
      CallsExactly(reader, filter, items[..n]);
      var before, calls := CallsOf(reader, filter, items[..n]), CallsOf(reader, filter, items);
      forall c ensures c in calls <==> IsCall(reader, filter, items, c) {
        IsCallSnoc(reader, filter, items, c);
      }
      forall i, j | 0 <= i < j < |calls| ensures calls[i].item < calls[j].item {
        assert before[i] in before;
        IsCallSnoc(reader, filter, items, before[i]);
      }
    }
  }

  method CollectComparableUnits(reader: Reader, items: seq<Entry>, filter: Option<set<string>>, expansionConcurrency: Option<int>)
    returns (units: seq<ComparableUnit>, notComparable: seq<Entry>, objectCount: nat,
             ghost order: seq<nat>, ghost parts: seq<seq<ComparableUnit>>, ghost workers: nat)
    ensures Permutation(order, |CallsOf(reader, filter, items)|)
    ensures units == AllUnits(reader, filter, items, Kept(CallsOf(reader, filter, items), order))
    ensures InItemOrder(reader, filter, items, Kept(CallsOf(reader, filter, items), order), units, parts)
    ensures multiset(notComparable) == Missing(reader, filter, items)
    ensures objectCount == |items|
    ensures var limit, calls := match expansionConcurrency { case Some(n) => n case None => 8 }, |CallsOf(reader, filter, items)|;
            workers == if limit <= 1 || calls <= 1 then 1 else if limit < calls then limit else calls
  {
    hide Expand, AllUnits, Missing, Effects, SlotUnits, SlotGaps, EmptyGroups, InItemOrder;
    var slots, early := Classify(reader, filter, items);
    var calls := GroupsOf(slots);
    var limit := if expansionConcurrency.Some? then expansionConcurrency.value else DEFAULT_EXPANSIONS;
    var run := new Run(TaskFor(reader, calls, early), limit);
    workers := |run.workers|;
    order := run.Finish();
    parts := UnitsInOrder(reader, filter, items, Kept(calls, order));
    Expanded(reader, calls, early, order);
    SlotGapsAreEmptyGroups(reader, slots);
    units := Reassemble(reader, slots, run.shared.expanded, Kept(calls, order));
    notComparable, objectCount := run.shared.notComparable, |items|;
  }

  // ---------- What the result means for an item ----------

  lemma GroupCalls(reader: Reader, filter: Option<set<string>>, items: seq<Entry>, c: Call)
    ensures c in CallsOf(reader, filter, items)
            <==> c.item < |items| && IsGroup(reader, filter, items[c.item]) && c.group == Reported(reader, items[c.item])
  {
    CallsExactly(reader, filter, items);
    if c.item < |items| {
      TreatmentExactly(items[c.item].kind);
    }
    hide HasOwnSource, IsFunctionGroup, TreatmentOf, CallsOf;
  }

  lemma {:induction false} KeptInOrder(calls: seq<Call>, order: seq<nat>)
    requires forall k :: 0 <= k < |order| ==> order[k] < |calls|
    ensures forall k :: 0 <= k < |order| ==> calls[order[k]].group.name in Kept(calls, order)
    ensures forall name :: name in Kept(calls, order) ==> Kept(calls, order)[name] in calls && Kept(calls, order)[name].group.name == name
  {
    if |order| != 0 {
      KeptInOrder(calls, order[..|order| - 1]);
    }
  }

  /** The call that counts for a name is the last in the order of completion that was made for it. */
  lemma {:induction false} KeptExactly(calls: seq<Call>, order: seq<nat>, name: string, c: Call)
    requires forall k :: 0 <= k < |order| ==> order[k] < |calls|
    ensures name in Kept(calls, order) && Kept(calls, order)[name] == c
            <==> exists k :: 0 <= k < |order| && calls[order[k]] == c && c.group.name == name
                             && forall j :: k < j < |order| ==> calls[order[j]].group.name != name
  {
    if |order| != 0 {
      var n := |order| - 1;
      KeptExactly(calls, order[..n], name, c);
      if calls[order[n]].group.name == name {
        assert calls[order[n]].group.name == name;
      } else {
        assert forall k :: 0 <= k < n ==> order[..n][k] == order[k];
      }
    }
  }

  /** Whichever call finishes last, one of the calls made for the name of a group answers for it. */
  lemma KeptIsCall(calls: seq<Call>, order: seq<nat>, c: Call)
    requires Permutation(order, |calls|) && c in calls
    ensures var kept, name := Kept(calls, order), c.group.name; name in kept && kept[name] in calls && kept[name].group.name == name
  {
    KeptInOrder(calls, order);
    var i :| 0 <= i < |calls| && calls[i] == c;
    assert i in order;
    var k :| 0 <= k < |order| && order[k] == i;
  }

  /** The units listed for an item are in the result. */
  lemma {:induction false} UnitsListed(reader: Reader, filter: Option<set<string>>, items: seq<Entry>, kept: map<string, Call>, n: nat)
    requires n < |items|
    ensures forall u :: u in ListedUnits(reader, filter, items[n], n, kept) ==> u in AllUnits(reader, filter, items, kept)
  {
    hide ListedUnits;
    if n < |items| - 1 {
      UnitsListed(reader, filter, items[..|items| - 1], kept, n);
    }
  }

  /** The name of a group is asked for once. */
  ghost predicate AskedOnce(reader: Reader, filter: Option<set<string>>, items: seq<Entry>, n: nat)
    requires n < |items|
  {
    forall m :: 0 <= m < |items| && IsGroup(reader, filter, items[m]) && reader.upper(items[m].name) == reader.upper(items[n].name) ==> m == n
  }

  /** Unless it is a group listed more than once, a considered item is reported if and only if it has no units in the result;
      and these are the units its reads yield. */
  lemma EveryItemAccounted(reader: Reader, filter: Option<set<string>>, items: seq<Entry>, order: seq<nat>, n: nat)
    requires n < |items| && Considered(reader, filter, items[n])
    requires IsGroup(reader, filter, items[n]) ==> AskedOnce(reader, filter, items, n)
    requires Permutation(order, |CallsOf(reader, filter, items)|)
    ensures var kept := Kept(CallsOf(reader, filter, items), order);
            && ListedUnits(reader, filter, items[n], n, kept) == UnitsOf(reader, filter, items[n], n)
            && (ListedUnits(reader, filter, items[n], n, kept) == [] <==> Reported(reader, items[n]) in Missing(reader, filter, items))
            && (forall u :: u in ListedUnits(reader, filter, items[n], n, kept) ==> u in AllUnits(reader, filter, items, kept))
  {
    var calls, item := CallsOf(reader, filter, items), items[n];
    hide TreatmentOf, Expand, DirectUnit, CallsOf, Kept, Missing, AllUnits;
    UnitsListed(reader, filter, items, Kept(calls, order), n);
    MissingMembers(reader, filter, items, Reported(reader, item));
    if IsGroup(reader, filter, item) {
      var c := Call(Reported(reader, item), n);
      GroupCalls(reader, filter, items, c);
      KeptIsCall(calls, order, c);
      GroupCalls(reader, filter, items, Kept(calls, order)[c.group.name]);
    }
  }

  /** A group is reported, and yet has units in the result, if and only if a call for the same entry yields none while the
      call that answers for the name yields some. */
  lemma ReportedWithUnits(reader: Reader, filter: Option<set<string>>, items: seq<Entry>, order: seq<nat>, n: nat)
    requires n < |items| && IsGroup(reader, filter, items[n]) && Permutation(order, |CallsOf(reader, filter, items)|)
    ensures var kept, group := Kept(CallsOf(reader, filter, items), order), Reported(reader, items[n]);
            && group.name in kept
            && (group in Missing(reader, filter, items) && ListedUnits(reader, filter, items[n], n, kept) != []
                <==> Expand(reader, kept[group.name]) != []
                     && exists c :: c in CallsOf(reader, filter, items) && c.group == group && Expand(reader, c) == [])
  {
    var calls, group := CallsOf(reader, filter, items), Reported(reader, items[n]);
    GroupMissing(reader, filter, items, n);
    GroupCalls(reader, filter, items, Call(group, n));
    hide Expand, CallsOf, Kept, Missing, UnitsOf, TreatmentOf;
    KeptIsCall(calls, order, Call(group, n));
  }

  lemma GroupMissing(reader: Reader, filter: Option<set<string>>, items: seq<Entry>, n: nat)
    requires n < |items| && IsGroup(reader, filter, items[n])
    ensures Reported(reader, items[n]) in Missing(reader, filter, items)
            <==> exists c :: c in CallsOf(reader, filter, items) && c.group == Reported(reader, items[n]) && Expand(reader, c) == []
  {
    var calls, group := CallsOf(reader, filter, items), Reported(reader, items[n]);
    MissingMembers(reader, filter, items, group);
    hide Expand, DirectUnit, CallsOf, Missing;
    if m :| 0 <= m < |items| && Reported(reader, items[m]) == group && WithoutUnits(reader, filter, items[m], m) {
      GroupCalls(reader, filter, items, Call(group, m));
    }
    if c :| c in calls && c.group == group && Expand(reader, c) == [] {
      GroupCalls(reader, filter, items, c);
      assert WithoutUnits(reader, filter, items[c.item], c.item);
    }
  }

  /** A group listed twice, whose first expansion fails and whose second, which finishes last, finds a module. */
  lemma ReportedAndListed(group: Entry, fm: string, reader: Reader)
    requires reader.upper(group.name) == group.name != "" && TreatmentOf(group.kind) == ExpandGroup
    requires reader.modules(Call(group, 0)) == None && reader.includes(Call(group, 0)) == None
    requires reader.modules(Call(group, 1)) == Some([fm])
    ensures var items := [group, group];
            && CallsOf(reader, None, items) == [Call(group, 0), Call(group, 1)] && Permutation([0, 1], 2)
            && group in Missing(reader, None, items)
            && AllUnits(reader, None, items, Kept(CallsOf(reader, None, items), [0, 1])) != []
  {
    var items, calls := [group, group], [Call(group, 0), Call(group, 1)];
    assert IsGroup(reader, None, group) && Reported(reader, group) == group;
    CallsTwice(group, reader);
    KeptSecond(group);
    assert Expand(reader, Call(group, 0)) == [] && |Expand(reader, Call(group, 1))| > 0;
    hide TreatmentOf, CallsOf, Kept, Expand, Missing, AllUnits;
    MissingMembers(reader, None, items, group);
    assert WithoutUnits(reader, None, items[0], 0);
    UnitsListed(reader, None, items, Kept(calls, [0, 1]), 1);
    assert Expand(reader, Call(group, 1))[0] in ListedUnits(reader, None, items[1], 1, Kept(calls, [0, 1]));
  }

  lemma KeptSecond(group: Entry)
    ensures Permutation([0, 1], 2) && Kept([Call(group, 0), Call(group, 1)], [0, 1]) == map[group.name := Call(group, 1)]
  {
    assert [0, 1][..1] == [0] && [0][..0] == [];
    assert Kept([Call(group, 0), Call(group, 1)], [0]) == map[group.name := Call(group, 0)];
  }

  lemma CallsTwice(group: Entry, reader: Reader)
    requires IsGroup(reader, None, group) && reader.upper(group.name) == group.name
    ensures CallsOf(reader, None, [group, group]) == [Call(group, 0), Call(group, 1)]
  {
    hide IsGroup;
    assert [group, group][..1] == [group] && [group][..0] == [];
    assert CallsOf(reader, None, [group]) == [Call(group, 0)];
  }
}
