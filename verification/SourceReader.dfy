/** Which source units a target yields, and in what order (src/lib/search-source/sourceReader.ts, `readSourceUnits`). */
module SourceReader {
  import opened Sequences
  import opened Order
  import opened Deduplication
  import opened Text
  import opened SearchSource
  import SearchOutcome
  import SourceNormalisation

  datatype Child = Child(objectType: string, objectName: string)

  /** A read that fails is answered like one that finds nothing. */
  datatype Reader = Reader(
    program: string -> Option<string>,
    classMain: string -> Option<string>,
    structure: string -> Option<seq<Child>>,
    functionModule: (string, string) -> Option<string>,
    includeSource: string -> Option<string>,
    upper: string -> string)

  // ---------- Lines ----------

  /** `text.split(/\r?\n/)`. */
  function SplitLines(text: string): (lines: seq<string>)
    ensures |lines| > 0
  {
    if |text| == 0 then [""]
    else if "\r\n" <= text then [""] + SplitLines(text[2..])
    else if text[0] == '\n' then [""] + SplitLines(text[1..])
    else SourceNormalisation.Prepend(text[0], SplitLines(text[1..]))
  }

  lemma JoinEmptyFirst(lines: seq<string>)
    requires |lines| > 0
    ensures SourceNormalisation.Join([""] + lines) == "\n" + SourceNormalisation.Join(lines)
  {
    assert ([""] + lines)[1..] == lines;
  }

  lemma AssociateFour(a: string, b: string, x: string, y: string)
    ensures (a + b) + x + y == a + (b + x + y)
  {
  }

  lemma JoinPrepend(c: char, lines: seq<string>)
    requires |lines| > 0
    ensures SourceNormalisation.Join(SourceNormalisation.Prepend(c, lines)) == [c] + SourceNormalisation.Join(lines)
  {
    var longer := SourceNormalisation.Prepend(c, lines);
    assert longer[0] == [c] + lines[0] && longer[1..] == lines[1..];
    if |lines| > 1 {
      AssociateFour([c], lines[0], "\n", SourceNormalisation.Join(lines[1..]));
    }
  }

  /** The lines hold no line feed and, joined again, give the text with its CRLF turned into LF. */
  lemma {:induction false} SplitLinesJoin(text: string)
    ensures SourceNormalisation.Join(SplitLines(text)) == ReplaceAll(text, "\r\n", "\n")
    ensures forall line :: line in SplitLines(text) ==> '\n' !in line
  {
    if |text| > 0 {
      if "\r\n" <= text {
        SplitLinesJoin(text[2..]);
        JoinEmptyFirst(SplitLines(text[2..]));
      } else {
        SplitLinesJoin(text[1..]);
        var more := SplitLines(text[1..]);
        assert more[0] in more && forall line :: line in more[1..] ==> line in more;
        if text[0] == '\n' {
          JoinEmptyFirst(more);
        } else {
          JoinPrepend(text[0], more);
        }
      }
    }
  }

  lemma OneLineHasNoBreak(lines: seq<string>)
    requires |lines| > 0 && '\n' !in lines[0]
    ensures |lines| == 1 <==> '\n' !in SourceNormalisation.Join(lines)
  {
    if |lines| > 1 {
      assert SourceNormalisation.Join(lines)[|lines[0]|] == '\n';
    }
  }

  /** Lists of lines without line feeds are told apart by their joined text. */
  lemma {:induction false} JoinInjective(a: seq<string>, b: seq<string>)
    requires |a| > 0 && |b| > 0 && SourceNormalisation.Join(a) == SourceNormalisation.Join(b)
    requires (forall line :: line in a ==> '\n' !in line) && (forall line :: line in b ==> '\n' !in line)
    ensures a == b
  {
    assert a[0] in a && b[0] in b;
    OneLineHasNoBreak(a);
    OneLineHasNoBreak(b);
    if |a| > 1 {
      assert (forall line :: line in a[1..] ==> line in a) && (forall line :: line in b[1..] ==> line in b);
      FirstWord('\n', a[0], b[0], SourceNormalisation.Join(a[1..]), SourceNormalisation.Join(b[1..]));
      JoinInjective(a[1..], b[1..]);
      assert a == [a[0]] + a[1..] && b == [b[0]] + b[1..];
    }
  }

  /** No other list of lines does that. */
  lemma SplitLinesUnique(text: string, lines: seq<string>)
    requires |lines| > 0 && forall line :: line in lines ==> '\n' !in line
    ensures SourceNormalisation.Join(lines) == ReplaceAll(text, "\r\n", "\n") <==> lines == SplitLines(text)
  {
    SplitLinesJoin(text);
    if SourceNormalisation.Join(lines) == ReplaceAll(text, "\r\n", "\n") {
      JoinInjective(lines, SplitLines(text));
    }
  }

  // ---------- The children of a function group ----------

  predicate IsViewFm(upper: string -> string, name: string) {
    |name| >= 4 && upper(name[..4]) == "VIEW"
  }

  /** Parts of the group other than the generated modules of a maintenance view. */
  predicate Kept(upper: string -> string, c: Child) {
    !(c.objectType == "FUGR/FF" && IsViewFm(upper, c.objectName)) && "FUGR/" <= c.objectType
  }

  function ChildKey(c: Child): string {
    c.objectType + "|" + c.objectName
  }

  /** The comparator of children, only ever asked about different ones. */
  predicate ChildLe(a: Child, b: Child) {
    if a.objectType != b.objectType then Less(a.objectType, b.objectType)
    else a.objectName == b.objectName || Less(a.objectName, b.objectName)
  }

  lemma ChildLePreorder()
    ensures TotalPreorder(ChildLe)
  {
    forall x, y, z ensures ChildLe(x, y) || ChildLe(y, x)
      ensures ChildLe(x, y) && ChildLe(y, z) ==> ChildLe(x, z)
    {
      SearchOutcome.LessOrder(x.objectType, y.objectType, z.objectType);
      SearchOutcome.LessOrder(y.objectType, z.objectType, x.objectType);
      SearchOutcome.LessOrder(x.objectName, y.objectName, z.objectName);
      SearchOutcome.LessOrder(y.objectName, z.objectName, x.objectName);
    }
  }

  function KeptBy(upper: string -> string): Child -> bool {
    c => Kept(upper, c)
  }

  /** The children read, in order. */
  ghost function ReadingOrder(upper: string -> string, children: seq<Child>): seq<Child> {
    Sort(ChildLe, FirstOfKeys(ChildKey, Filter(KeptBy(upper), children)))
  }

  function ReadChild(reader: Reader, group: string, c: Child): Option<string> {
    if c.objectType == "FUGR/FF" then reader.functionModule(group, c.objectName) else reader.includeSource(c.objectName)
  }

  function UnitFrom(name: string, source: Option<string>): seq<SourceUnit> {
    if source.Some? then [SourceUnit(name, SplitLines(source.value))] else []
  }

  function ChildUnits(reader: Reader, group: string): Child -> seq<SourceUnit> {
    (c: Child) => UnitFrom(c.objectName, ReadChild(reader, group, c))
  }

  /** The units of a target. */
  ghost function UnitsOf(reader: Reader, target: Target): seq<SourceUnit> {
    match target.objectType
    case PROG => UnitFrom(target.objectName, reader.program(target.objectName))
    case CLAS => UnitFrom(target.objectName, reader.classMain(target.objectName))
    case FUGR =>
      var children := reader.structure(target.objectName);
      if children.None? then []
      else Flatten(Map(ChildUnits(reader, target.objectName), ReadingOrder(reader.upper, children.value)))
  }

  lemma KeptMembers(upper: string -> string, children: seq<Child>)
    ensures forall c :: c in Filter(KeptBy(upper), children) <==> c in children && Kept(upper, c)
  {
    FilterMembers(KeptBy(upper), children);
  }

  /** A part of the group, other than a module whose name begins with VIEW, in upper or lower case. */
  ghost predicate IsPart(upper: string -> string, c: Child) {
    "FUGR/" <= c.objectType && (c.objectType == "FUGR/FF" && |c.objectName| >= 4 ==> upper(c.objectName[..4]) != "VIEW")
  }

  /** Parts go by type and name. */
  ghost predicate PartsInOrder(a: Child, b: Child) {
    || Alphabetical(a.objectType, b.objectType)
    || (a.objectType == b.objectType && (a.objectName == b.objectName || Alphabetical(a.objectName, b.objectName)))
  }

  lemma ChildLeExactly(a: Child, b: Child)
    ensures ChildLe(a, b) <==> PartsInOrder(a, b)
  {
    LessExactly(a.objectType, b.objectType);
    LessExactly(a.objectName, b.objectName);
    SearchOutcome.LessOrder(a.objectType, b.objectType, "");
    SearchOutcome.LessOrder(a.objectName, b.objectName, "");
  }

  ghost predicate SharesKey(a: Child, b: Child) {
    a.objectType + "|" + a.objectName == b.objectType + "|" + b.objectName
  }

  /** No two different parts share a key. */
  ghost predicate PartsToldApart(upper: string -> string, children: seq<Child>) {
    forall a, b :: a in children && b in children && IsPart(upper, a) && IsPart(upper, b) && SharesKey(a, b) ==> a == b
  }

  /** The children read are sorted and distinct parts of the group, and they are all of them if and only if no two different
      parts share a key. */
  lemma ChildrenRead(upper: string -> string, children: seq<Child>)
    ensures var order := ReadingOrder(upper, children);
            && Sorted(PartsInOrder, order) && NoDuplicates(order)
            && (forall c :: c in order ==> c in children && IsPart(upper, c))
            && ((forall c :: c in children && IsPart(upper, c) ==> c in order)
                <==> PartsToldApart(upper, children))
  {
    PartsKept(upper, children);
    PartsSorted(upper, children);
    hide Sort, FirstOfKeys, Sorted, KeysTellApart, ChildLe, PartsInOrder, TotalPreorder, NoDuplicates, Filter, IsPart, ChildKey, PartsToldApart;
    ChildLePreorder();
    SortedFirsts(ChildLe, ChildKey, Filter(KeptBy(upper), children));
  }

  lemma PartsSorted(upper: string -> string, children: seq<Child>)
    ensures Sorted(PartsInOrder, ReadingOrder(upper, children))
  {
    var first, order := FirstOfKeys(ChildKey, Filter(KeptBy(upper), children)), ReadingOrder(upper, children);
    ChildLePreorder();
    SortSorts(ChildLe, first);
    hide Sort, ChildLe, PartsInOrder, TotalPreorder, FirstOfKeys, Filter;
    forall i, j | 0 <= i < j < |order| ensures PartsInOrder(order[i], order[j]) {
      ChildLeExactly(order[i], order[j]);
    }
  }

  lemma PartsKept(upper: string -> string, children: seq<Child>)
    ensures forall c :: c in Filter(KeptBy(upper), children) <==> c in children && IsPart(upper, c)
    ensures KeysTellApart(ChildKey, Filter(KeptBy(upper), children)) <==> PartsToldApart(upper, children)
  {
    KeptMembers(upper, children);
    var kept := Filter(KeptBy(upper), children);
    forall c ensures c in kept <==> c in children && IsPart(upper, c) {
    }
    hide Filter, Kept, IsPart;
    if KeysTellApart(ChildKey, kept) {
      forall a, b | a in children && b in children && IsPart(upper, a) && IsPart(upper, b) && SharesKey(a, b) ensures a == b {
        assert a in kept && b in kept && ChildKey(a) == ChildKey(b);
      }
    } else {
      var a, b :| a in kept && b in kept && ChildKey(a) == ChildKey(b) && a != b;
      assert SharesKey(a, b);
    }
  }

  /** Types without a bar tell children apart; names may hold one. */
  lemma BarFreeTypes(children: seq<Child>)
    requires forall c :: c in children ==> '|' !in c.objectType
    ensures forall a, b :: a in children && b in children && SharesKey(a, b) ==> a == b
  {
    forall a, b | a in children && b in children && SharesKey(a, b) ensures a == b {
      FirstWord('|', a.objectType, b.objectType, a.objectName, b.objectName);
    }
  }

  /** The source was read, and the unit has that name and its lines. */
  ghost predicate HasLines(u: SourceUnit, name: string, source: Option<string>) {
    source.Some? && u.includeName == name && u.lines == SplitLines(source.value)
  }

  /** The source of a part: of a module, as the function module of that group; of any other, as an include. */
  ghost predicate IsUnitOfPart(reader: Reader, group: string, c: Child, u: SourceUnit) {
    && (c.objectType == "FUGR/FF" ==> HasLines(u, c.objectName, reader.functionModule(group, c.objectName)))
    && (c.objectType != "FUGR/FF" ==> HasLines(u, c.objectName, reader.includeSource(c.objectName)))
  }

  /** A unit of a program, of a class, or of a part of a function group. */
  ghost predicate IsUnitOf(reader: Reader, t: Target, u: SourceUnit) {
    match t.objectType
    case PROG => HasLines(u, t.objectName, reader.program(t.objectName))
    case CLAS => HasLines(u, t.objectName, reader.classMain(t.objectName))
    case FUGR =>
      && reader.structure(t.objectName).Some?
      && exists c :: c in reader.structure(t.objectName).value && IsPart(reader.upper, c) && IsUnitOfPart(reader, t.objectName, c, u)
  }

  lemma ChildUnitsExactly(reader: Reader, group: string, c: Child, u: SourceUnit)
    ensures u in ChildUnits(reader, group)(c) <==> IsUnitOfPart(reader, group, c, u)
    ensures |ChildUnits(reader, group)(c)| <= 1
  {
  }

  /** A target yields exactly its units; those of a function group provided that no type of its parts holds a bar. */
  lemma UnitsExactly(reader: Reader, target: Target, u: SourceUnit)
    requires target.objectType == FUGR && reader.structure(target.objectName).Some? ==>
               forall c :: c in reader.structure(target.objectName).value ==> '|' !in c.objectType
    ensures u in UnitsOf(reader, target) <==> IsUnitOf(reader, target, u)
  {
    if target.objectType == FUGR && reader.structure(target.objectName).Some? {
      var group, children := target.objectName, reader.structure(target.objectName).value;
      var order, f := ReadingOrder(reader.upper, children), ChildUnits(reader, group);
      ChildrenRead(reader.upper, children);
      BarFreeTypes(children);
      FlattenMembers(Map(f, order), u);
      hide ReadingOrder, Sorted, NoDuplicates, Flatten, IsPart, IsUnitOfPart, ChildUnits;
      forall c ensures u in f(c) <==> IsUnitOfPart(reader, group, c, u) {
        ChildUnitsExactly(reader, group, c, u);
      }
      forall c | c in order ensures exists i :: 0 <= i < |order| && order[i] == c {
      }
      if c :| c in children && IsPart(reader.upper, c) && u in f(c) {
        assert c in order;
        var i :| 0 <= i < |order| && order[i] == c;
        assert u in Map(f, order)[i];
      }
      if i :| 0 <= i < |order| && u in Map(f, order)[i] {
        assert order[i] in order;
      }
    }
  }

  /** The units of a group come in the order of its parts. */
  lemma GroupUnitsInOrder(reader: Reader, target: Target) returns (parts: seq<seq<SourceUnit>>)
    requires target.objectType == FUGR && reader.structure(target.objectName).Some?
    ensures var order := ReadingOrder(reader.upper, reader.structure(target.objectName).value);
            && UnitsOf(reader, target) == Flatten(parts) && |parts| == |order|
            && forall i :: 0 <= i < |order| ==>
                 |parts[i]| <= 1 && forall u :: u in parts[i] <==> IsUnitOfPart(reader, target.objectName, order[i], u)
  {
    var group, order := target.objectName, ReadingOrder(reader.upper, reader.structure(target.objectName).value);
    parts := Map(ChildUnits(reader, group), order);
    forall i | 0 <= i < |order|
      ensures |parts[i]| <= 1 && forall u :: u in parts[i] <==> IsUnitOfPart(reader, group, order[i], u)
    {
      forall u ensures |parts[i]| <= 1 && (u in parts[i] <==> IsUnitOfPart(reader, group, order[i], u)) {
        ChildUnitsExactly(reader, group, order[i], u);
      }
    }
  }

  // ---------- The generator ----------

  method ReadSourceUnits(reader: Reader, target: Target) returns (units: seq<SourceUnit>)
    ensures units == UnitsOf(reader, target)
  {
    units := [];
    match target.objectType {
      case PROG =>
        var src := reader.program(target.objectName);
        if src.Some? {
          units := units + [SourceUnit(target.objectName, SplitLines(src.value))];
        }
      case CLAS =>
        var src := reader.classMain(target.objectName);
        if src.Some? {
          units := units + [SourceUnit(target.objectName, SplitLines(src.value))];
        }
      case FUGR =>
        var children := reader.structure(target.objectName);
        if children.Some? {
          var filtered := CollectChildren(reader.upper, children.value);
          units := ReadChildren(reader, target.objectName, Sort(ChildLe, filtered));
        }
    }
  }

  method CollectChildren(upper: string -> string, children: seq<Child>) returns (filtered: seq<Child>)
    ensures filtered == FirstOfKeys(ChildKey, Filter(KeptBy(upper), children))
  {
    var seen: set<string> := {};
    filtered := [];
    assert children[..0] == [];
    for i := 0 to |children|
      invariant Scanned(ChildKey, Filter(KeptBy(upper), children[..i]), seen, filtered)
    {
      seen, filtered := CollectChild(upper, children[..i], children[i], seen, filtered);
      assert children[..i + 1] == children[..i] + [children[i]];
    }
    assert children[..|children|] == children;
  }

  /** One part of the group. */
  method CollectChild(upper: string -> string, ghost before: seq<Child>, c: Child, seen: set<string>, filtered: seq<Child>)
    returns (seen': set<string>, filtered': seq<Child>)
    requires Scanned(ChildKey, Filter(KeptBy(upper), before), seen, filtered)
    ensures Scanned(ChildKey, Filter(KeptBy(upper), before + [c]), seen', filtered')
  {
    seen', filtered' := seen, filtered;
    KeptSnoc(upper, before, c);
    if c.objectType == "FUGR/FF" && IsViewFm(upper, c.objectName) {
      return;
    }
    if !("FUGR/" <= c.objectType) {
      return;
    }
    ScannedOne(ChildKey, Filter(KeptBy(upper), before), seen, filtered, c);
    var key := ChildKey(c);
    if key in seen {
      assert seen + {key} == seen;
      return;
    }
    seen', filtered' := seen + {key}, filtered + [c];
  }

  lemma KeptSnoc(upper: string -> string, children: seq<Child>, c: Child)
    ensures Filter(KeptBy(upper), children + [c])
            == if Kept(upper, c) then Filter(KeptBy(upper), children) + [c] else Filter(KeptBy(upper), children)
  {
    FilterAppend(KeptBy(upper), children, [c]);
    assert Filter(KeptBy(upper), [c]) == if Kept(upper, c) then [c] else [];
  }

  method ReadChildren(reader: Reader, group: string, ordered: seq<Child>) returns (units: seq<SourceUnit>)
    ensures units == Flatten(Map(ChildUnits(reader, group), ordered))
  {
    units := [];
    for i := 0 to |ordered|
      invariant units == Flatten(Map(ChildUnits(reader, group), ordered)[..i])
    {
      var c := ordered[i];
      var src := if c.objectType == "FUGR/FF" then reader.functionModule(group, c.objectName) else reader.includeSource(c.objectName);
      FlattenStep(Map(ChildUnits(reader, group), ordered), i);
      if src.Some? {
        units := units + [SourceUnit(c.objectName, SplitLines(src.value))];
      }
    }
    var parts := Map(ChildUnits(reader, group), ordered);
    assert parts[..|ordered|] == parts;
  }
}
