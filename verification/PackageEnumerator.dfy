/** Which objects a search looks at (src/lib/search-source/packageEnumerator.ts, `enumerateScanTargets`). */
module PackageEnumerator {
  import opened Sequences
  import opened Order
  import opened Deduplication
  import opened SearchSource
  import opened SearchOutcome
  import opened Glob

  datatype Item = Item(packageName: string, adtType: string, name: string, isPackage: bool)

  /** An empty objectFilter filters nothing. */
  datatype EnumerateInput = EnumerateInput(packages: seq<string>, objectFilter: string, objectTypes: seq<ObjectType>)

  /** What the surroundings supply: the listing of a package, upper-casing, and the case folding of the filter. */
  datatype Environment = Environment(
    fetch: string -> Result<seq<Item>, string>,
    upper: string -> string,
    fold: char -> char)

  function Family(adtType: string): Option<ObjectType> {
    if adtType == "PROG/P" then Some(PROG)
    else if adtType == "FUGR/F" then Some(FUGR)
    else if adtType == "CLAS/OC" then Some(CLAS)
    else None
  }

  // ---------- The reference ----------

  /** The item is an object of a wanted family whose name fits the filter. */
  ghost predicate Wanted(env: Environment, input: EnumerateInput, item: Item) {
    && !item.isPackage
    && Family(item.adtType).Some? && Family(item.adtType).value in input.objectTypes
    && (input.objectFilter != "" ==> Fits(env.fold, input.objectFilter, item.name))
  }

  ghost function WantedTarget(env: Environment, input: EnumerateInput, item: Item): Option<Target> {
    if Wanted(env, input, item) then Some(Target(item.packageName, Family(item.adtType).value, item.name)) else None
  }

  /** The target is the object the item lists, of a type asked for, and its name fits the filter. */
  ghost predicate Denotes(env: Environment, input: EnumerateInput, item: Item, t: Target) {
    && !item.isPackage && t.devclass == item.packageName && t.objectName == item.name && t.objectType in input.objectTypes
    && item.adtType == (match t.objectType case PROG => "PROG/P" case FUGR => "FUGR/F" case CLAS => "CLAS/OC")
    && (input.objectFilter != "" ==> Fits(env.fold, input.objectFilter, item.name))
  }

  ghost predicate DenotedByOne(env: Environment, input: EnumerateInput, items: seq<Item>, t: Target) {
    exists item :: item in items && Denotes(env, input, item, t)
  }

  lemma WantedExactly(env: Environment, input: EnumerateInput, item: Item, t: Target)
    ensures WantedTarget(env, input, item) == Some(t) <==> Denotes(env, input, item, t)
  {
  }

  /** The targets among some items, in order, repetitions included. */
  ghost function TargetsOf(env: Environment, input: EnumerateInput, items: seq<Item>): seq<Target> {
    if |items| == 0 then []
    else
      var target := WantedTarget(env, input, items[|items| - 1]);
      TargetsOf(env, input, items[..|items| - 1]) + if target.Some? then [target.value] else []
  }

  /** The listings of the packages up to the first that cannot be read. */
  function Listing(env: Environment, packages: seq<string>): Result<seq<Item>, string> {
    if |packages| == 0 then Success([])
    else
      var before := Listing(env, packages[..|packages| - 1]);
      if before.Failure? then before
      else
        var last := env.fetch(env.upper(packages[|packages| - 1]));
        if last.Failure? then last else Success(before.value + last.value)
  }

  /** The packages are asked for in order, in upper case, and the listing is their contents one after the other, or the error
      of the first that cannot be listed. */
  lemma {:induction false} ListingExactly(env: Environment, packages: seq<string>, contents: seq<seq<Item>>)
    requires |contents| <= |packages| && forall k :: 0 <= k < |contents| ==> env.fetch(env.upper(packages[k])) == Success(contents[k])
    ensures |contents| == |packages| ==> Listing(env, packages) == Success(Flatten(contents))
    ensures |contents| < |packages| && env.fetch(env.upper(packages[|contents|])).Failure? ==>
              Listing(env, packages) == env.fetch(env.upper(packages[|contents|]))
  {
    var n := |contents|;
    if n > 0 {
      assert packages[..n][..n - 1] == packages[..n - 1];
      ListingExactly(env, packages[..n - 1], contents[..n - 1]);
      FlattenStep(contents, n - 1);
      assert contents[..n] == contents;
    }
    assert Listing(env, packages[..n]) == Success(Flatten(contents));
    if n < |packages| && env.fetch(env.upper(packages[n])).Failure? {
      assert packages[..n + 1][..n] == packages[..n];
      ListingFails(env, packages, n + 1);
    } else {
      assert n == |packages| ==> packages[..n] == packages;
    }
  }

  // ---------- Deduplication ----------

  function Key(t: Target): string {
    t.devclass + " " + TypeName(t.objectType) + " " + t.objectName
  }

  lemma KeyExactly(t: Target)
    ensures Key(t) == t.devclass + (match t.objectType case PROG => " PROG " case FUGR => " FUGR " case CLAS => " CLAS ") + t.objectName
  {
    var name := TypeName(t.objectType);
    assert " " + name + " " == match t.objectType case PROG => " PROG " case FUGR => " FUGR " case CLAS => " CLAS ";
    assert t.devclass + " " + name + " " + t.objectName == t.devclass + (" " + name + " ") + t.objectName;
  }

  /** Keys tell targets apart as long as package names hold no blank; object names may. */
  lemma BlankFreePackages(targets: seq<Target>)
    requires forall t :: t in targets ==> ' ' !in t.devclass
    ensures KeysTellApart(Key, targets)
  {
    forall a, b | a in targets && b in targets && Key(a) == Key(b) ensures a == b {
      var x, y := TypeName(a.objectType), TypeName(b.objectType);
      assert Key(a) == a.devclass + " " + (x + " " + a.objectName);
      assert Key(b) == b.devclass + " " + (y + " " + b.objectName);
      FirstWord(' ', a.devclass, b.devclass, x + " " + a.objectName, y + " " + b.objectName);
      assert ' ' !in x && ' ' !in y;
      FirstWord(' ', x, y, a.objectName, b.objectName);
    }
  }

  /** With a blank in a package name, two different objects can have one key. */
  lemma KeysCanCollide()
    ensures Key(Target("A", PROG, "B PROG C")) == Key(Target("A PROG B", PROG, "C"))
    ensures FirstOfKeys(Key, [Target("A", PROG, "B PROG C"), Target("A PROG B", PROG, "C")]) == [Target("A", PROG, "B PROG C")]
  {
    var a, b := Target("A", PROG, "B PROG C"), Target("A PROG B", PROG, "C");
    assert Key(a) == "A PROG B PROG C" == Key(b);
    assert [] + [a] == [a] && [a] + [b] == [a, b];
    FirstSnoc(Key, [], a);
    FirstSnoc(Key, [a], b);
    assert Key(b) in Keys(Key, [a]) && Key(a) !in Keys(Key, []);
  }

  // ---------- The enumeration ----------

  /** The targets the enumeration returns for the items listed. */
  ghost function Enumerated(env: Environment, input: EnumerateInput, items: seq<Item>): seq<Target> {
    Sort(TargetLe, FirstOfKeys(Key, TargetsOf(env, input, items)))
  }

  lemma TargetLeIsPreorder()
    ensures TotalPreorder(TargetLe)
  {
    TargetLeOrder();
  }

  /** The list is sorted and has no duplicates, every target in it is one an item denotes, and every target that an item
      denotes has one of its key in it. */
  lemma EnumeratedList(env: Environment, input: EnumerateInput, items: seq<Item>)
    ensures var r := Enumerated(env, input, items);
            && Sorted(TargetsInOrder, r) && NoDuplicates(r)
            && (forall t :: t in r ==> DenotedByOne(env, input, items, t))
            && (forall t :: DenotedByOne(env, input, items, t) ==> exists same :: same in r && Key(same) == Key(t))
  {
    hide Key, TargetsOf, Denotes, Sort, FirstOfKeys, Sorted, TotalPreorder, TargetLe, KeysTellApart, NoDuplicates;
    var targets := TargetsOf(env, input, items);
    TargetLeIsPreorder();
    SortedFirsts(TargetLe, Key, targets);
    SortedTargets(FirstOfKeys(Key, targets));
    TargetsExactly(env, input, items);
  }

  lemma {:induction false} TargetsExactly(env: Environment, input: EnumerateInput, items: seq<Item>)
    ensures forall t :: t in TargetsOf(env, input, items) <==> DenotedByOne(env, input, items, t)
  {
    if |items| > 0 {
      var before, last := items[..|items| - 1], items[|items| - 1];
      TargetsExactly(env, input, before);
      assert items == before + [last];
      forall t ensures t in TargetsOf(env, input, items) <==> DenotedByOne(env, input, items, t) {
        WantedExactly(env, input, last, t);
        assert t in TargetsOf(env, input, items) <==> t in TargetsOf(env, input, before) || WantedTarget(env, input, last) == Some(t);
      }
    }
  }

  /** The list is exactly the set of the targets denoted if and only if no two different ones share a key. */
  lemma EnumeratesTheWanted(env: Environment, input: EnumerateInput, items: seq<Item>)
    ensures (forall t :: t in Enumerated(env, input, items) <==> DenotedByOne(env, input, items, t))
            <==> forall a, b :: DenotedByOne(env, input, items, a) && DenotedByOne(env, input, items, b) && Key(a) == Key(b) ==> a == b
  {
    hide Key, TargetsOf, Denotes, Sort, FirstOfKeys, TotalPreorder, TargetLe;
    TargetLeIsPreorder();
    var targets, r := TargetsOf(env, input, items), Enumerated(env, input, items);
    SortedKeepsExactly(TargetLe, Key, targets);
    TargetsExactly(env, input, items);
    hide DenotedByOne;
    assert KeysTellApart(Key, targets)
      <==> forall a, b :: DenotedByOne(env, input, items, a) && DenotedByOne(env, input, items, b) && Key(a) == Key(b) ==> a == b;
    if t :| !(t in r <==> t in targets) {
      assert !(t in r <==> DenotedByOne(env, input, items, t));
    }
  }

  /** The scan of the listings, package by package, with the set of keys seen. */
  method EnumerateScanTargets(env: Environment, input: EnumerateInput) returns (r: Result<seq<Target>, string>)
    ensures var listing := Listing(env, input.packages);
            && (listing.Failure? ==> r == Failure(listing.error))
            && (listing.Success? ==> r == Success(Enumerated(env, input, listing.value)))
  {
    var pattern := "";
    if input.objectFilter != "" {
      pattern := GlobToPattern(input.objectFilter);
    }
    var seen: set<string>, out: seq<Target> := {}, [];
    hide Compiled, Key, WantedTarget, Wanted, Sort;
    ghost var listed: seq<Item> := [];
    for p := 0 to |input.packages|
      invariant Listing(env, input.packages[..p]) == Success(listed)
      invariant Scanned(Key, TargetsOf(env, input, listed), seen, out)
    {
      assert input.packages[..p + 1][..p] == input.packages[..p];
      var items := env.fetch(env.upper(input.packages[p]));
      if items.Failure? {
        ListingFails(env, input.packages, p + 1);
        return Failure(items.error);
      }
      seen, out := ScanListing(env, input, pattern, listed, items.value, seen, out);
      listed := listed + items.value;
    }
    assert input.packages[..|input.packages|] == input.packages;
    r := Success(Sort(TargetLe, out));
  }

  lemma {:induction false} ListingFails(env: Environment, packages: seq<string>, p: nat)
    requires p <= |packages| && Listing(env, packages[..p]).Failure?
    ensures Listing(env, packages) == Listing(env, packages[..p])
    decreases |packages| - p
  {
    if p < |packages| {
      assert packages[..p + 1][..p] == packages[..p];
      ListingFails(env, packages, p + 1);
    } else {
      assert packages[..p] == packages;
    }
  }

  lemma TargetsSnoc(env: Environment, input: EnumerateInput, before: seq<Item>, item: Item)
    ensures var target := WantedTarget(env, input, item);
            TargetsOf(env, input, before + [item])
            == if target.Some? then TargetsOf(env, input, before) + [target.value] else TargetsOf(env, input, before)
  {
    assert (before + [item])[..|before|] == before;
  }

  /** One item of a listing. */
  method ScanItem(env: Environment, input: EnumerateInput, pattern: string, ghost before: seq<Item>, item: Item,
                  seen: set<string>, out: seq<Target>)
    returns (seen': set<string>, out': seq<Target>)
    requires Scanned(Key, TargetsOf(env, input, before), seen, out)
    requires input.objectFilter != "" ==> pattern == "^" + Compiled(input.objectFilter) + "$"
    ensures Scanned(Key, TargetsOf(env, input, before + [item]), seen', out')
  {
    seen', out' := seen, out;
    TargetsSnoc(env, input, before, item);
    var family := Family(item.adtType);
    if item.isPackage || family.None? || family.value !in input.objectTypes {
      return;
    }
    CompilePreservesMeaning(env.fold, input.objectFilter, item.name);
    if input.objectFilter != "" && !Test(env.fold, pattern, item.name) {
      return;
    }
    var target := Target(item.packageName, family.value, item.name);
    assert WantedTarget(env, input, item) == Some(target);
    ScannedOne(Key, TargetsOf(env, input, before), seen, out, target);
    var key := Key(target);
    if key in seen {
      assert seen + {key} == seen;
      return;
    }
    seen', out' := seen + {key}, out + [target];
  }

  /** The items of one listing. */
  method ScanListing(env: Environment, input: EnumerateInput, pattern: string, ghost before: seq<Item>, items: seq<Item>,
                     seen: set<string>, out: seq<Target>)
    returns (seen': set<string>, out': seq<Target>)
    requires Scanned(Key, TargetsOf(env, input, before), seen, out)
    requires input.objectFilter != "" ==> pattern == "^" + Compiled(input.objectFilter) + "$"
    ensures Scanned(Key, TargetsOf(env, input, before + items), seen', out')
  {
    hide Scanned, TargetsOf, Compiled;
    seen', out' := seen, out;
    assert before + items[..0] == before;
    for k := 0 to |items|
      invariant Scanned(Key, TargetsOf(env, input, before + items[..k]), seen', out')
    {
      seen', out' := ScanItem(env, input, pattern, before + items[..k], items[k], seen', out');
      assert before + items[..k + 1] == before + items[..k] + [items[k]];
    }
    assert items[..|items|] == items;
  }
}
