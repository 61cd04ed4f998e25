/** What a whole source search returns (src/lib/search-source/orchestrator.ts, `runSearchSource`):
    the pool of SearchSource, then the merge, the sort and the truncation flags. */
module SearchOutcome {
  import opened Sequences
  import opened Order
  import opened LineScanner
  import opened SearchSource

  // ---------- The two comparators ----------

  /** The comparator of the hits, as "compares at most zero". It does not look at the object type. */
  predicate HitLe(a: SearchHit, b: SearchHit) {
    if a.target.devclass != b.target.devclass then Less(a.target.devclass, b.target.devclass)
    else if a.target.objectName != b.target.objectName then Less(a.target.objectName, b.target.objectName)
    else if a.includeName != b.includeName then Less(a.includeName, b.includeName)
    else a.line <= b.line
  }

  function TypeName(t: ObjectType): string {
    match t case CLAS => "CLAS" case FUGR => "FUGR" case PROG => "PROG"
  }

  /** The comparator of targets; it is only ever asked about different targets. */
  predicate TargetLe(a: Target, b: Target) {
    if a.devclass != b.devclass then Less(a.devclass, b.devclass)
    else if a.objectType != b.objectType then Less(TypeName(a.objectType), TypeName(b.objectType))
    else a.objectName == b.objectName || Less(a.objectName, b.objectName)
  }

  lemma LessOrder(a: string, b: string, c: string)
    ensures a == b ==> !Less(a, b)
    ensures a != b ==> Less(a, b) != Less(b, a)
    ensures Less(a, b) && Less(b, c) ==> Less(a, c)
  {
    LessTrichotomy(a, b);
    if Less(a, b) && Less(b, c) {
      LessTransitive(a, b, c);
    }
  }

  lemma HitLePreorder()
    ensures TotalPreorder(HitLe)
  {
    forall x, y, z
      ensures HitLe(x, y) || HitLe(y, x)
      ensures HitLe(x, y) && HitLe(y, z) ==> HitLe(x, z)
    {
      LessOrder(x.target.devclass, y.target.devclass, z.target.devclass);
      LessOrder(x.target.objectName, y.target.objectName, z.target.objectName);
      LessOrder(x.includeName, y.includeName, z.includeName);
      LessOrder(y.target.devclass, z.target.devclass, x.target.devclass);
      LessOrder(y.target.objectName, z.target.objectName, x.target.objectName);
      LessOrder(y.includeName, z.includeName, x.includeName);
    }
  }

  lemma TargetLeOrder()
    ensures TotalPreorder(TargetLe)
    ensures forall x, y :: Tied(TargetLe, x, y) ==> x == y
  {
    forall x: Target, y: Target, z: Target
      ensures TargetLe(x, y) || TargetLe(y, x)
      ensures TargetLe(x, y) && TargetLe(y, x) ==> x == y
      ensures TargetLe(x, y) && TargetLe(y, z) ==> TargetLe(x, z)
    {
      LessOrder(x.devclass, y.devclass, z.devclass);
      LessOrder(y.devclass, z.devclass, x.devclass);
      LessOrder(x.objectName, y.objectName, z.objectName);
      LessOrder(y.objectName, z.objectName, x.objectName);
      LessOrder(TypeName(x.objectType), TypeName(y.objectType), TypeName(z.objectType));
      LessOrder(TypeName(y.objectType), TypeName(z.objectType), TypeName(x.objectType));
    }
  }

  /** Two hits tie exactly when they agree on package, object name, include and line. */
  lemma HitTies(a: SearchHit, b: SearchHit)
    ensures Tied(HitLe, a, b) <==>
              && a.target.devclass == b.target.devclass && a.target.objectName == b.target.objectName
              && a.includeName == b.includeName && a.line == b.line
  {
    LessOrder(a.target.devclass, b.target.devclass, "");
    LessOrder(a.target.objectName, b.target.objectName, "");
    LessOrder(a.includeName, b.includeName, "");
  }

  /** Hits go by package, object name, include and line. */
  ghost predicate HitsInOrder(a: SearchHit, b: SearchHit) {
    || Alphabetical(a.target.devclass, b.target.devclass)
    || (a.target.devclass == b.target.devclass
        && (|| Alphabetical(a.target.objectName, b.target.objectName)
            || (a.target.objectName == b.target.objectName
                && (Alphabetical(a.includeName, b.includeName) || (a.includeName == b.includeName && a.line <= b.line)))))
  }

  /** Targets go by package, type (classes, function groups, programs) and name. */
  ghost predicate TargetsInOrder(a: Target, b: Target) {
    || Alphabetical(a.devclass, b.devclass)
    || (a.devclass == b.devclass
        && (|| (a.objectType == CLAS && b.objectType != CLAS) || (a.objectType == FUGR && b.objectType == PROG)
            || (a.objectType == b.objectType && (a.objectName == b.objectName || Alphabetical(a.objectName, b.objectName)))))
  }

  lemma HitLeExactly(a: SearchHit, b: SearchHit)
    ensures HitLe(a, b) <==> HitsInOrder(a, b)
  {
    LessExactly(a.target.devclass, b.target.devclass);
    LessExactly(a.target.objectName, b.target.objectName);
    LessExactly(a.includeName, b.includeName);
    LessOrder(a.target.devclass, b.target.devclass, "");
    LessOrder(a.target.objectName, b.target.objectName, "");
    LessOrder(a.includeName, b.includeName, "");
  }

  lemma TargetLeExactly(a: Target, b: Target)
    ensures TargetLe(a, b) <==> TargetsInOrder(a, b)
  {
    LessExactly(a.devclass, b.devclass);
    LessExactly(a.objectName, b.objectName);
    LessOrder(a.devclass, b.devclass, "");
    LessOrder(a.objectName, b.objectName, "");
    assert Less("CLAS", "FUGR") && Less("CLAS", "PROG") && Less("FUGR", "PROG");
    LessOrder("CLAS", "FUGR", "PROG");
    LessOrder("CLAS", "PROG", "");
    LessOrder("FUGR", "PROG", "");
  }

  lemma SortedHits(hits: seq<SearchHit>)
    ensures Sorted(HitsInOrder, Sort(HitLe, hits))
  {
    HitLePreorder();
    SortSorts(HitLe, hits);
    hide Sort, HitLe, HitsInOrder;
    var sorted := Sort(HitLe, hits);
    forall i, j | 0 <= i < j < |sorted| ensures HitsInOrder(sorted[i], sorted[j]) {
      HitLeExactly(sorted[i], sorted[j]);
    }
  }

  lemma SortedTargets(targets: seq<Target>)
    ensures Sorted(TargetsInOrder, Sort(TargetLe, targets))
  {
    TargetLeOrder();
    SortSorts(TargetLe, targets);
    hide Sort, TargetLe, TargetsInOrder;
    var sorted := Sort(TargetLe, targets);
    forall i, j | 0 <= i < j < |sorted| ensures TargetsInOrder(sorted[i], sorted[j]) {
      TargetLeExactly(sorted[i], sorted[j]);
    }
  }

  // ---------- The result list and the schedule ----------

  /** The result list when the targets finish in the given order. */
  function Delivered(job: Job, order: seq<nat>): seq<SearchHit>
    requires |job.targets| == |job.units| && forall k :: 0 <= k < |order| ==> order[k] < |job.targets|
  {
    Sort(HitLe, Flatten(Pick(AllTargetHits(job), order)))
  }

  ghost predicate TargetsTie(job: Job, i: nat, j: nat)
    requires |job.targets| == |job.units| && i < |job.targets| && j < |job.targets|
  {
    exists a, b :: a in TargetHits(job, i) && b in TargetHits(job, j) && Tied(HitLe, a, b)
  }

  ghost predicate NoTies(job: Job)
    requires |job.targets| == |job.units|
  {
    forall i: nat, j: nat :: i < j < |job.targets| ==> !TargetsTie(job, i, j)
  }

  lemma DeliveredTies(job: Job, order: seq<nat>, k: SearchHit)
    requires |job.targets| == |job.units| && Permutation(order, |job.targets|)
    ensures Ties(HitLe, k, Delivered(job, order)) == Ties(HitLe, k, Flatten(Pick(AllTargetHits(job), order)))
  {
    HitLePreorder();
    SortStable(HitLe, k, Flatten(Pick(AllTargetHits(job), order)));
  }

  /** Without ties between targets, the hits tied with k all come from one target, in that target's order. */
  lemma TiesOfOneTarget(job: Job, order: seq<nat>, k: SearchHit, i: nat)
    requires |job.targets| == |job.units| && Permutation(order, |job.targets|) && i < |job.targets|
    requires forall j :: 0 <= j < |job.targets| && j != i ==> Ties(HitLe, k, TargetHits(job, j)) == []
    ensures Ties(HitLe, k, Flatten(Pick(AllTargetHits(job), order))) == Ties(HitLe, k, TargetHits(job, i))
  {
    var picked := Pick(AllTargetHits(job), order);
    FilterFlatten(TiedTo(HitLe, k), picked);
    assert i in order;
    var p :| 0 <= p < |order| && order[p] == i;
    FlattenOnly(Map(xs => Filter(TiedTo(HitLe, k), xs), picked), p);
  }

  /** Targets that both have a hit tied with k tie with each other. */
  lemma TiesMeet(job: Job, k: SearchHit, i: nat, j: nat)
    requires |job.targets| == |job.units| && i < |job.targets| && j < |job.targets|
    requires Ties(HitLe, k, TargetHits(job, i)) != [] && Ties(HitLe, k, TargetHits(job, j)) != []
    ensures TargetsTie(job, i, j)
  {
    var a, b := Ties(HitLe, k, TargetHits(job, i))[0], Ties(HitLe, k, TargetHits(job, j))[0];
    FilterMembers(TiedTo(HitLe, k), TargetHits(job, i));
    FilterMembers(TiedTo(HitLe, k), TargetHits(job, j));
    assert a in Ties(HitLe, k, TargetHits(job, i)) && b in Ties(HitLe, k, TargetHits(job, j));
    HitTies(k, a);
    HitTies(k, b);
    HitTies(a, b);
  }

  lemma AtMostOneTies(job: Job, k: SearchHit) returns (i: nat)
    requires |job.targets| == |job.units| && |job.targets| > 0 && NoTies(job)
    ensures i < |job.targets|
    ensures forall j :: 0 <= j < |job.targets| && j != i ==> Ties(HitLe, k, TargetHits(job, j)) == []
  {
    i := 0;
    if m :| 0 <= m < |job.targets| && Ties(HitLe, k, TargetHits(job, m)) != [] {
      i := m;
      forall j | 0 <= j < |job.targets| && j != i ensures Ties(HitLe, k, TargetHits(job, j)) == [] {
        if Ties(HitLe, k, TargetHits(job, j)) != [] {
          TiesMeet(job, k, if i < j then i else j, if i < j then j else i);
        }
      }
    }
  }

  lemma NoTiesSuffices(job: Job, order: seq<nat>, other: seq<nat>)
    requires |job.targets| == |job.units| && NoTies(job)
    requires Permutation(order, |job.targets|) && Permutation(other, |job.targets|)
    ensures Delivered(job, order) == Delivered(job, other)
  {
    HitLePreorder();
    if |job.targets| == 0 {
      PermutedFlatten(AllTargetHits(job), order);
      PermutedFlatten(AllTargetHits(job), other);
      assert |multiset(Flatten(Pick(AllTargetHits(job), order)))| == 0;
      assert |multiset(Flatten(Pick(AllTargetHits(job), other)))| == 0;
    } else {
      SortSorts(HitLe, Flatten(Pick(AllTargetHits(job), order)));
      SortSorts(HitLe, Flatten(Pick(AllTargetHits(job), other)));
      forall k ensures Ties(HitLe, k, Delivered(job, order)) == Ties(HitLe, k, Delivered(job, other)) {
        var i := AtMostOneTies(job, k);
        DeliveredTies(job, order, k);
        DeliveredTies(job, other, k);
        TiesOfOneTarget(job, order, k, i);
        TiesOfOneTarget(job, other, k, i);
      }
      SortedByRuns(HitLe, Delivered(job, order), Delivered(job, other));
    }
  }

  /** Whatever the order, the elements of the list are those of the reference, and the list is sorted. */
  lemma DeliveredElements(job: Job, order: seq<nat>)
    requires |job.targets| == |job.units| && Permutation(order, |job.targets|)
    ensures Sorted(HitsInOrder, Delivered(job, order))
    ensures multiset(Delivered(job, order)) == multiset(Flatten(AllTargetHits(job)))
  {
    HitLePreorder();
    SortSorts(HitLe, Flatten(Pick(AllTargetHits(job), order)));
    SortedHits(Flatten(Pick(AllTargetHits(job), order)));
    PermutedFlatten(AllTargetHits(job), order);
  }

  // ---------- Honest flags ----------

  /** Cutting at the cap loses nothing exactly when no target exceeds the cap. */
  lemma NothingLost(job: Job)
    requires |job.targets| == |job.units|
    ensures (forall i :: 0 <= i < |job.targets| ==> !ExceedsCap(job, i)) <==> AllTargetHits(job) == AllTargetMatches(job)
  {
    if AllTargetHits(job) == AllTargetMatches(job) {
      forall i | 0 <= i < |job.targets| ensures !ExceedsCap(job, i) {
        assert AllTargetHits(job)[i] == AllTargetMatches(job)[i];
      }
    } else if forall i :: 0 <= i < |job.targets| ==> !ExceedsCap(job, i) {
      forall i | 0 <= i < |job.targets| ensures TargetHits(job, i) == TargetMatches(job, i) {
        assert !ExceedsCap(job, i);
      }
    }
  }

  /** The list of targets without hits does not depend on the schedule at all. */
  lemma NoHitsScheduleIndependent(job: Job, order: seq<nat>)
    requires ValidJob(job) && Permutation(order, |job.targets|)
    ensures var parts := QuietParts(job.targets, AllTargetHits(job));
            Sort(TargetLe, Flatten(Pick(parts, order))) == Sort(TargetLe, Flatten(parts))
  {
    TargetLeOrder();
    var parts := QuietParts(job.targets, AllTargetHits(job));
    PermutedFlatten(parts, order);
    SortOfPermutation(TargetLe, Flatten(Pick(parts, order)), Flatten(parts));
  }

  // ---------- The search as a whole ----------

  const DEFAULT_MAX_HITS := 100
  const DEFAULT_MAX_OBJECTS := 500
  const DEFAULT_CONCURRENCY := 8

  datatype SearchInput = SearchInput(
    scan: ScanInput,
    packages: seq<string>,
    maxHits: Option<int>,
    maxObjects: Option<int>,
    concurrency: Option<int>,
    emitNoHits: bool,
    timeBudget: Option<int>)

  datatype SearchError = EmptyQuery | NoPackages | TooManyExcludes

  datatype SearchResult = SearchResult(
    results: seq<SearchHit>,
    noHits: Option<seq<Target>>,
    packages: nat,
    objects: nat,
    sources: nat,
    byObjectCap: bool,
    byMaxObjects: bool,
    byTimeout: bool)

  function OrElse(o: Option<int>, default: int): int {
    if o.Some? then o.value else default
  }

  /** `xs.slice(0, n)`, where a negative n counts from the end. */
  function SliceTo<T>(xs: seq<T>, n: int): seq<T> {
    if n >= 0 then Take(xs, n) else Take(xs, |xs| + n)
  }

  function KeptTargets(input: SearchInput, enumerated: seq<Target>): seq<Target> {
    var maxObjects := OrElse(input.maxObjects, DEFAULT_MAX_OBJECTS);
    if |enumerated| > maxObjects then SliceTo(enumerated, maxObjects) else enumerated
  }

  function JobOf(input: SearchInput, targets: seq<Target>, unitsOf: Target -> seq<SourceUnit>): Job {
    Job(input.scan, OrElse(input.maxHits, DEFAULT_MAX_HITS), input.emitNoHits,
        input.timeBudget.Some? && input.timeBudget.value > 0, targets, Map(unitsOf, targets))
  }

  /** Unless told otherwise a search looks at the first 500 objects; a negative number leaves out that many at the end. */
  lemma KeptTargetsExactly(input: SearchInput, enumerated: seq<Target>)
    ensures var most := match input.maxObjects case Some(n) => n case None => 500;
            var kept := KeptTargets(input, enumerated);
            && kept <= enumerated
            && |kept| == if |enumerated| <= most then |enumerated| else if most >= 0 then most
                         else if |enumerated| + most >= 0 then |enumerated| + most else 0
  {
  }

  /** Unless told otherwise it takes 100 hits of each; a time budget counts if it is positive. */
  lemma JobExactly(input: SearchInput, targets: seq<Target>, unitsOf: Target -> seq<SourceUnit>)
    ensures var job := JobOf(input, targets, unitsOf);
            && job.scan == input.scan && job.targets == targets && |job.units| == |targets|
            && (forall i :: 0 <= i < |targets| ==> job.units[i] == unitsOf(targets[i]))
            && job.maxHits == (match input.maxHits case Some(n) => n case None => 100)
            && job.emitNoHits == input.emitNoHits
            && (job.hasDeadline <==> exists budget :: input.timeBudget == Some(budget) && budget > 0)
  {
  }

  /** The outcome of a run that the deadline did not cut short. */
  ghost predicate FullOutcome(job: Job, order: seq<nat>, r: SearchResult) {
    && ValidJob(job) && Permutation(order, |job.targets|)
    && r.results == Delivered(job, order)
    && r.noHits == (if job.emitNoHits then Some(Sort(TargetLe, Flatten(QuietParts(job.targets, AllTargetHits(job))))) else None)
    && r.sources == Sum(AllUnitsScanned(job))
    && (r.byObjectCap <==> exists i :: 0 <= i < |job.targets| && ExceedsCap(job, i))
  }

  /** The outcome of any run, given what it has done to each target. */
  ghost predicate PartialOutcome(job: Job, h: History, r: SearchResult) {
    && Sized(job, h) && NoDuplicates(h.order) && (forall k :: 0 <= k < |h.order| ==> h.order[k] < |job.targets|)
    && (forall i :: 0 <= i < |job.targets| ==> if i in h.order then FinishedAs(job, h, i) else h.given[i] == [])
    && OthersUntouched(job, h)
    && (forall i :: 0 <= i < |job.targets| && h.cut[i] ==> r.byTimeout)
    && r.results == Sort(HitLe, Flatten(Pick(h.given, h.order)))
    && r.noHits == (if job.emitNoHits then Some(Sort(TargetLe, Flatten(Pick(QuietParts(job.targets, h.given), h.order)))) else None)
    && r.sources == Sum(h.read)
    && (r.byObjectCap <==> exists i :: 0 <= i < |job.targets| && i in h.order && !h.cut[i] && ExceedsCap(job, i))
  }

  lemma KeptAreDistinct(input: SearchInput, enumerated: seq<Target>, unitsOf: Target -> seq<SourceUnit>)
    requires NoDuplicates(enumerated)
    ensures ValidJob(JobOf(input, KeptTargets(input, enumerated), unitsOf))
  {
  }

  /** The result assembled from the final state of the pool. */
  function ResultOf(job: Job, s: State, packages: nat, byMaxObjects: bool): SearchResult {
    SearchResult(Sort(HitLe, s.allHits), if job.emitNoHits then Some(Sort(TargetLe, s.noHits)) else None,
                 packages, |job.targets|, s.sourcesScanned, s.truncatedByObjectCap, byMaxObjects, s.timedOut)
  }

  lemma ResultIsFull(job: Job, s: State, order: seq<nat>, packages: nat, byMaxObjects: bool)
    requires Complete(job, s, order)
    ensures FullOutcome(job, order, ResultOf(job, s, packages, byMaxObjects))
  {
    NoHitsScheduleIndependent(job, order);
  }

  lemma ResultIsPartial(job: Job, s: State, h: History, packages: nat, byMaxObjects: bool)
    requires Partial(job, s, h) && OthersUntouched(job, h)
    ensures PartialOutcome(job, h, ResultOf(job, s, packages, byMaxObjects))
  {
  }

  /** Of any run: the list is sorted and made of a prefix of each target's first Cap hits. */
  lemma PrefixesDelivered(job: Job, h: History, r: SearchResult)
    requires PartialOutcome(job, h, r)
    ensures Sorted(HitsInOrder, r.results) && multiset(r.results) == multiset(Flatten(h.given))
    ensures forall i :: 0 <= i < |job.targets| ==> h.given[i] <= TargetHits(job, i)
  {
    HitLePreorder();
    SortSorts(HitLe, Flatten(Pick(h.given, h.order)));
    SortedHits(Flatten(Pick(h.given, h.order)));
    ReorderedFlatten(h.given, h.order);
    assert Masked(h.given, h.order) == h.given;
    forall i | 0 <= i < |job.targets| ensures h.given[i] <= TargetHits(job, i) {
      if i in h.order {
        FinishedPrefix(job, h, i);
      }
    }
  }

  // ---------- The list of targets without hits ----------

  lemma NoHitsSorted(job: Job, h: History, r: SearchResult)
    requires PartialOutcome(job, h, r)
    ensures r.noHits.Some? <==> job.emitNoHits
    ensures job.emitNoHits ==> Sorted(TargetsInOrder, r.noHits.value)
  {
    SortedTargets(Flatten(Pick(QuietParts(job.targets, h.given), h.order)));
  }

  /** The no-hits list names the finished targets that delivered nothing. */
  lemma NoHitsNames(job: Job, h: History, r: SearchResult, i: nat)
    requires PartialOutcome(job, h, r) && job.emitNoHits && i < |job.targets|
    ensures job.targets[i] in r.noHits.value <==> i in h.order && h.given[i] == []
  {
    TargetLeOrder();
    SortMembers(TargetLe, Flatten(Pick(QuietParts(job.targets, h.given), h.order)));
    hide Sort, TotalPreorder, TargetLe, FinishedAs, ExceedsCap;
    QuietMembers(job, h.given, h.order, i);
  }

  lemma QuietMembers(job: Job, given: seq<seq<SearchHit>>, order: seq<nat>, i: nat)
    requires ValidJob(job) && |given| == |job.targets| && i < |job.targets|
    requires forall k :: 0 <= k < |order| ==> order[k] < |job.targets|
    ensures job.targets[i] in Flatten(Pick(QuietParts(job.targets, given), order)) <==> i in order && given[i] == []
  {
    var t, parts := job.targets[i], Pick(QuietParts(job.targets, given), order);
    FlattenMembers(parts, t);
    hide Flatten;
    if i in order && given[i] == [] {
      var k :| 0 <= k < |order| && order[k] == i;
      assert t in parts[k];
    }
    if k :| 0 <= k < |parts| && t in parts[k] {
      assert job.targets[order[k]] == t;
    }
  }

  /** A target with matches delivers nothing if the cap admits no hit, or if the deadline cuts it before its first. */
  ghost predicate Silenced(job: Job, h: History, i: nat)
    requires Sized(job, h) && i < |job.targets|
  {
    job.maxHits < 1 || (h.cut[i] && h.read[i] < |job.units[i]| && MatchesUpTo(job, i, h.read[i]) == [])
  }

  lemma SilentMeansSilenced(job: Job, h: History, i: nat)
    requires Sized(job, h) && i < |job.targets| && FinishedAs(job, h, i) && TargetMatches(job, i) != []
    ensures h.given[i] == [] <==> Silenced(job, h, i)
  {
    FinishedPrefix(job, h, i);
  }

  /** Of any run: the list names only targets without a match if and only if every finished target with a match escaped both
      a cap below one and a deadline before its first hit. */
  lemma NoHitsList(job: Job, h: History, r: SearchResult)
    requires PartialOutcome(job, h, r) && job.emitNoHits
    ensures (forall i :: 0 <= i < |job.targets| && job.targets[i] in r.noHits.value ==> TargetMatches(job, i) == [])
            <==> forall i :: 0 <= i < |job.targets| && i in h.order && TargetMatches(job, i) != [] ==> !Silenced(job, h, i)
  {
    hide Silenced, TargetMatches;
    forall i | 0 <= i < |job.targets|
      ensures job.targets[i] in r.noHits.value <==> i in h.order && h.given[i] == []
      ensures i in h.order && TargetMatches(job, i) != [] ==> (h.given[i] == [] <==> Silenced(job, h, i))
    {
      NoHitsNames(job, h, r, i);
      if i in h.order && TargetMatches(job, i) != [] {
        SilentMeansSilenced(job, h, i);
      }
    }
  }

  /** Of a run that the deadline did not cut short: the list names exactly the targets without a match if and only if the cap
      admits a hit or nothing matches. */
  lemma NoHitsListComplete(job: Job, order: seq<nat>, r: SearchResult)
    requires FullOutcome(job, order, r) && job.emitNoHits
    ensures (forall i :: 0 <= i < |job.targets| ==> (job.targets[i] in r.noHits.value <==> TargetMatches(job, i) == []))
            <==> job.maxHits >= 1 || forall i :: 0 <= i < |job.targets| ==> TargetMatches(job, i) == []
  {
    forall i | 0 <= i < |job.targets| ensures job.targets[i] in r.noHits.value <==> TargetHits(job, i) == [] {
      FullNoHitsNames(job, order, r, i);
    }
    if job.maxHits < 1 {
      forall i | 0 <= i < |job.targets| ensures TargetHits(job, i) == [] {
      }
    }
  }

  lemma FullNoHitsNames(job: Job, order: seq<nat>, r: SearchResult, i: nat)
    requires FullOutcome(job, order, r) && job.emitNoHits && i < |job.targets|
    ensures job.targets[i] in r.noHits.value <==> TargetHits(job, i) == []
  {
    var parts := QuietParts(job.targets, AllTargetHits(job));
    TargetLeOrder();
    SortMembers(TargetLe, Flatten(parts));
    hide Sort, TotalPreorder, TargetLe, ExceedsCap;
    QuietMembers(job, AllTargetHits(job), Upto(|job.targets|), i);
    assert Pick(parts, Upto(|job.targets|)) == parts && Upto(|job.targets|)[i] == i;
  }

  /** The object-cap flag is honest: of a run that the deadline did not cut short, it is down exactly when the results are
      every match in the targets, each once. */
  lemma CapFlagIsHonest(job: Job, order: seq<nat>, r: SearchResult)
    requires FullOutcome(job, order, r)
    ensures Sorted(HitsInOrder, r.results)
    ensures !r.byObjectCap <==> multiset(r.results) == multiset(Flatten(AllTargetMatches(job)))
  {
    DeliveredElements(job, order);
    NothingLost(job);
    var hits, matches := AllTargetHits(job), AllTargetMatches(job);
    assert forall i :: 0 <= i < |hits| ==> hits[i] <= matches[i];
    hide Flatten, Sort, ExceedsCap, AllTargetHits, AllTargetMatches, QuietParts, Sum;
    FlattenSameLength(hits, matches);
    SameSize(r.results, Flatten(hits));
    if multiset(r.results) == multiset(Flatten(matches)) {
      SameSize(r.results, Flatten(matches));
    }
  }

  lemma SameSize<T>(a: seq<T>, b: seq<T>)
    requires multiset(a) == multiset(b)
    ensures |a| == |b|
  {
    assert |multiset(a)| == |a| && |multiset(b)| == |b|;
  }

  /** The result is that of the run; without a deadline that fired it is complete, and one pump keeps the given order. */
  ghost predicate PoolOutcome(job: Job, order: seq<nat>, h: History, pumps: nat, r: SearchResult) {
    && PartialOutcome(job, h, r)
    && (!r.byTimeout ==> FullOutcome(job, order, r))
    && (!r.byTimeout && pumps == 1 ==> order == Upto(|job.targets|))
    && (r.byTimeout ==> job.hasDeadline)
  }

  /** Runs the pool to the end, with what it promises. */
  method RunPool(job: Job, limit: int, packages: nat, byMaxObjects: bool)
    returns (r: SearchResult, ghost order: seq<nat>, ghost h: History, ghost pumps: nat)
    requires ValidJob(job)
    ensures pumps == if limit <= 1 || |job.targets| <= 1 then 1 else if limit < |job.targets| then limit else |job.targets|
    ensures PoolOutcome(job, order, h, pumps, r)
    ensures r.packages == packages && r.objects == |job.targets| && r.byMaxObjects == byMaxObjects
  {
    var run := new SearchRun(job, limit);
    pumps := |run.pumps|;
    ghost var steps := run.Run();
    ghost var end := run.Now();
    EveryRun(job, |run.pumps|, end, steps);
    h :| Partial(job, end, h) && OthersUntouched(job, h);
    ResultIsPartial(job, end, h, packages, byMaxObjects);
    order := Upto(|job.targets|);
    if !run.timedOut {
      if |run.pumps| != 1 {
        order :| Complete(job, end, order);
      }
      ResultIsFull(job, end, order, packages, byMaxObjects);
    }
    var noHits := if job.emitNoHits then Some(Sort(TargetLe, run.noHits)) else None;
    r := SearchResult(Sort(HitLe, run.allHits), noHits, packages, |job.targets|, run.sourcesScanned,
                      run.truncatedByObjectCap, byMaxObjects, run.timedOut);
  }

  /** Between one pump and sixteen, but not more than there are targets. */
  ghost function PumpsFor(concurrency: int, targets: nat): nat {
    var most := if targets < 16 then targets else 16;
    if concurrency <= 1 || most <= 1 then 1 else if concurrency < most then concurrency else most
  }

  method RunSearchSource(input: SearchInput, resolved: seq<string>, enumerated: seq<Target>, unitsOf: Target -> seq<SourceUnit>)
    returns (r: Result<SearchResult, SearchError>, ghost order: seq<nat>, ghost h: History, ghost pumps: nat)
    requires NoDuplicates(enumerated)
    ensures input.scan.query == "" ==> r == Failure(EmptyQuery)
    ensures input.scan.query != "" && input.packages == [] ==> r == Failure(NoPackages)
    ensures input.scan.query != "" && input.packages != [] && |input.scan.exclude| > 3 ==> r == Failure(TooManyExcludes)
    ensures input.scan.query != "" && input.packages != [] && |input.scan.exclude| <= 3 ==>
              && r.Success?
              && var kept := KeptTargets(input, if resolved == [] then [] else enumerated);
                 var job := JobOf(input, kept, unitsOf);
                 && PoolOutcome(job, order, h, pumps, r.value)
                 && pumps == PumpsFor(match input.concurrency case Some(n) => n case None => 8, |kept|)
                 && r.value.packages == |resolved| && r.value.objects == |kept|
                 && (r.value.byMaxObjects <==>
                     |if resolved == [] then [] else enumerated| > match input.maxObjects case Some(n) => n case None => 500)
  {
    hide PoolOutcome;
    order, h, pumps := [], History([], [], [], [], []), 0;
    if input.scan.query == "" {
      return Failure(EmptyQuery), order, h, pumps;
    }
    if input.packages == [] {
      return Failure(NoPackages), order, h, pumps;
    }
    if |input.scan.exclude| > 3 {
      return Failure(TooManyExcludes), order, h, pumps;
    }
    var maxObjects := OrElse(input.maxObjects, DEFAULT_MAX_OBJECTS);
    var concurrency := OrElse(input.concurrency, DEFAULT_CONCURRENCY);
    concurrency := if concurrency < 1 then 1 else if concurrency > 16 then 16 else concurrency;
    var allTargets := if resolved == [] then [] else enumerated;
    var truncatedByMaxObjects := |allTargets| > maxObjects;
    var targets := if truncatedByMaxObjects then SliceTo(allTargets, maxObjects) else allTargets;
    var result: SearchResult;
    KeptAreDistinct(input, allTargets, unitsOf);
    result, order, h, pumps := RunTargets(input, targets, unitsOf, concurrency, |resolved|, truncatedByMaxObjects);
    r := Success(result);
  }

  /** The pool over the targets kept. */
  method RunTargets(input: SearchInput, targets: seq<Target>, unitsOf: Target -> seq<SourceUnit>, concurrency: int, packages: nat, byMaxObjects: bool)
    returns (r: SearchResult, ghost order: seq<nat>, ghost h: History, ghost pumps: nat)
    requires 1 <= concurrency <= 16 && ValidJob(JobOf(input, targets, unitsOf))
    ensures PoolOutcome(JobOf(input, targets, unitsOf), order, h, pumps, r) && pumps == PumpsFor(concurrency, |targets|)
    ensures r.packages == packages && r.objects == |targets| && r.byMaxObjects == byMaxObjects
  {
    hide PoolOutcome, ValidJob;
    r, order, h, pumps := RunPool(JobOf(input, targets, unitsOf), concurrency, packages, byMaxObjects);
  }
}
