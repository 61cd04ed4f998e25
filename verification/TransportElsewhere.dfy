/** Which of a transport's objects sit in other open requests (src/lib/adt/transportCheck.ts, `findObjectsElsewhere`).

    E071 and E070 are lists of rows, already trimmed; E070 is keyed by TRKORR. */
module TransportElsewhere {
  import opened Sequences
  import opened TransportBatches

  datatype TransportObject = TransportObject(pgmid: string, kind: string, name: string, trkorr: string)

  datatype ObjectRow = ObjectRow(trkorr: string, kind: string, name: string)

  /** A blank parent means the entry is not a task. */
  datatype Header = Header(trkorr: string, function_: string, status: string, owner: string, parent: string)

  datatype Elsewhere = Elsewhere(
    pgmid: string, kind: string, name: string, otherTrkorr: string, otherOwner: string, otherStatus: string)

  const MODIFIABLE_STATUSES: set<string> := { "D", "L" }

  const RELEASABLE_FUNCTIONS: set<string> := { "K", "W", "T", "S", "R", "Q", "X", "Y", "C", "O", "E" }

  const OBJECT_PREFIX := "SELECT TRKORR, OBJECT, OBJ_NAME FROM E071 WHERE OBJ_NAME IN ( "
  const HEADER_PREFIX := "SELECT TRKORR, TRFUNCTION, TRSTATUS, AS4USER, STRKORR FROM E070 WHERE TRKORR IN ( "
  const SUFFIX := " )"

  /** The row reader: it answers an IN-list over E071 or E070. */
  datatype RowReader = RowReader(objectRows: seq<string> -> seq<ObjectRow>, headerRows: seq<string> -> seq<Header>)

  function NameIn(names: seq<string>): ObjectRow -> bool {
    (row: ObjectRow) => row.name in names
  }

  function KeyIn(keys: seq<string>): Header -> bool {
    (row: Header) => row.trkorr in keys
  }

  /** The reader returns exactly the matching rows of the tables, in any order, without truncating. */
  ghost predicate Honours(reader: RowReader, e071: seq<ObjectRow>, e070: seq<Header>) {
    && (forall names :: multiset(reader.objectRows(names)) == multiset(Filter(NameIn(names), e071)))
    && (forall keys :: multiset(reader.headerRows(keys)) == multiset(Filter(KeyIn(keys), e070)))
  }

  ghost predicate Keyed(e070: seq<Header>) {
    forall i, j :: 0 <= i < j < |e070| ==> e070[i].trkorr != e070[j].trkorr
  }

  // ---------- The reference: one join ----------

  predicate Searchable(name: string) {
    name != "" && '\'' !in name
  }

  function OwnTree(trkorr: string, objects: seq<TransportObject>): set<string> {
    {trkorr} + set o | o in objects :: o.trkorr
  }

  predicate SameObject(o: TransportObject, row: ObjectRow) {
    o.name == row.name && o.kind == row.kind
  }

  /** `objects.find(...)`. */
  function Original(objects: seq<TransportObject>, row: ObjectRow): Option<TransportObject> {
    if |objects| == 0 then None
    else if SameObject(objects[0], row) then Some(objects[0])
    else Original(objects[1..], row)
  }

  predicate OpenForeign(h: Header, own: set<string>) {
    && (h.parent == "" || h.parent !in own)
    && h.status in MODIFIABLE_STATUSES && h.function_ in RELEASABLE_FUNCTIONS
  }

  function HeaderOf(e070: seq<Header>, trkorr: string): Option<Header> {
    if |e070| == 0 then None else if e070[0].trkorr == trkorr then Some(e070[0]) else HeaderOf(e070[1..], trkorr)
  }

  /** What one E071 row contributes, given the header of its request. */
  function Placement(own: set<string>, objects: seq<TransportObject>, row: ObjectRow, header: Option<Header>): seq<Elsewhere> {
    if header.None? || !OpenForeign(header.value, own) then [] else
    var original := Original(objects, row);
    if original.None? then []
    else [Elsewhere(original.value.pgmid, row.kind, row.name, row.trkorr, header.value.owner, header.value.status)]
  }

  function JoinRow(e070: seq<Header>, own: set<string>, objects: seq<TransportObject>): ObjectRow -> seq<Elsewhere> {
    (row: ObjectRow) =>
      if row.trkorr in own || !Searchable(row.name) then []
      else Placement(own, objects, row, HeaderOf(e070, row.trkorr))
  }

  /** Every placement of one of the transport's objects in a foreign, open, releasable request. */
  function Join(e071: seq<ObjectRow>, e070: seq<Header>, trkorr: string, objects: seq<TransportObject>): seq<Elsewhere> {
    Flatten(Map(JoinRow(e070, OwnTree(trkorr, objects), objects), e071))
  }

  // ---------- Order does not matter ----------

  lemma FlatMapAppend<T, U>(f: T -> seq<U>, a: seq<T>, b: seq<T>)
    ensures Flatten(Map(f, a + b)) == Flatten(Map(f, a)) + Flatten(Map(f, b))
  {
    assert Map(f, a + b) == Map(f, a) + Map(f, b);
    FlattenAppend(Map(f, a), Map(f, b));
  }

  function Without<T>(xs: seq<T>, k: nat): seq<T>
    requires k < |xs|
  {
    xs[..k] + xs[k + 1..]
  }

  lemma WithoutElements<T>(xs: seq<T>, k: nat)
    requires k < |xs|
    ensures multiset(xs) == multiset{xs[k]} + multiset(Without(xs, k))
  {
    assert xs == xs[..k] + ([xs[k]] + xs[k + 1..]);
  }

  lemma MiddleFirst<T>(a: seq<T>, x: seq<T>, b: seq<T>)
    ensures multiset(a + (x + b)) == multiset(x) + multiset(a + b)
  {
  }

  lemma FlatMapWithout<T, U>(f: T -> seq<U>, xs: seq<T>, k: nat)
    requires k < |xs|
    ensures multiset(Flatten(Map(f, xs))) == multiset(f(xs[k])) + multiset(Flatten(Map(f, Without(xs, k))))
  {
    hide Flatten, Map;
    SplitAt(xs, k);
    FlatMapOne(f, xs[k]);
    FlatMapMiddle(f, xs[..k], [xs[k]], xs[k + 1..]);
  }

  lemma FlatMapMiddle<T, U>(f: T -> seq<U>, a: seq<T>, x: seq<T>, b: seq<T>)
    ensures multiset(Flatten(Map(f, a + (x + b)))) == multiset(Flatten(Map(f, x))) + multiset(Flatten(Map(f, a + b)))
  {
    hide Flatten, Map;
    FlatMapAppend(f, a, x + b);
    FlatMapAppend(f, x, b);
    FlatMapAppend(f, a, b);
    MiddleFirst(Flatten(Map(f, a)), Flatten(Map(f, x)), Flatten(Map(f, b)));
  }

  lemma FlatMapOne<T, U>(f: T -> seq<U>, x: T)
    ensures Flatten(Map(f, [x])) == f(x)
  {
    assert Map(f, [x]) == [f(x)];
    assert Flatten([f(x)]) == f(x) + Flatten([]);
  }

  /** Permuting the rows permutes the outcome. */
  lemma {:induction false} FlatMapPermuted<T, U>(f: T -> seq<U>, a: seq<T>, b: seq<T>)
    requires multiset(a) == multiset(b)
    ensures multiset(Flatten(Map(f, a))) == multiset(Flatten(Map(f, b)))
  {
    assert |multiset(a)| == |a| && |multiset(b)| == |b|;
    if |a| != 0 {
      assert a[0] in multiset(b);
      var k :| 0 <= k < |b| && b[k] == a[0];
      WithoutElements(a, 0);
      WithoutElements(b, k);
      assert multiset(Without(a, 0)) == multiset(a) - multiset{a[0]};
      assert multiset(Without(b, k)) == multiset(b) - multiset{b[k]};
      FlatMapPermuted(f, Without(a, 0), Without(b, k));
      FlatMapWithout(f, a, 0);
      FlatMapWithout(f, b, k);
    }
  }

  /** Rows that contribute nothing can be filtered out beforehand. */
  lemma {:induction false} FlatMapFilter<T, U>(f: T -> seq<U>, keep: T -> bool, xs: seq<T>)
    requires forall x :: x in xs && !keep(x) ==> f(x) == []
    ensures Flatten(Map(f, Filter(keep, xs))) == Flatten(Map(f, xs))
  {
    if |xs| != 0 {
      FlatMapFilter(f, keep, xs[1..]);
      FlatMapAppend(f, if keep(xs[0]) then [xs[0]] else [], Filter(keep, xs[1..]));
      FlatMapAppend(f, [xs[0]], xs[1..]);
      assert xs == [xs[0]] + xs[1..];
    }
  }

  /** Rows matching either of two disjoint lists of names are the rows matching one plus those matching the other. */
  lemma {:induction false} FilterSplit(a: seq<string>, b: seq<string>, rows: seq<ObjectRow>)
    requires forall x :: x in a ==> x !in b
    ensures multiset(Filter(NameIn(a + b), rows)) == multiset(Filter(NameIn(a), rows)) + multiset(Filter(NameIn(b), rows))
  {
    if |rows| != 0 {
      FilterSplit(a, b, rows[1..]);
    }
  }

  // ---------- The code ----------

  /** `[...new Set(xs)]`. */
  function Distinct(xs: seq<string>): (ys: seq<string>)
    ensures NoDuplicates(ys) && forall x :: x in ys <==> x in xs
  {
    if |xs| == 0 then [] else
    var before := Distinct(xs[..|xs| - 1]);
    var last := xs[|xs| - 1];
    assert forall x :: x in xs <==> x in xs[..|xs| - 1] || x == last;
    if last in before then before else before + [last]
  }

  function SearchNames(objects: seq<TransportObject>): seq<string> {
    Filter(Searchable, Distinct(Map((o: TransportObject) => o.name, objects)))
  }

  lemma {:induction false} FilterKeepsDistinct(p: string -> bool, xs: seq<string>)
    requires NoDuplicates(xs)
    ensures NoDuplicates(Filter(p, xs))
  {
    if |xs| != 0 {
      FilterKeepsDistinct(p, xs[1..]);
      FilterMembers(p, xs[1..]);
    }
  }

  lemma SearchNamesAre(objects: seq<TransportObject>)
    ensures NoDuplicates(SearchNames(objects))
    ensures forall name :: name in SearchNames(objects) <==> Searchable(name) && exists o :: o in objects && o.name == name
  {
    var names := Map((o: TransportObject) => o.name, objects);
    FilterKeepsDistinct(Searchable, Distinct(names));
    FilterMembers(Searchable, Distinct(names));
    forall name ensures name in names <==> exists o :: o in objects && o.name == name {
      if o :| o in objects && o.name == name {
        var k :| 0 <= k < |objects| && objects[k] == o;
        assert names[k] == name;
      }
    }
  }

  lemma NoDuplicatesSplit(a: seq<string>, b: seq<string>)
    requires NoDuplicates(a + b)
    ensures NoDuplicates(a) && forall x :: x in a ==> x !in b
  {
    forall x | x in a ensures x !in b {
      var i :| 0 <= i < |a| && a[i] == x;
      forall j | 0 <= j < |b| ensures b[j] != x {
        assert (a + b)[i] != (a + b)[|a| + j];
      }
    }
    forall i, j | 0 <= i < j < |a| ensures a[i] != a[j] {
      assert (a + b)[i] != (a + b)[j];
    }
  }

  /** Batches of distinct names have none in common. */
  lemma BatchesApart(batches: seq<seq<string>>, i: nat)
    requires NoDuplicates(Flatten(batches)) && i < |batches|
    ensures Flatten(batches[..i + 1]) == Flatten(batches[..i]) + batches[i]
    ensures forall x :: x in Flatten(batches[..i]) ==> x !in batches[i]
  {
    FlattenStep(batches, i);
    FlattenPrefix(batches, i + 1);
    hide Flatten;
    var names, front := Flatten(batches), Flatten(batches[..i + 1]);
    assert names == front + names[|front|..];
    NoDuplicatesSplit(front, names[|front|..]);
    NoDuplicatesSplit(Flatten(batches[..i]), batches[i]);
  }

  /** One statement for each batch asks for all values, in order, and has at most 253 characters, unless it asks for a single
      value that leaves no statement shorter. */
  ghost predicate AskedFor(head: string, values: seq<string>, batches: seq<seq<string>>) {
    && Flatten(batches) == values
    && forall batch :: batch in batches ==> |batch| > 0 && (|head + Quote(batch) + " )"| <= 253 || |batch| == 1)
  }

  lemma StatementsAskFor(head: string, values: seq<string>)
    ensures AskedFor(head, values, Greedy(values, |head| + |SUFFIX|, SQL_MAX_LENGTH))
  {
    var batches := Greedy(values, |head| + |SUFFIX|, SQL_MAX_LENGTH);
    GreedyIsPacking(values, |head| + |SUFFIX|, SQL_MAX_LENGTH);
    forall batch | batch in batches ensures |batch| > 0 && (|head + Quote(batch) + " )"| <= 253 || |batch| == 1) {
      StatementLength(values, head, SUFFIX, SQL_MAX_LENGTH, batch);
    }
  }

  /** First phase: one statement per batch of names. */
  method LookUpObjects(reader: RowReader, ghost e071: seq<ObjectRow>, ghost e070: seq<Header>, names: seq<string>)
    returns (candidates: seq<ObjectRow>, ghost batches: seq<seq<string>>)
    requires Honours(reader, e071, e070) && NoDuplicates(names)
    ensures multiset(candidates) == multiset(Filter(NameIn(names), e071))
    ensures AskedFor("SELECT TRKORR, OBJECT, OBJ_NAME FROM E071 WHERE OBJ_NAME IN ( ", names, batches)
  {
    var blocks := BatchByLength(names, |OBJECT_PREFIX| + |SUFFIX|);
    StatementsAskFor(OBJECT_PREFIX, names);
    batches := blocks;
    GreedyIsPacking(names, |OBJECT_PREFIX| + |SUFFIX|, SQL_MAX_LENGTH);
    hide AskedFor;
    candidates := [];
    var i := 0;
    NothingMatchesNoNames(e071);
    while i < |blocks|
      invariant 0 <= i <= |blocks|
      invariant multiset(candidates) == multiset(Filter(NameIn(Flatten(batches[..i])), e071))
    {
      var rows := reader.objectRows(blocks[i]);
      BatchAdds(e071, batches, i, candidates, rows);
      candidates := candidates + rows;
      i := i + 1;
    }
    assert batches[..|batches|] == batches;
  }

  lemma BatchAdds(e071: seq<ObjectRow>, batches: seq<seq<string>>, i: nat, candidates: seq<ObjectRow>, rows: seq<ObjectRow>)
    requires NoDuplicates(Flatten(batches)) && i < |batches|
    requires multiset(candidates) == multiset(Filter(NameIn(Flatten(batches[..i])), e071))
    requires multiset(rows) == multiset(Filter(NameIn(batches[i]), e071))
    ensures multiset(candidates + rows) == multiset(Filter(NameIn(Flatten(batches[..i + 1])), e071))
  {
    BatchesApart(batches, i);
    FilterSplit(Flatten(batches[..i]), batches[i], e071);
    hide Filter, Flatten, NoDuplicates;
  }

  lemma {:induction false} NothingMatchesNoNames(rows: seq<ObjectRow>)
    ensures Filter(NameIn([]), rows) == []
  {
    if |rows| != 0 {
      NothingMatchesNoNames(rows[1..]);
    }
  }

  lemma {:induction false} HeaderOfIs(e070: seq<Header>, trkorr: string)
    requires Keyed(e070)
    ensures forall h :: h in e070 && h.trkorr == trkorr ==> HeaderOf(e070, trkorr) == Some(h)
    ensures HeaderOf(e070, trkorr).Some? ==> HeaderOf(e070, trkorr).value in e070 && HeaderOf(e070, trkorr).value.trkorr == trkorr
  {
    if |e070| != 0 {
      HeaderOfIs(e070[1..], trkorr);
      assert e070 == [e070[0]] + e070[1..];
      if e070[0].trkorr == trkorr {
        forall h | h in e070[1..] ensures h.trkorr != trkorr {
          var k :| 0 <= k < |e070[1..]| && e070[1..][k] == h;
          assert e070[k + 1].trkorr != e070[0].trkorr;
        }
      }
    }
  }

  /** The headers of the requests named by `keys`, and no others. */
  ghost predicate HeadersOf(e070: seq<Header>, keys: seq<string>, headers: map<string, Header>) {
    forall t :: (if t in headers then Some(headers[t]) else None) == if t in keys then HeaderOf(e070, t) else None
  }

  /** Second phase: the headers of the foreign requests, again in batches. */
  method LookUpHeaders(reader: RowReader, ghost e071: seq<ObjectRow>, ghost e070: seq<Header>, keys: seq<string>)
    returns (headers: map<string, Header>, ghost batches: seq<seq<string>>)
    requires Honours(reader, e071, e070) && Keyed(e070)
    ensures HeadersOf(e070, keys, headers)
    ensures AskedFor("SELECT TRKORR, TRFUNCTION, TRSTATUS, AS4USER, STRKORR FROM E070 WHERE TRKORR IN ( ", keys, batches)
  {
    var blocks := BatchByLength(keys, |HEADER_PREFIX| + |SUFFIX|);
    StatementsAskFor(HEADER_PREFIX, keys);
    batches := blocks;
    hide AskedFor;
    GreedyIsPacking(keys, |HEADER_PREFIX| + |SUFFIX|, SQL_MAX_LENGTH);
    headers := map[];
    var i := 0;
    while i < |blocks|
      invariant 0 <= i <= |blocks|
      invariant HeadersOf(e070, Flatten(batches[..i]), headers)
    {
      var rows := reader.headerRows(blocks[i]);
      assert multiset(rows) == multiset(Filter(KeyIn(batches[i]), e070));
      FlattenStep(batches, i);
      headers := AddHeaders(e070, Flatten(batches[..i]), batches[i], rows, headers);
      i := i + 1;
    }
    assert batches[..|batches|] == batches;
  }

  lemma RowsOfBatch(e070: seq<Header>, batch: seq<string>, rows: seq<Header>)
    requires multiset(rows) == multiset(Filter(KeyIn(batch), e070))
    ensures forall row :: row in rows <==> row in e070 && row.trkorr in batch
  {
    var kept := Filter(KeyIn(batch), e070);
    FilterMembers(KeyIn(batch), e070);
    hide Filter;
    assert forall row :: row in rows <==> row in multiset(rows);
    assert forall row :: row in kept <==> row in multiset(kept);
  }

  method AddHeaders(ghost e070: seq<Header>, ghost known: seq<string>, ghost batch: seq<string>, rows: seq<Header>, before: map<string, Header>)
    returns (headers: map<string, Header>)
    requires Keyed(e070) && HeadersOf(e070, known, before)
    requires multiset(rows) == multiset(Filter(KeyIn(batch), e070))
    ensures HeadersOf(e070, known + batch, headers)
  {
    RowsOfBatch(e070, batch, rows);
    forall t ensures HeaderOf(e070, t).Some? && t in batch ==> HeaderOf(e070, t).value in rows {
      HeaderOfIs(e070, t);
    }
    headers := before;
    var j := 0;
    while j < |rows|
      invariant 0 <= j <= |rows|
      invariant forall t :: t in before ==> t in headers
      invariant forall k :: 0 <= k < j ==> rows[k].trkorr in headers
      invariant forall t :: t in headers ==> t in known + batch && HeaderOf(e070, t) == Some(headers[t])
    {
      HeaderOfIs(e070, rows[j].trkorr);
      headers := headers[rows[j].trkorr := rows[j]];
      j := j + 1;
    }
    forall t
      ensures (if t in headers then Some(headers[t]) else None) == if t in known + batch then HeaderOf(e070, t) else None
    {
      if t in known + batch && HeaderOf(e070, t).Some? {
        HeaderOfIs(e070, t);
        if t in batch {
          var k :| 0 <= k < |rows| && rows[k] == HeaderOf(e070, t).value;
          assert rows[k].trkorr in headers;
        } else {
          assert t in before;
        }
      }
    }
  }

  function NotIn(own: set<string>): ObjectRow -> bool {
    (row: ObjectRow) => row.trkorr !in own
  }

  function PlaceRow(e070: seq<Header>, own: set<string>, objects: seq<TransportObject>): ObjectRow -> seq<Elsewhere> {
    (row: ObjectRow) => Placement(own, objects, row, HeaderOf(e070, row.trkorr))
  }

  lemma {:induction false} OriginalIs(objects: seq<TransportObject>, row: ObjectRow)
    ensures Original(objects, row).Some? <==> exists o :: o in objects && SameObject(o, row)
    ensures Original(objects, row).Some? ==> Original(objects, row).value in objects && SameObject(Original(objects, row).value, row)
  {
    if |objects| != 0 {
      OriginalIs(objects[1..], row);
      assert objects == [objects[0]] + objects[1..];
    }
  }

  /** The two phases and the filters in code amount to the join. */
  lemma PhasesAreJoin(e071: seq<ObjectRow>, e070: seq<Header>, trkorr: string, objects: seq<TransportObject>, candidates: seq<ObjectRow>)
    requires multiset(candidates) == multiset(Filter(NameIn(SearchNames(objects)), e071))
    ensures var own := OwnTree(trkorr, objects);
            multiset(Flatten(Map(PlaceRow(e070, own, objects), Filter(NotIn(own), candidates)))) == multiset(Join(e071, e070, trkorr, objects))
  {
    var own := OwnTree(trkorr, objects);
    var join, place := JoinRow(e070, own, objects), PlaceRow(e070, own, objects);
    var named := Filter(NameIn(SearchNames(objects)), e071);
    SearchNamesAre(objects);
    forall row | row in e071 && !NameIn(SearchNames(objects))(row) ensures join(row) == [] {
      OriginalIs(objects, row);
    }
    FlatMapFilter(join, NameIn(SearchNames(objects)), e071);
    FlatMapPermuted(join, candidates, named);
    FlatMapFilter(join, NotIn(own), candidates);
    FilterMembers(NotIn(own), candidates);
    FilterMembers(NameIn(SearchNames(objects)), e071);
    forall row | row in Filter(NotIn(own), candidates) ensures join(row) == place(row) {
      assert row in multiset(candidates) && row in multiset(named);
    }
    SameOnMembers(join, place, Filter(NotIn(own), candidates));
  }

  lemma SameOnMembers<T, U>(f: T -> U, g: T -> U, xs: seq<T>)
    requires forall x :: x in xs ==> f(x) == g(x)
    ensures Map(f, xs) == Map(g, xs)
  {
  }

  method FindObjectsElsewhere(reader: RowReader, ghost e071: seq<ObjectRow>, ghost e070: seq<Header>, trkorr: string, objects: seq<TransportObject>)
    returns (found: seq<Elsewhere>)
    requires Honours(reader, e071, e070) && Keyed(e070)
    ensures multiset(found) == multiset(Join(e071, e070, trkorr, objects))
    ensures forall e :: multiset(found)[e] == Placements(e071, e070, trkorr, objects, e)
  {
    forall e ensures multiset(Join(e071, e070, trkorr, objects))[e] == Placements(e071, e070, trkorr, objects, e) {
      JoinCounted(e071, e070, trkorr, objects, e);
    }
    hide Placements;
    found := [];
    var names := SearchNames(objects);
    SearchNamesAre(objects);
    ghost var own := OwnTree(trkorr, objects);
    ghost var place := PlaceRow(e070, own, objects);
    if names == [] {
      NothingMatchesNoNames(e071);
      PhasesAreJoin(e071, e070, trkorr, objects, []);
      return;
    }
    var candidates, _ := LookUpObjects(reader, e071, e070, names);
    PhasesAreJoin(e071, e070, trkorr, objects, candidates);
    var ownTree := OwnTree(trkorr, objects);
    var foreign := Filter(NotIn(ownTree), candidates);
    if foreign == [] {
      return;
    }
    var keys := Distinct(Map((row: ObjectRow) => row.trkorr, foreign));
    var headers, _ := LookUpHeaders(reader, e071, e070, keys);
    forall row | row in foreign ensures row.trkorr in keys {
      var k :| 0 <= k < |foreign| && foreign[k] == row;
      assert Map((row: ObjectRow) => row.trkorr, foreign)[k] == row.trkorr;
    }
    found := Place(ownTree, objects, foreign, headers, e070, keys);
  }

  /** The last loop: keep the candidates whose header says "open, releasable and not ours". */
  method Place(own: set<string>, objects: seq<TransportObject>, foreign: seq<ObjectRow>, headers: map<string, Header>,
               ghost e070: seq<Header>, ghost keys: seq<string>) returns (found: seq<Elsewhere>)
    requires HeadersOf(e070, keys, headers) && forall row :: row in foreign ==> row.trkorr in keys
    ensures found == Flatten(Map(PlaceRow(e070, own, objects), foreign))
    ensures forall e :: e in found <==> exists row :: row in foreign && PlacedFrom(own, objects, headers, row, e)
  {
    ghost var place := PlaceRow(e070, own, objects);
    PlacedExactly(own, objects, foreign, headers, e070, keys);
    hide PlacedFrom, Original;
    found := [];
    var i := 0;
    while i < |foreign|
      invariant 0 <= i <= |foreign|
      invariant found == Flatten(Map(place, foreign[..i]))
    {
      var candidate := foreign[i];
      assert Map(place, foreign[..i + 1]) == Map(place, foreign[..i]) + [place(candidate)];
      FlattenSnoc(Map(place, foreign[..i]), place(candidate));
      assert HeaderOf(e070, candidate.trkorr) == if candidate.trkorr in headers then Some(headers[candidate.trkorr]) else None;
      i := i + 1;
      if candidate.trkorr !in headers {
        continue;
      }
      var header := headers[candidate.trkorr];
      if header.parent != "" && header.parent in own {
        continue;
      }
      if header.status !in MODIFIABLE_STATUSES {
        continue;
      }
      if header.function_ !in RELEASABLE_FUNCTIONS {
        continue;
      }
      var original := Original(objects, candidate);
      if original.None? {
        continue;
      }
      found := found + [Elsewhere(original.value.pgmid, candidate.kind, candidate.name, candidate.trkorr, header.owner, header.status)];
    }
    assert foreign[..|foreign|] == foreign;
  }

  // ---------- What is reported ----------

  /** The request itself, or an entry that holds one of its objects. */
  ghost predicate InOwnTree(trkorr: string, objects: seq<TransportObject>, t: string) {
    t == trkorr || exists o :: o in objects && o.trkorr == t
  }

  /** The entry is open, and of a kind that can be released. */
  ghost predicate IsOpen(h: Header) {
    (h.status == "D" || h.status == "L") && h.function_ in {"K", "W", "T", "S", "R", "Q", "X", "Y", "C", "O", "E"}
  }

  /** The first of the transport's objects with this name and type. */
  ghost predicate FirstNamed(objects: seq<TransportObject>, kind: string, name: string, o: TransportObject) {
    exists k :: 0 <= k < |objects| && objects[k] == o && o.kind == kind && o.name == name
                && forall j :: 0 <= j < k ==> objects[j].kind != kind || objects[j].name != name
  }

  /** The placement names the row's object and entry, the owner and the status from the header, and the first of the
      transport's objects with this name and type. */
  ghost predicate PlacedAs(objects: seq<TransportObject>, row: ObjectRow, h: Header, e: Elsewhere) {
    && e.kind == row.kind && e.name == row.name && e.otherTrkorr == row.trkorr && e.otherOwner == h.owner && e.otherStatus == h.status
    && exists o :: FirstNamed(objects, row.kind, row.name, o) && e.pgmid == o.pgmid
  }

  /** The row gives rise to the placement: its entry does not belong to the transport, and its header is of an open entry that
      is no task of the transport. Names that are blank or hold a quote are never looked up. */
  ghost predicate StandsElsewhere(e070: seq<Header>, trkorr: string, objects: seq<TransportObject>, row: ObjectRow, e: Elsewhere) {
    && row.name != "" && '\'' !in row.name && !InOwnTree(trkorr, objects, row.trkorr)
    && exists h :: h in e070 && h.trkorr == row.trkorr && IsOpen(h) && (h.parent == "" || !InOwnTree(trkorr, objects, h.parent))
                   && PlacedAs(objects, row, h, e)
  }

  /** The rows of E071 that give rise to a placement. */
  ghost function Placements(e071: seq<ObjectRow>, e070: seq<Header>, trkorr: string, objects: seq<TransportObject>, e: Elsewhere): nat {
    var row := ObjectRow(e.otherTrkorr, e.kind, e.name);
    if StandsElsewhere(e070, trkorr, objects, row, e) then multiset(e071)[row] else 0
  }

  lemma {:induction false} OriginalExactly(objects: seq<TransportObject>, row: ObjectRow, o: TransportObject)
    ensures Original(objects, row) == Some(o) <==> FirstNamed(objects, row.kind, row.name, o)
  {
    if |objects| > 0 {
      OriginalExactly(objects[1..], row, o);
      if SameObject(objects[0], row) {
        assert FirstNamed(objects, row.kind, row.name, objects[0]);
      } else {
        if k :| 0 <= k < |objects[1..]| && objects[1..][k] == o && o.kind == row.kind && o.name == row.name
                && forall j :: 0 <= j < k ==> objects[1..][j].kind != row.kind || objects[1..][j].name != row.name {
          assert objects[k + 1] == o && forall j :: 0 < j < k + 1 ==> objects[j] == objects[1..][j - 1];
        }
        if k :| 0 <= k < |objects| && objects[k] == o && o.kind == row.kind && o.name == row.name
                && forall j :: 0 <= j < k ==> objects[j].kind != row.kind || objects[j].name != row.name {
          assert objects[1..][k - 1] == o && forall j :: 0 <= j < k - 1 ==> objects[1..][j] == objects[j + 1];
        }
      }
    }
  }

  /** The row is placed as its header says. */
  ghost predicate PlacedFrom(own: set<string>, objects: seq<TransportObject>, headers: map<string, Header>, row: ObjectRow, e: Elsewhere) {
    row.trkorr in headers
    && var h := headers[row.trkorr]; IsOpen(h) && (h.parent == "" || h.parent !in own) && PlacedAs(objects, row, h, e)
  }

  lemma PlacedExactly(own: set<string>, objects: seq<TransportObject>, foreign: seq<ObjectRow>, headers: map<string, Header>,
                      e070: seq<Header>, keys: seq<string>)
    requires HeadersOf(e070, keys, headers) && forall row :: row in foreign ==> row.trkorr in keys
    ensures forall e :: e in Flatten(Map(PlaceRow(e070, own, objects), foreign))
                        <==> exists row :: row in foreign && PlacedFrom(own, objects, headers, row, e)
  {
    forall e
      ensures e in Flatten(Map(PlaceRow(e070, own, objects), foreign))
              <==> exists row :: row in foreign && PlacedFrom(own, objects, headers, row, e)
    {
      PlaceMembers(own, objects, foreign, headers, e070, keys, e);
    }
  }

  lemma PlaceMembers(own: set<string>, objects: seq<TransportObject>, foreign: seq<ObjectRow>, headers: map<string, Header>,
                     e070: seq<Header>, keys: seq<string>, e: Elsewhere)
    requires HeadersOf(e070, keys, headers) && forall row :: row in foreign ==> row.trkorr in keys
    ensures e in Flatten(Map(PlaceRow(e070, own, objects), foreign)) <==> exists row :: row in foreign && PlacedFrom(own, objects, headers, row, e)
  {
    var place := PlaceRow(e070, own, objects);
    FlattenMembers(Map(place, foreign), e);
    forall row | row in foreign ensures e in place(row) <==> PlacedFrom(own, objects, headers, row, e) {
      PlacementExactly(own, objects, row, HeaderOf(e070, row.trkorr), e);
      assert HeaderOf(e070, row.trkorr) == if row.trkorr in headers then Some(headers[row.trkorr]) else None;
    }
    hide PlacedFrom, PlaceRow, Flatten;
    if row :| row in foreign && PlacedFrom(own, objects, headers, row, e) {
      var k :| 0 <= k < |foreign| && foreign[k] == row;
      assert e in Map(place, foreign)[k];
    }
    if k :| 0 <= k < |foreign| && e in Map(place, foreign)[k] {
      assert foreign[k] in foreign;
    }
  }

  lemma OwnTreeExactly(trkorr: string, objects: seq<TransportObject>, t: string)
    ensures t in OwnTree(trkorr, objects) <==> InOwnTree(trkorr, objects, t)
  {
  }

  lemma OpenExactly(h: Header, own: set<string>)
    ensures OpenForeign(h, own) <==> IsOpen(h) && (h.parent == "" || h.parent !in own)
  {
  }

  /** What one row contributes, given the header of its entry. */
  lemma PlacementExactly(own: set<string>, objects: seq<TransportObject>, row: ObjectRow, header: Option<Header>, e: Elsewhere)
    ensures var part := Placement(own, objects, row, header);
            && |part| <= 1
            && (e in part <==> header.Some? && IsOpen(header.value) && (header.value.parent == "" || header.value.parent !in own)
                               && PlacedAs(objects, row, header.value, e))
  {
    if header.Some? {
      OpenExactly(header.value, own);
    }
    forall o ensures Original(objects, row) == Some(o) <==> FirstNamed(objects, row.kind, row.name, o) {
      OriginalExactly(objects, row, o);
    }
    hide OpenForeign, IsOpen, FirstNamed, Original;
  }

  lemma RowExactly(e070: seq<Header>, trkorr: string, objects: seq<TransportObject>, row: ObjectRow, e: Elsewhere)
    requires Keyed(e070)
    ensures var part := JoinRow(e070, OwnTree(trkorr, objects), objects)(row);
            |part| <= 1 && (e in part <==> StandsElsewhere(e070, trkorr, objects, row, e))
  {
    HeaderOfIs(e070, row.trkorr);
    PlacementExactly(OwnTree(trkorr, objects), objects, row, HeaderOf(e070, row.trkorr), e);
    forall t ensures t in OwnTree(trkorr, objects) <==> InOwnTree(trkorr, objects, t) {
      OwnTreeExactly(trkorr, objects, t);
    }
    hide OwnTree, Placement, IsOpen, PlacedAs, HeaderOf, InOwnTree;
  }

  /** How often a placement is in the join: once for each row of E071 that gives rise to it. */
  lemma {:induction false} JoinCounted(e071: seq<ObjectRow>, e070: seq<Header>, trkorr: string, objects: seq<TransportObject>, e: Elsewhere)
    requires Keyed(e070)
    ensures multiset(Join(e071, e070, trkorr, objects))[e] == Placements(e071, e070, trkorr, objects, e)
  {
    if |e071| > 0 {
      var f, first, rest := JoinRow(e070, OwnTree(trkorr, objects), objects), e071[0], e071[1..];
      JoinCounted(rest, e070, trkorr, objects, e);
      RowExactly(e070, trkorr, objects, first, e);
      assert e071 == [first] + rest;
      FlatMapAppend(f, [first], rest);
      FlatMapOne(f, first);
      assert StandsElsewhere(e070, trkorr, objects, first, e) ==> first == ObjectRow(e.otherTrkorr, e.kind, e.name);
      hide JoinRow, StandsElsewhere, Flatten, Map;
      CountAtMostOne(f(first), e);
    }
  }

  lemma CountAtMostOne<T>(xs: seq<T>, x: T)
    requires |xs| <= 1
    ensures multiset(xs)[x] == if x in xs then 1 else 0
  {
    assert |xs| == 1 ==> xs == [xs[0]];
  }

  // ---------- What the join means ----------

  /** The request itself, the entries that hold its objects, and its tasks. */
  ghost predicate BelongsTo(e070: seq<Header>, trkorr: string, objects: seq<TransportObject>, t: string) {
    || t in OwnTree(trkorr, objects)
    || (HeaderOf(e070, t).Some? && HeaderOf(e070, t).value.parent != "" && HeaderOf(e070, t).value.parent in OwnTree(trkorr, objects))
  }

  /** Every reported placement is a row of E071 about one of the transport's objects, in an open request or task that does
      not belong to the transport; and every such row is reported. */
  lemma JoinExact(e071: seq<ObjectRow>, e070: seq<Header>, trkorr: string, objects: seq<TransportObject>, row: ObjectRow)
    requires row in e071
    ensures (exists e :: e in Join(e071, e070, trkorr, objects) && e.otherTrkorr == row.trkorr && e.kind == row.kind && e.name == row.name)
            <==> (&& !BelongsTo(e070, trkorr, objects, row.trkorr) && Searchable(row.name)
                  && (exists o :: o in objects && SameObject(o, row))
                  && HeaderOf(e070, row.trkorr).Some?
                  && HeaderOf(e070, row.trkorr).value.status in MODIFIABLE_STATUSES
                  && HeaderOf(e070, row.trkorr).value.function_ in RELEASABLE_FUNCTIONS)
  {
    var join := JoinRow(e070, OwnTree(trkorr, objects), objects);
    OriginalIs(objects, row);
    if join(row) != [] {
      var k :| 0 <= k < |e071| && e071[k] == row;
      assert Map(join, e071)[k] == join(row);
      FlattenMembers(Map(join, e071), join(row)[0]);
      assert join(row)[0] in Join(e071, e070, trkorr, objects);
    }
    if e :| e in Join(e071, e070, trkorr, objects) && e.otherTrkorr == row.trkorr && e.kind == row.kind && e.name == row.name {
      JoinMember(e071, e070, trkorr, objects, e);
    }
  }

  lemma JoinMember(e071: seq<ObjectRow>, e070: seq<Header>, trkorr: string, objects: seq<TransportObject>, e: Elsewhere)
    requires e in Join(e071, e070, trkorr, objects)
    ensures JoinRow(e070, OwnTree(trkorr, objects), objects)(ObjectRow(e.otherTrkorr, e.kind, e.name)) == [e]
    ensures ObjectRow(e.otherTrkorr, e.kind, e.name) in e071
    ensures Keyed(e070) ==> StandsElsewhere(e070, trkorr, objects, ObjectRow(e.otherTrkorr, e.kind, e.name), e)
    ensures exists o :: o in objects && o.name == e.name && o.kind == e.kind && o.pgmid == e.pgmid
    ensures !BelongsTo(e070, trkorr, objects, e.otherTrkorr)
  {
    var join := JoinRow(e070, OwnTree(trkorr, objects), objects);
    FlattenMembers(Map(join, e071), e);
    var k :| 0 <= k < |e071| && e in Map(join, e071)[k];
    OriginalIs(objects, e071[k]);
    if Keyed(e070) {
      RowExactly(e070, trkorr, objects, e071[k], e);
    }
  }

  function Affected(found: seq<Elsewhere>): set<string> {
    set e | e in found :: e.kind + " " + e.name
  }

  /** The number of affected objects announced never exceeds the number of objects in the transport. */
  lemma AffectedWithinObjects(e071: seq<ObjectRow>, e070: seq<Header>, trkorr: string, objects: seq<TransportObject>, found: seq<Elsewhere>)
    requires multiset(found) == multiset(Join(e071, e070, trkorr, objects))
    ensures |Affected(found)| <= |objects|
  {
    var labels := set o | o in objects :: o.kind + " " + o.name;
    forall tag | tag in Affected(found) ensures tag in labels {
      var e :| e in found && e.kind + " " + e.name == tag;
      assert e in multiset(found);
      JoinMember(e071, e070, trkorr, objects, e);
    }
    SubsetSize(Affected(found), labels);
    LabelsAtMost(objects);
  }

  lemma {:induction false} LabelsAtMost(objects: seq<TransportObject>)
    ensures |set o | o in objects :: o.kind + " " + o.name| <= |objects|
  {
    var labels := set o | o in objects :: o.kind + " " + o.name;
    if |objects| == 0 {
      assert labels == {};
    } else {
      LabelsAtMost(objects[1..]);
      assert objects == [objects[0]] + objects[1..];
      assert labels == (set o | o in objects[1..] :: o.kind + " " + o.name) + {objects[0].kind + " " + objects[0].name};
    }
  }

  lemma {:induction false} SubsetSize<T>(a: set<T>, b: set<T>)
    requires a <= b
    ensures |a| <= |b|
  {
    if a != {} {
      var x :| x in a;
      SubsetSize(a - {x}, b - {x});
    }
  }
}
