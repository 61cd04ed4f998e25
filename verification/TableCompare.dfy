/** Comparing the content of a table across systems (src/lib/adt/tableCompare.ts, `compareTableRows`). */
module TableCompare {
  import opened Sequences
  import opened Order
  import opened RowKeys

  datatype FieldDifference = FieldDifference(field: string, source: string, target: string)

  datatype RowDifference = RowDifference(key: map<string, string>, fields: seq<FieldDifference>)

  const CLIENT_FIELD := "MANDT"
  const DEFAULT_MAX_DIFFERENCES := 200

  /** What a comparison is made by: key fields, compared fields and the cap on detailed differences. */
  datatype Plan = Plan(keyFields: seq<string>, fields: seq<string>, maxDifferences: int)

  function KeyObject(row: TableRow, keyFields: seq<string>): map<string, string> {
    map f | f in keyFields :: Value(row, f)
  }

  function FieldDifferences(a: TableRow, b: TableRow, fields: seq<string>): seq<FieldDifference> {
    if |fields| == 0 then [] else
    var f := fields[|fields| - 1];
    FieldDifferences(a, b, fields[..|fields| - 1]) +
    if Value(a, f) != Value(b, f) then [FieldDifference(f, Value(a, f), Value(b, f))] else []
  }

  /** The row the target map holds for a key: the last one with it. */
  function LastMatch(rows: seq<TableRow>, keyFields: seq<string>, key: string): Option<TableRow> {
    if |rows| == 0 then None
    else if RowKey(rows[|rows| - 1], keyFields) == key then Some(rows[|rows| - 1])
    else LastMatch(rows[..|rows| - 1], keyFields, key)
  }

  datatype Scan = Scan(identical: nat, onlyInSource: seq<map<string, string>>, different: seq<RowDifference>)

  function ScanRow(plan: Plan, before: Scan, row: TableRow, match_: Option<TableRow>): Scan {
    if match_.None? then before.(onlyInSource := before.onlyInSource + [KeyObject(row, plan.keyFields)]) else
    var fields := FieldDifferences(row, match_.value, plan.fields);
    if fields == [] then before.(identical := before.identical + 1)
    else before.(different := before.different +
                   [RowDifference(KeyObject(row, plan.keyFields), if |before.different| < plan.maxDifferences then fields else [])])
  }

  function ScanSource(plan: Plan, source: seq<TableRow>, target: seq<TableRow>): Scan {
    if |source| == 0 then Scan(0, [], []) else
    var row := source[|source| - 1];
    ScanRow(plan, ScanSource(plan, source[..|source| - 1], target), row, LastMatch(target, plan.keyFields, RowKey(row, plan.keyFields)))
  }

  function KeysOf(rows: seq<TableRow>, keyFields: seq<string>): set<string> {
    set r | r in rows :: RowKey(r, keyFields)
  }

  function OnlyIn(rows: seq<TableRow>, seen: set<string>, keyFields: seq<string>): seq<map<string, string>> {
    if |rows| == 0 then [] else
    var row := rows[|rows| - 1];
    OnlyIn(rows[..|rows| - 1], seen, keyFields) + if RowKey(row, keyFields) in seen then [] else [KeyObject(row, keyFields)]
  }

  // ---------- What a comparison says ----------

  /** The key of a row: its text in each key field. */
  ghost predicate IsKey(row: TableRow, keyFields: seq<string>, key: map<string, string>) {
    (forall f :: f in key <==> f in keyFields) && forall f :: f in key ==> Holds(row, f, key[f])
  }

  /** The difference records a column in which the rows hold different texts, with the text of the source and of the target. */
  ghost predicate Records(s: TableRow, t: TableRow, columns: seq<string>, d: FieldDifference) {
    d.field in columns && Holds(s, d.field, d.source) && Holds(t, d.field, d.target) && d.source != d.target
  }

  /** All such columns, in the order of the columns. */
  ghost predicate RecordsAll(s: TableRow, t: TableRow, columns: seq<string>, fields: seq<FieldDifference>) {
    && (forall d :: d in fields <==> Records(s, t, columns, d))
    && forall i, j :: 0 <= i < j < |fields| ==> Before(columns, fields[i].field, fields[j].field)
  }

  ghost predicate Before(columns: seq<string>, f: string, g: string) {
    exists p, q :: 0 <= p < q < |columns| && columns[p] == f && columns[q] == g
  }

  /** The row that is compared with s: the last of the target with the same key. */
  ghost predicate IsPartner(target: seq<TableRow>, keyFields: seq<string>, s: TableRow, t: TableRow) {
    exists k :: 0 <= k < |target| && target[k] == t && SameKey(s, t, keyFields)
                && forall j :: k < j < |target| ==> !SameKey(s, target[j], keyFields)
  }

  /** No row of the other table has the key of this one. */
  ghost predicate Alone(row: TableRow, others: seq<TableRow>, keyFields: seq<string>) {
    forall other :: other in others ==> !SameKey(row, other, keyFields)
  }

  /** It has a partner that holds another text in some column. */
  ghost predicate Differs(plan: Plan, target: seq<TableRow>, s: TableRow) {
    exists t, d :: IsPartner(target, plan.keyFields, s, t) && Records(s, t, plan.fields, d)
  }

  ghost predicate Increasing(at: seq<nat>) {
    forall i, j :: 0 <= i < j < |at| ==> at[i] < at[j]
  }

  /** The keys of the rows at the positions listed, which are those without a partner. */
  ghost predicate KeysOfAlone(rows: seq<TableRow>, others: seq<TableRow>, keyFields: seq<string>, keys: seq<map<string, string>>, at: seq<nat>) {
    && |keys| == |at| && Increasing(at)
    && (forall k: nat :: k in at <==> k < |rows| && Alone(rows[k], others, keyFields))
    && forall i :: 0 <= i < |at| ==> at[i] < |rows| && IsKey(rows[at[i]], keyFields, keys[i])
  }

  /** The report on the row s that differs from its partner: the key, and the differences unless the cap is used up. */
  ghost predicate ReportsRow(plan: Plan, target: seq<TableRow>, s: TableRow, n: nat, d: RowDifference) {
    && IsKey(s, plan.keyFields, d.key)
    && forall t :: IsPartner(target, plan.keyFields, s, t) ==>
         if n < plan.maxDifferences then RecordsAll(s, t, plan.fields, d.fields) else d.fields == []
  }

  ghost predicate ReportsDiffering(plan: Plan, source: seq<TableRow>, target: seq<TableRow>, different: seq<RowDifference>, at: seq<nat>) {
    && |different| == |at| && Increasing(at)
    && (forall k: nat :: k in at <==> k < |source| && Differs(plan, target, source[k]))
    && forall i :: 0 <= i < |at| ==> at[i] < |source| && ReportsRow(plan, target, source[at[i]], i, different[i])
  }

  lemma {:induction false} FieldDifferencesExactly(s: TableRow, t: TableRow, columns: seq<string>)
    ensures RecordsAll(s, t, columns, FieldDifferences(s, t, columns))
  {
    if |columns| != 0 {
      var n := |columns| - 1;
      FieldDifferencesExactly(s, t, columns[..n]);
      RecordsSnoc(s, t, columns[..n], columns[n], FieldDifferences(s, t, columns[..n]));
      assert columns == columns[..n] + [columns[n]];
    }
  }

  lemma RecordsSnoc(s: TableRow, t: TableRow, columns: seq<string>, f: string, fields: seq<FieldDifference>)
    requires RecordsAll(s, t, columns, fields)
    ensures RecordsAll(s, t, columns + [f],
                       fields + if Value(s, f) != Value(t, f) then [FieldDifference(f, Value(s, f), Value(t, f))] else [])
  {
    var more, now := columns + [f], fields + if Value(s, f) != Value(t, f) then [FieldDifference(f, Value(s, f), Value(t, f))] else [];
    forall d ensures d in now <==> Records(s, t, more, d) {
      assert d.field in more <==> d.field in columns || d.field == f;
      assert Records(s, t, columns, d) ==> Records(s, t, more, d);
    }
    forall i, j | 0 <= i < j < |now| ensures Before(more, now[i].field, now[j].field) {
      if j < |fields| {
        assert Before(columns, fields[i].field, fields[j].field);
        var p, q :| 0 <= p < q < |columns| && columns[p] == fields[i].field && columns[q] == fields[j].field;
        assert more[p] == fields[i].field && more[q] == fields[j].field;
      } else {
        assert fields[i] in fields;
        var p :| 0 <= p < |columns| && columns[p] == fields[i].field;
        assert more[p] == fields[i].field && more[|columns|] == f;
      }
    }
  }

  lemma {:induction false} LastMatchExactly(target: seq<TableRow>, keyFields: seq<string>, s: TableRow)
    ensures var m := LastMatch(target, keyFields, RowKey(s, keyFields));
            && (m.None? <==> Alone(s, target, keyFields))
            && forall t :: m == Some(t) <==> IsPartner(target, keyFields, s, t)
  {
    hide RowKey, SameKey;
    if |target| != 0 {
      var n := |target| - 1;
      LastMatchExactly(target[..n], keyFields, s);
      RowKeyInjective(s, target[n], keyFields);
      assert target == target[..n] + [target[n]];
      if !SameKey(s, target[n], keyFields) {
        forall t ensures IsPartner(target, keyFields, s, t) <==> IsPartner(target[..n], keyFields, s, t) {
          PartnerSnoc(target, keyFields, s, t);
        }
      } else {
        assert target[n] in target;
      }
    }
  }

  lemma PartnerSnoc(target: seq<TableRow>, keyFields: seq<string>, s: TableRow, t: TableRow)
    requires |target| > 0 && !SameKey(s, target[|target| - 1], keyFields)
    ensures IsPartner(target, keyFields, s, t) <==> IsPartner(target[..|target| - 1], keyFields, s, t)
  {
    hide SameKey;
    var front := target[..|target| - 1];
    if k :| 0 <= k < |front| && front[k] == t && SameKey(s, t, keyFields) && forall j :: k < j < |front| ==> !SameKey(s, front[j], keyFields) {
      assert target[k] == t;
    }
    if k :| 0 <= k < |target| && target[k] == t && SameKey(s, t, keyFields) && forall j :: k < j < |target| ==> !SameKey(s, target[j], keyFields) {
      assert front[k] == t;
    }
  }

  lemma KeyObjectExactly(row: TableRow, keyFields: seq<string>)
    ensures IsKey(row, keyFields, KeyObject(row, keyFields))
  {
  }

  /** The rows have no partner exactly where the scan finds none; they differ where it finds differences. */
  lemma RowExactly(plan: Plan, target: seq<TableRow>, s: TableRow)
    ensures var m := LastMatch(target, plan.keyFields, RowKey(s, plan.keyFields));
            && (m.None? <==> Alone(s, target, plan.keyFields))
            && (Differs(plan, target, s) <==> m.Some? && FieldDifferences(s, m.value, plan.fields) != [])
  {
    var m := LastMatch(target, plan.keyFields, RowKey(s, plan.keyFields));
    LastMatchExactly(target, plan.keyFields, s);
    if m.Some? {
      var fields := FieldDifferences(s, m.value, plan.fields);
      FieldDifferencesExactly(s, m.value, plan.fields);
      if fields != [] {
        assert fields[0] in fields && Records(s, m.value, plan.fields, fields[0]);
      }
    }
    hide LastMatch, RowKey, FieldDifferences, Records, IsPartner;
  }

  lemma ReportExactly(plan: Plan, target: seq<TableRow>, s: TableRow, n: nat)
    requires var m := LastMatch(target, plan.keyFields, RowKey(s, plan.keyFields)); m.Some?
    ensures var m := LastMatch(target, plan.keyFields, RowKey(s, plan.keyFields));
            ReportsRow(plan, target, s, n, RowDifference(KeyObject(s, plan.keyFields),
                                                         if n < plan.maxDifferences then FieldDifferences(s, m.value, plan.fields) else []))
  {
    var m := LastMatch(target, plan.keyFields, RowKey(s, plan.keyFields));
    LastMatchExactly(target, plan.keyFields, s);
    FieldDifferencesExactly(s, m.value, plan.fields);
    KeyObjectExactly(s, plan.keyFields);
    hide LastMatch, RowKey, FieldDifferences, RecordsAll, IsPartner, IsKey, KeyObject;
  }

  /** A scan accounts for every source row: its key is listed as having no partner, its differences are listed, or it is counted
      as identical. */
  ghost predicate ScanReport(plan: Plan, source: seq<TableRow>, target: seq<TableRow>, scan: Scan, alone: seq<nat>, differing: seq<nat>) {
    && KeysOfAlone(source, target, plan.keyFields, scan.onlyInSource, alone)
    && ReportsDiffering(plan, source, target, scan.different, differing)
    && scan.identical + |alone| + |differing| == |source|
  }

  lemma {:induction false} ScanExactly(plan: Plan, source: seq<TableRow>, target: seq<TableRow>) returns (alone: seq<nat>, differing: seq<nat>)
    ensures ScanReport(plan, source, target, ScanSource(plan, source, target), alone, differing)
  {
    if |source| == 0 {
      alone, differing := [], [];
    } else {
      var n := |source| - 1;
      alone, differing := ScanExactly(plan, source[..n], target);
      alone, differing := ReportStep(plan, source, target, ScanSource(plan, source[..n], target), alone, differing);
    }
  }

  lemma ReportStep(plan: Plan, source: seq<TableRow>, target: seq<TableRow>, before: Scan, alone: seq<nat>, differing: seq<nat>)
    returns (alone': seq<nat>, differing': seq<nat>)
    requires |source| > 0 && ScanReport(plan, source[..|source| - 1], target, before, alone, differing)
    ensures var row := source[|source| - 1];
            ScanReport(plan, source, target, ScanRow(plan, before, row, LastMatch(target, plan.keyFields, RowKey(row, plan.keyFields))), alone', differing')
  {
    var n, row := |source| - 1, source[|source| - 1];
    var m := LastMatch(target, plan.keyFields, RowKey(row, plan.keyFields));
    RowExactly(plan, target, row);
    hide LastMatch, RowKey, FieldDifferences, KeyObject, Alone, Differs, ReportsRow, KeysOfAlone, ReportsDiffering;
    alone', differing' := alone, differing;
    if m.None? {
      AloneSnoc(source, target, plan.keyFields, before.onlyInSource, alone);
      NotDiffering(plan, source, target, before.different, differing);
      alone' := alone + [n];
    } else {
      NotAlone(source, target, plan.keyFields, before.onlyInSource, alone);
      var fields := FieldDifferences(row, m.value, plan.fields);
      if fields == [] {
        NotDiffering(plan, source, target, before.different, differing);
      } else {
        ReportExactly(plan, target, row, |before.different|);
        var d := RowDifference(KeyObject(row, plan.keyFields), if |before.different| < plan.maxDifferences then fields else []);
        DifferingSnoc(plan, source, target, before.different, differing, d);
        differing' := differing + [n];
      }
    }
  }

  lemma AloneSnoc(rows: seq<TableRow>, others: seq<TableRow>, keyFields: seq<string>, keys: seq<map<string, string>>, at: seq<nat>)
    requires |rows| > 0 && KeysOfAlone(rows[..|rows| - 1], others, keyFields, keys, at) && Alone(rows[|rows| - 1], others, keyFields)
    ensures var n := |rows| - 1; KeysOfAlone(rows, others, keyFields, keys + [KeyObject(rows[n], keyFields)], at + [n])
  {
    KeyObjectExactly(rows[|rows| - 1], keyFields);
    hide Alone, IsKey;
    assert forall k: nat :: k in at + [|rows| - 1] <==> k in at || k == |rows| - 1;
  }

  lemma NotAlone(rows: seq<TableRow>, others: seq<TableRow>, keyFields: seq<string>, keys: seq<map<string, string>>, at: seq<nat>)
    requires |rows| > 0 && KeysOfAlone(rows[..|rows| - 1], others, keyFields, keys, at) && !Alone(rows[|rows| - 1], others, keyFields)
    ensures KeysOfAlone(rows, others, keyFields, keys, at)
  {
    hide Alone, IsKey;
  }

  lemma DifferingSnoc(plan: Plan, source: seq<TableRow>, target: seq<TableRow>, different: seq<RowDifference>, at: seq<nat>, d: RowDifference)
    requires |source| > 0 && ReportsDiffering(plan, source[..|source| - 1], target, different, at)
    requires Differs(plan, target, source[|source| - 1]) && ReportsRow(plan, target, source[|source| - 1], |different|, d)
    ensures ReportsDiffering(plan, source, target, different + [d], at + [|source| - 1])
  {
    hide Differs, ReportsRow;
    assert forall k: nat :: k in at + [|source| - 1] <==> k in at || k == |source| - 1;
  }

  lemma NotDiffering(plan: Plan, source: seq<TableRow>, target: seq<TableRow>, different: seq<RowDifference>, at: seq<nat>)
    requires |source| > 0 && ReportsDiffering(plan, source[..|source| - 1], target, different, at)
    requires !Differs(plan, target, source[|source| - 1])
    ensures ReportsDiffering(plan, source, target, different, at)
  {
    hide Differs, ReportsRow;
  }

  lemma {:induction false} OnlyInExactly(rows: seq<TableRow>, others: seq<TableRow>, keyFields: seq<string>) returns (at: seq<nat>)
    ensures KeysOfAlone(rows, others, keyFields, OnlyIn(rows, KeysOf(others, keyFields), keyFields), at)
  {
    if |rows| == 0 {
      at := [];
    } else {
      var n := |rows| - 1;
      var keys := OnlyIn(rows[..n], KeysOf(others, keyFields), keyFields);
      at := OnlyInExactly(rows[..n], others, keyFields);
      AloneByKey(rows[n], others, keyFields);
      hide KeysOfAlone, Alone, RowKey, KeysOf, KeyObject;
      if Alone(rows[n], others, keyFields) {
        AloneSnoc(rows, others, keyFields, keys, at);
        at := at + [n];
      } else {
        NotAlone(rows, others, keyFields, keys, at);
        assert keys + [] == keys;
      }
    }
  }

  lemma AloneByKey(row: TableRow, others: seq<TableRow>, keyFields: seq<string>)
    ensures Alone(row, others, keyFields) <==> RowKey(row, keyFields) !in KeysOf(others, keyFields)
  {
    hide RowKey, SameKey;
    forall other ensures RowKey(row, keyFields) == RowKey(other, keyFields) <==> SameKey(row, other, keyFields) {
      RowKeyInjective(row, other, keyFields);
    }
  }

  // ---------- The code ----------

  datatype Comparison = Comparison(
    keyFields: seq<string>,
    comparedFields: seq<string>,
    ignoredFields: seq<string>,
    sourceRows: nat,
    targetRows: nat,
    identical: nat,
    onlyInSource: seq<map<string, string>>,
    onlyInTarget: seq<map<string, string>>,
    different: seq<RowDifference>)

  datatype CompareError = NoKeyFields

  predicate NotClient(field: string) {
    field != CLIENT_FIELD
  }

  predicate StringLe(a: string, b: string) {
    a == b || Less(a, b)
  }

  lemma StringLeOrder()
    ensures TotalPreorder(StringLe) && forall a, b :: Tied(StringLe, a, b) ==> a == b
  {
    forall a: string, b: string, c: string
      ensures StringLe(a, b) || StringLe(b, a)
      ensures StringLe(a, b) && StringLe(b, a) ==> a == b
      ensures StringLe(a, b) && StringLe(b, c) ==> StringLe(a, c)
    {
      LessTrichotomy(a, b);
      if Less(a, b) && Less(b, c) {
        LessTransitive(a, b, c);
      }
    }
  }

  /** A list is the sorted, duplicate-free listing of a set. */
  ghost predicate Lists(fields: seq<string>, s: set<string>) {
    Sorted(StringLe, fields) && NoDuplicates(fields) && forall f :: f in fields <==> f in s
  }

  lemma ListsUnique(a: seq<string>, b: seq<string>, s: set<string>)
    requires Lists(a, s) && Lists(b, s)
    ensures a == b
  {
    StringLeOrder();
    assert multiset(a) == multiset(b) by {
      forall f ensures multiset(a)[f] == multiset(b)[f] {
        OnceEach(a, f);
        OnceEach(b, f);
      }
    }
    SortedUnique(StringLe, a, b);
  }

  lemma {:induction false} OnceEach(xs: seq<string>, x: string)
    requires NoDuplicates(xs)
    ensures multiset(xs)[x] == if x in xs then 1 else 0
  {
    if |xs| != 0 {
      OnceEach(xs[1..], x);
      assert xs == [xs[0]] + xs[1..];
      forall i, j | 0 <= i < j < |xs[1..]| ensures xs[1..][i] != xs[1..][j] {
        assert xs[i + 1] != xs[j + 1];
      }
      forall k | 0 <= k < |xs[1..]| ensures xs[1..][k] != xs[0] {
        assert xs[k + 1] != xs[0];
      }
    }
  }

  /** `[...set].sort()`. */
  method SortedList(s: set<string>) returns (fields: seq<string>)
    ensures Lists(fields, s)
  {
    var rest := s;
    var listed: seq<string> := [];
    while rest != {}
      invariant rest <= s && NoDuplicates(listed)
      invariant forall f :: f in listed <==> f in s && f !in rest
      decreases |rest|
    {
      var f :| f in rest;
      rest := rest - {f};
      listed := listed + [f];
    }
    StringLeOrder();
    SortSorts(StringLe, listed);
    fields := Sort(StringLe, listed);
    forall f ensures f in fields <==> f in listed {
      assert f in multiset(fields) <==> f in multiset(listed);
    }
    forall i, j | 0 <= i < j < |fields| ensures fields[i] != fields[j] {
      if fields[i] == fields[j] {
        RepeatedCountsTwice(fields, i, j);
        OnceEach(listed, fields[i]);
      }
    }
  }

  lemma RepeatedCountsTwice(xs: seq<string>, i: nat, j: nat)
    requires i < j < |xs| && xs[i] == xs[j]
    ensures multiset(xs)[xs[i]] >= 2
  {
    assert xs == xs[..i] + ([xs[i]] + (xs[i + 1..j] + ([xs[j]] + xs[j + 1..])));
  }

  function Columns(rows: seq<TableRow>): set<string> {
    set r, f | r in rows && f in r :: f
  }

  function Ignored(upper: string -> string, ignoreFields: seq<string>): set<string> {
    {CLIENT_FIELD} + set f | f in ignoreFields :: upper(f)
  }

  function ComparedSet(source: seq<TableRow>, target: seq<TableRow>, ignored: set<string>, keyFields: seq<string>): set<string> {
    set f | f in Columns(source) + Columns(target) && f !in ignored && f !in keyFields
  }

  /** The key fields given, in order, without the client. */
  ghost predicate WithoutClient(keyFields: seq<string>, keys: seq<string>, at: seq<nat>) {
    && |keys| == |at| && Increasing(at)
    && (forall k: nat :: k in at <==> k < |keyFields| && keyFields[k] != "MANDT")
    && forall i :: 0 <= i < |at| ==> at[i] < |keyFields| && keys[i] == keyFields[at[i]]
  }

  ghost predicate IsIgnored(upper: string -> string, ignoreFields: seq<string>, f: string) {
    f == "MANDT" || exists g :: g in ignoreFields && f == upper(g)
  }

  /** A column of either table that is neither ignored nor a key. */
  ghost predicate IsCompared(source: seq<TableRow>, target: seq<TableRow>, ignored: seq<string>, keys: seq<string>, f: string) {
    f !in ignored && f !in keys && exists row :: (row in source || row in target) && f in row
  }

  ghost predicate Ascending(fields: seq<string>) {
    forall i, j :: 0 <= i < j < |fields| ==> Alphabetical(fields[i], fields[j])
  }

  lemma ListsAscending(fields: seq<string>, s: set<string>)
    requires Lists(fields, s)
    ensures Ascending(fields)
  {
    forall i, j | 0 <= i < j < |fields| ensures Alphabetical(fields[i], fields[j]) {
      LessExactly(fields[i], fields[j]);
    }
  }

  lemma {:induction false} WithoutClientExactly(keyFields: seq<string>) returns (at: seq<nat>)
    ensures WithoutClient(keyFields, Filter(NotClient, keyFields), at)
  {
    if |keyFields| == 0 {
      at := [];
    } else {
      var n := |keyFields| - 1;
      at := WithoutClientExactly(keyFields[..n]);
      assert keyFields == keyFields[..n] + [keyFields[n]];
      FilterAppend(NotClient, keyFields[..n], [keyFields[n]]);
      assert Filter(NotClient, [keyFields[n]]) == if keyFields[n] != "MANDT" then [keyFields[n]] else [];
      ClientSnoc(keyFields, Filter(NotClient, keyFields[..n]), at);
      at := if keyFields[n] != "MANDT" then at + [n] else at;
    }
  }

  lemma ClientSnoc(keyFields: seq<string>, keys: seq<string>, at: seq<nat>)
    requires |keyFields| > 0 && WithoutClient(keyFields[..|keyFields| - 1], keys, at)
    ensures var n := |keyFields| - 1;
            if keyFields[n] != "MANDT" then WithoutClient(keyFields, keys + [keyFields[n]], at + [n]) else WithoutClient(keyFields, keys + [], at)
  {
    var n := |keyFields| - 1;
    assert keys + [] == keys && forall k: nat :: k in at + [n] <==> k in at || k == n;
  }

  /** The result says of every row and every column what there is to say. */
  ghost predicate Reports(c: Comparison, source: seq<TableRow>, target: seq<TableRow>, keyFields: seq<string>, ignoreFields: seq<string>,
                          maxDifferences: Option<int>, upper: string -> string)
  {
    var plan := Plan(c.keyFields, c.comparedFields, match maxDifferences case Some(n) => n case None => 200);
    && (exists at :: WithoutClient(keyFields, c.keyFields, at))
    && Ascending(c.comparedFields) && (forall f :: f in c.comparedFields <==> IsCompared(source, target, c.ignoredFields, c.keyFields, f))
    && Ascending(c.ignoredFields) && (forall f :: f in c.ignoredFields <==> IsIgnored(upper, ignoreFields, f))
    && c.sourceRows == |source| && c.targetRows == |target|
    && (exists alone, differing ::
          ScanReport(plan, source, target, Scan(c.identical, c.onlyInSource, c.different), alone, differing))
    && (exists at :: KeysOfAlone(target, source, c.keyFields, c.onlyInTarget, at))
  }

  method CompareTableRows(source: seq<TableRow>, target: seq<TableRow>, keyFields: seq<string>, ignoreFields: seq<string>,
                          maxDifferences: Option<int>, upper: string -> string)
    returns (r: Result<Comparison, CompareError>)
    ensures Filter(NotClient, keyFields) == [] ==> r == Failure(NoKeyFields)
    ensures Filter(NotClient, keyFields) != [] ==>
              && r.Success?
              && var c := r.value;
                 var keys := Filter(NotClient, keyFields);
                 var plan := Plan(keys, c.comparedFields, if maxDifferences.Some? then maxDifferences.value else DEFAULT_MAX_DIFFERENCES);
                 && c.keyFields == keys
                 && Lists(c.comparedFields, ComparedSet(source, target, Ignored(upper, ignoreFields), keys))
                 && Lists(c.ignoredFields, Ignored(upper, ignoreFields))
                 && c.sourceRows == |source| && c.targetRows == |target|
                 && Scan(c.identical, c.onlyInSource, c.different) == ScanSource(plan, source, target)
                 && c.onlyInTarget == OnlyIn(target, KeysOf(source, keys), keys)
                 && Reports(c, source, target, keyFields, ignoreFields, maxDifferences, upper)
  {
    var keys := Filter(NotClient, keyFields);
    if keys == [] {
      return Failure(NoKeyFields);
    }
    var ignored := Ignored(upper, ignoreFields);
    var comparedFields := SortedList(ComparedSet(source, target, ignored, keys));
    var ignoredFields := SortedList(ignored);
    var plan := Plan(keys, comparedFields, if maxDifferences.Some? then maxDifferences.value else DEFAULT_MAX_DIFFERENCES);
    var targetByKey := IndexTarget(target, keys);
    var scan, seen := ScanAll(plan, source, target, targetByKey);
    hide Reports;
    var onlyInTarget := [];
    var i := 0;
    while i < |target|
      invariant 0 <= i <= |target|
      invariant onlyInTarget == OnlyIn(target[..i], seen, keys)
    {
      assert target[..i + 1][..i] == target[..i];
      if RowKey(target[i], keys) !in seen {
        onlyInTarget := onlyInTarget + [KeyObject(target[i], keys)];
      }
      i := i + 1;
    }
    assert target[..|target|] == target;
    var c := Comparison(keys, comparedFields, ignoredFields, |source|, |target|, scan.identical, scan.onlyInSource, onlyInTarget, scan.different);
    ComparisonReports(c, source, target, keyFields, ignoreFields, maxDifferences, upper);
    r := Success(c);
  }

  lemma ComparisonReports(c: Comparison, source: seq<TableRow>, target: seq<TableRow>, keyFields: seq<string>, ignoreFields: seq<string>,
                          maxDifferences: Option<int>, upper: string -> string)
    requires c.keyFields == Filter(NotClient, keyFields) && c.sourceRows == |source| && c.targetRows == |target|
    requires Lists(c.comparedFields, ComparedSet(source, target, Ignored(upper, ignoreFields), c.keyFields))
    requires Lists(c.ignoredFields, Ignored(upper, ignoreFields))
    requires var plan := Plan(c.keyFields, c.comparedFields, if maxDifferences.Some? then maxDifferences.value else DEFAULT_MAX_DIFFERENCES);
             Scan(c.identical, c.onlyInSource, c.different) == ScanSource(plan, source, target)
    requires c.onlyInTarget == OnlyIn(target, KeysOf(source, c.keyFields), c.keyFields)
    ensures Reports(c, source, target, keyFields, ignoreFields, maxDifferences, upper)
  {
    var plan := Plan(c.keyFields, c.comparedFields, match maxDifferences case Some(n) => n case None => 200);
    ColumnsExactly(c, source, target, ignoreFields, upper);
    hide ScanReport, KeysOfAlone, WithoutClient, Ascending, IsIgnored, IsCompared, Lists, ScanSource, OnlyIn, ComparedSet, Ignored, Filter;
    var at := WithoutClientExactly(keyFields);
    var alone, differing := ScanExactly(plan, source, target);
    var only := OnlyInExactly(target, source, c.keyFields);
  }

  lemma ColumnsExactly(c: Comparison, source: seq<TableRow>, target: seq<TableRow>, ignoreFields: seq<string>, upper: string -> string)
    requires Lists(c.comparedFields, ComparedSet(source, target, Ignored(upper, ignoreFields), c.keyFields))
    requires Lists(c.ignoredFields, Ignored(upper, ignoreFields))
    ensures Ascending(c.comparedFields) && forall f :: f in c.comparedFields <==> IsCompared(source, target, c.ignoredFields, c.keyFields, f)
    ensures Ascending(c.ignoredFields) && forall f :: f in c.ignoredFields <==> IsIgnored(upper, ignoreFields, f)
  {
    ListsAscending(c.comparedFields, ComparedSet(source, target, Ignored(upper, ignoreFields), c.keyFields));
    ListsAscending(c.ignoredFields, Ignored(upper, ignoreFields));
    hide Ascending;
    forall f ensures f in c.ignoredFields <==> IsIgnored(upper, ignoreFields, f) {
    }
    forall f ensures f in c.comparedFields <==> IsCompared(source, target, c.ignoredFields, c.keyFields, f) {
    }
  }

  method IndexTarget(target: seq<TableRow>, keys: seq<string>) returns (targetByKey: map<string, TableRow>)
    ensures forall key :: (if key in targetByKey then Some(targetByKey[key]) else None) == LastMatch(target, keys, key)
  {
    targetByKey := map[];
    var i := 0;
    while i < |target|
      invariant 0 <= i <= |target|
      invariant forall key :: (if key in targetByKey then Some(targetByKey[key]) else None) == LastMatch(target[..i], keys, key)
    {
      assert target[..i + 1][..i] == target[..i];
      targetByKey := targetByKey[RowKey(target[i], keys) := target[i]];
      i := i + 1;
    }
    assert target[..|target|] == target;
  }

  method ScanAll(plan: Plan, source: seq<TableRow>, ghost target: seq<TableRow>, targetByKey: map<string, TableRow>)
    returns (scan: Scan, seen: set<string>)
    requires forall key :: (if key in targetByKey then Some(targetByKey[key]) else None) == LastMatch(target, plan.keyFields, key)
    ensures scan == ScanSource(plan, source, target) && seen == KeysOf(source, plan.keyFields)
  {
    scan, seen := Scan(0, [], []), {};
    assert scan == ScanSource(plan, source[..0], target);
    NoKeys(plan.keyFields);
    hide ScanRow, KeysOf, LastMatch, RowKey, ScanSource;
    var i := 0;
    while i < |source|
      invariant 0 <= i <= |source|
      invariant scan == ScanSource(plan, source[..i], target)
      invariant seen == KeysOf(source[..i], plan.keyFields)
    {
      var row := source[i];
      ScanStep(plan, source, target, i);
      var key := RowKey(row, plan.keyFields);
      seen := seen + {key};
      assert LastMatch(target, plan.keyFields, key) == if key in targetByKey then Some(targetByKey[key]) else None;
      scan := ScanOne(plan, scan, row, if key in targetByKey then Some(targetByKey[key]) else None);
      i := i + 1;
    }
    assert source[..|source|] == source;
  }

  lemma ScanStep(plan: Plan, source: seq<TableRow>, target: seq<TableRow>, i: nat)
    requires i < |source|
    ensures ScanSource(plan, source[..i + 1], target) ==
              ScanRow(plan, ScanSource(plan, source[..i], target), source[i], LastMatch(target, plan.keyFields, RowKey(source[i], plan.keyFields)))
    ensures KeysOf(source[..i + 1], plan.keyFields) == KeysOf(source[..i], plan.keyFields) + {RowKey(source[i], plan.keyFields)}
  {
    hide ScanRow, LastMatch, RowKey;
    assert source[..i + 1][..i] == source[..i];
    KeysOfSnoc(source[..i], source[i], plan.keyFields);
    assert source[..i + 1] == source[..i] + [source[i]];
  }

  lemma NoKeys(keyFields: seq<string>)
    ensures KeysOf([], keyFields) == {}
  {
  }

  /** The body of the source loop. */
  method ScanOne(plan: Plan, before: Scan, row: TableRow, match_: Option<TableRow>) returns (scan: Scan)
    ensures scan == ScanRow(plan, before, row, match_)
  {
    scan := before;
    if match_.None? {
      scan := scan.(onlyInSource := scan.onlyInSource + [KeyObject(row, plan.keyFields)]);
      return;
    }
    var fields := CompareFields(row, match_.value, plan.fields);
    if |fields| == 0 {
      scan := scan.(identical := scan.identical + 1);
    } else if |scan.different| < plan.maxDifferences {
      scan := scan.(different := scan.different + [RowDifference(KeyObject(row, plan.keyFields), fields)]);
    } else {
      scan := scan.(different := scan.different + [RowDifference(KeyObject(row, plan.keyFields), [])]);
    }
  }

  method CompareFields(row: TableRow, other: TableRow, comparedFields: seq<string>) returns (fields: seq<FieldDifference>)
    ensures fields == FieldDifferences(row, other, comparedFields) && RecordsAll(row, other, comparedFields, fields)
  {
    FieldDifferencesExactly(row, other, comparedFields);
    fields := [];
    var i := 0;
    while i < |comparedFields|
      invariant 0 <= i <= |comparedFields|
      invariant fields == FieldDifferences(row, other, comparedFields[..i])
    {
      assert comparedFields[..i + 1][..i] == comparedFields[..i];
      var field := comparedFields[i];
      var a, b := Value(row, field), Value(other, field);
      if a != b {
        fields := fields + [FieldDifference(field, a, b)];
      }
      i := i + 1;
    }
    assert comparedFields[..|comparedFields|] == comparedFields;
  }

  lemma KeysOfSnoc(rows: seq<TableRow>, row: TableRow, keyFields: seq<string>)
    ensures KeysOf(rows + [row], keyFields) == KeysOf(rows, keyFields) + {RowKey(row, keyFields)}
  {
    forall k ensures k in KeysOf(rows + [row], keyFields) <==> k in KeysOf(rows, keyFields) + {RowKey(row, keyFields)} {
      if k in KeysOf(rows, keyFields) {
        var r :| r in rows && RowKey(r, keyFields) == k;
        assert r in rows + [row];
      }
      assert row in rows + [row];
    }
  }
}
