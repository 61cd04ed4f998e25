/** What a table comparison guarantees: conservation, symmetry, and what a clean result means. */
module TableLaws {
  import opened Sequences
  import opened RowKeys
  import opened TableCompare

  ghost predicate UniqueKeys(rows: seq<TableRow>, keyFields: seq<string>) {
    forall i, j :: 0 <= i < j < |rows| ==> RowKey(rows[i], keyFields) != RowKey(rows[j], keyFields)
  }

  ghost predicate Agree(a: TableRow, b: TableRow, fields: seq<string>) {
    forall f :: f in fields ==> Value(a, f) == Value(b, f)
  }

  lemma AgreeSnoc(a: TableRow, b: TableRow, fields: seq<string>)
    requires |fields| != 0
    ensures var n := |fields| - 1;
            Agree(a, b, fields) <==> Agree(a, b, fields[..n]) && Value(a, fields[n]) == Value(b, fields[n])
  {
    hide Value;
    var n := |fields| - 1;
    assert forall f :: f in fields <==> f in fields[..n] || f == fields[n];
  }

  lemma {:induction false} NoDifferencesMeansAgree(a: TableRow, b: TableRow, fields: seq<string>)
    ensures FieldDifferences(a, b, fields) == [] <==> Agree(a, b, fields)
  {
    if |fields| != 0 {
      NoDifferencesMeansAgree(a, b, fields[..|fields| - 1]);
      AgreeSnoc(a, b, fields);
      hide Value, Agree;
      assert |FieldDifferences(a, b, fields)| == |FieldDifferences(a, b, fields[..|fields| - 1])|
        + if Value(a, fields[|fields| - 1]) != Value(b, fields[|fields| - 1]) then 1 else 0;
    }
  }

  lemma {:induction false} LastMatchIs(rows: seq<TableRow>, keyFields: seq<string>, key: string)
    ensures LastMatch(rows, keyFields, key).Some? <==> key in KeysOf(rows, keyFields)
    ensures var m := LastMatch(rows, keyFields, key);
            m.Some? ==> m.value in rows && RowKey(m.value, keyFields) == key
    ensures UniqueKeys(rows, keyFields) ==>
              forall r :: r in rows && RowKey(r, keyFields) == key ==> LastMatch(rows, keyFields, key) == Some(r)
  {
    hide RowKey;
    if |rows| != 0 {
      var n := |rows| - 1;
      LastMatchIs(rows[..n], keyFields, key);
      assert rows == rows[..n] + [rows[n]];
      KeysOfSnoc(rows[..n], rows[n], keyFields);
      if UniqueKeys(rows, keyFields) {
        forall r | r in rows && RowKey(r, keyFields) == key ensures LastMatch(rows, keyFields, key) == Some(r) {
          var i :| 0 <= i < |rows| && rows[i] == r;
          assert i == n || rows[..n][i] == r;
        }
      }
    } else {
      NoKeys(keyFields);
    }
  }

  // ---------- Conservation ----------

  function HasKeyIn(keys: set<string>, keyFields: seq<string>): TableRow -> bool {
    (row: TableRow) => RowKey(row, keyFields) in keys
  }

  /** Every source row is counted exactly once. */
  lemma {:induction false} SourceConservation(plan: Plan, source: seq<TableRow>, target: seq<TableRow>)
    ensures var scan := ScanSource(plan, source, target);
            && |source| == scan.identical + |scan.different| + |scan.onlyInSource|
            && scan.identical + |scan.different| == |Filter(HasKeyIn(KeysOf(target, plan.keyFields), plan.keyFields), source)|
  {
    hide RowKey, KeysOf, FieldDifferences, LastMatch;
    if |source| != 0 {
      var n := |source| - 1;
      var p := HasKeyIn(KeysOf(target, plan.keyFields), plan.keyFields);
      SourceConservation(plan, source[..n], target);
      LastMatchIs(target, plan.keyFields, RowKey(source[n], plan.keyFields));
      assert source == source[..n] + [source[n]];
      FilterAppend(p, source[..n], [source[n]]);
    }
  }

  lemma {:induction false} OnlyInCount(rows: seq<TableRow>, seen: set<string>, keyFields: seq<string>)
    ensures |rows| == |OnlyIn(rows, seen, keyFields)| + |Filter(HasKeyIn(seen, keyFields), rows)|
  {
    hide RowKey;
    if |rows| != 0 {
      var n := |rows| - 1;
      OnlyInCount(rows[..n], seen, keyFields);
      assert rows == rows[..n] + [rows[n]];
      FilterAppend(HasKeyIn(seen, keyFields), rows[..n], [rows[n]]);
    }
  }

  /** The target side adds up exactly when as many source rows find a partner as target rows do. */
  lemma TargetConservation(plan: Plan, source: seq<TableRow>, target: seq<TableRow>)
    ensures var scan, keys := ScanSource(plan, source, target), plan.keyFields;
            |target| == scan.identical + |scan.different| + |OnlyIn(target, KeysOf(source, keys), keys)|
            <==> |Filter(HasKeyIn(KeysOf(target, keys), keys), source)| == |Filter(HasKeyIn(KeysOf(source, keys), keys), target)|
  {
    SourceConservation(plan, source, target);
    OnlyInCount(target, KeysOf(source, plan.keyFields), plan.keyFields);
  }

  function KeysWhere(p: TableRow -> bool, rows: seq<TableRow>, keyFields: seq<string>): set<string> {
    set r | r in rows && p(r) :: RowKey(r, keyFields)
  }

  lemma KeysWhereSnoc(p: TableRow -> bool, rows: seq<TableRow>, row: TableRow, keyFields: seq<string>)
    ensures KeysWhere(p, rows + [row], keyFields) == KeysWhere(p, rows, keyFields) + if p(row) then {RowKey(row, keyFields)} else {}
  {
    hide RowKey;
    assert forall r :: r in rows + [row] <==> r in rows || r == row;
  }

  lemma UniqueKeyIsNew(p: TableRow -> bool, rows: seq<TableRow>, row: TableRow, keyFields: seq<string>)
    requires UniqueKeys(rows + [row], keyFields)
    ensures UniqueKeys(rows, keyFields) && RowKey(row, keyFields) !in KeysWhere(p, rows, keyFields)
  {
    hide RowKey;
    var all, n := rows + [row], |rows|;
    assert all[n] == row && forall i :: 0 <= i < n ==> all[i] == rows[i];
    forall r | r in rows ensures RowKey(r, keyFields) != RowKey(row, keyFields) {
      var i :| 0 <= i < n && rows[i] == r;
      assert RowKey(all[i], keyFields) != RowKey(all[n], keyFields);
    }
  }

  /** With unique keys, the rows with a property are as many as their keys. */
  lemma {:induction false} CountByKeys(p: TableRow -> bool, rows: seq<TableRow>, keyFields: seq<string>)
    requires UniqueKeys(rows, keyFields)
    ensures |Filter(p, rows)| == |KeysWhere(p, rows, keyFields)|
  {
    if |rows| == 0 {
      assert KeysWhere(p, rows, keyFields) == {};
    } else {
      var row, front := rows[|rows| - 1], rows[..|rows| - 1];
      assert rows == front + [row];
      UniqueKeyIsNew(p, front, row, keyFields);
      KeysWhereSnoc(p, front, row, keyFields);
      CountByKeys(p, front, keyFields);
      FilterAppend(p, front, [row]);
      hide RowKey, KeysWhere, UniqueKeys;
      assert Filter(p, [row]) == if p(row) then [row] else [];
    }
  }

  lemma UniqueKeysBalance(source: seq<TableRow>, target: seq<TableRow>, keys: seq<string>)
    requires UniqueKeys(source, keys) && UniqueKeys(target, keys)
    ensures |Filter(HasKeyIn(KeysOf(target, keys), keys), source)| == |Filter(HasKeyIn(KeysOf(source, keys), keys), target)|
  {
    hide RowKey;
    var p, q := HasKeyIn(KeysOf(target, keys), keys), HasKeyIn(KeysOf(source, keys), keys);
    CountByKeys(p, source, keys);
    CountByKeys(q, target, keys);
    assert KeysWhere(p, source, keys) == KeysOf(source, keys) * KeysOf(target, keys);
    assert KeysWhere(q, target, keys) == KeysOf(source, keys) * KeysOf(target, keys);
  }

  /** With a repeated key in the target the earlier row is shadowed: it is neither compared nor listed. */
  lemma ShadowedTargetRow()
    ensures var keys, row := ["K"], map["K" := "1"];
            var target := [row["A" := "y"], row["A" := "x"]];
            var scan := ScanSource(Plan(keys, ["A"], 200), [row["A" := "x"]], target);
            && scan == Scan(1, [], []) && OnlyIn(target, KeysOf([row["A" := "x"]], keys), keys) == []
            && |target| != scan.identical + |scan.different| + 0
  {
    var keys, row := ["K"], map["K" := "1"];
    var x, y := row["A" := "x"], row["A" := "y"];
    var target, source := [y, x], [x];
    RowKeyInjective(x, y, keys);
    assert target[..1] == [y] && source[..0] == [] && source[0] == x;
    assert LastMatch(target, keys, RowKey(x, keys)) == Some(x);
    NoDifferencesMeansAgree(x, x, ["A"]);
    assert x in source;
    assert RowKey(x, keys) in KeysOf(source, keys);
    assert OnlyIn([y], KeysOf(source, keys), keys) == [] by {
      assert [y][..0] == [];
    }
  }

  // ---------- A clean result ----------

  ghost predicate Clean(scan: Scan, onlyInTarget: seq<map<string, string>>) {
    scan.onlyInSource == [] && scan.different == [] && onlyInTarget == []
  }

  ghost predicate RowClean(plan: Plan, target: seq<TableRow>, s: TableRow) {
    var m := LastMatch(target, plan.keyFields, RowKey(s, plan.keyFields));
    m.Some? && Agree(s, m.value, plan.fields)
  }

  lemma {:induction false} CleanScan(plan: Plan, source: seq<TableRow>, target: seq<TableRow>)
    ensures (ScanSource(plan, source, target).onlyInSource == [] && ScanSource(plan, source, target).different == [])
            <==> forall s :: s in source ==> RowClean(plan, target, s)
  {
    hide RowKey, FieldDifferences, LastMatch, Agree;
    if |source| != 0 {
      var n := |source| - 1;
      CleanScan(plan, source[..n], target);
      assert forall s :: s in source <==> s in source[..n] || s == source[n];
      var m := LastMatch(target, plan.keyFields, RowKey(source[n], plan.keyFields));
      if m.Some? {
        NoDifferencesMeansAgree(source[n], m.value, plan.fields);
      }
      var before, after := ScanSource(plan, source[..n], target), ScanSource(plan, source, target);
      assert |after.onlyInSource| + |after.different| == |before.onlyInSource| + |before.different|
               + if RowClean(plan, target, source[n]) then 0 else 1;
      hide RowClean;
    }
  }

  lemma {:induction false} OnlyInEmpty(rows: seq<TableRow>, seen: set<string>, keyFields: seq<string>)
    ensures OnlyIn(rows, seen, keyFields) == [] <==> forall r :: r in rows ==> RowKey(r, keyFields) in seen
  {
    hide RowKey;
    if |rows| != 0 {
      var n := |rows| - 1;
      OnlyInEmpty(rows[..n], seen, keyFields);
      assert |OnlyIn(rows, seen, keyFields)| == |OnlyIn(rows[..n], seen, keyFields)| + if RowKey(rows[n], keyFields) in seen then 0 else 1;
      assert forall r :: r in rows <==> r in rows[..n] || r == rows[n];
    }
  }

  /** The rows agree on every column of either table that is neither ignored nor a key. */
  ghost predicate AgreeOnColumns(a: TableRow, b: TableRow, source: seq<TableRow>, target: seq<TableRow>, ignored: set<string>, keyFields: seq<string>) {
    forall f :: f in Columns(source) + Columns(target) && f !in ignored && f !in keyFields ==> Value(a, f) == Value(b, f)
  }

  /** With unique target keys, nothing is reported exactly when the two tables have the same keys
      and partners agree on every compared column. The cap on detailed differences plays no part. */
  lemma CleanMeansEqual(plan: Plan, source: seq<TableRow>, target: seq<TableRow>, ignored: set<string>)
    requires UniqueKeys(target, plan.keyFields)
    requires Lists(plan.fields, ComparedSet(source, target, ignored, plan.keyFields))
    ensures Clean(ScanSource(plan, source, target), OnlyIn(target, KeysOf(source, plan.keyFields), plan.keyFields))
            <==>
            && (forall s :: s in source ==>
                  exists t :: t in target && SameKey(s, t, plan.keyFields) && AgreeOnColumns(s, t, source, target, ignored, plan.keyFields))
            && (forall t :: t in target ==> exists s :: s in source && SameKey(s, t, plan.keyFields))
  {
    var keys := plan.keyFields;
    CleanScan(plan, source, target);
    OnlyInEmpty(target, KeysOf(source, keys), keys);
    forall a, b ensures Agree(a, b, plan.fields) <==> AgreeOnColumns(a, b, source, target, ignored, keys) {
    }
    hide RowKey, Agree, AgreeOnColumns, SameKey, LastMatch, FieldDifferences;
    forall a, b ensures RowKey(a, keys) == RowKey(b, keys) <==> SameKey(a, b, keys) {
      RowKeyInjective(a, b, keys);
    }
    forall s | s in source
      ensures RowClean(plan, target, s)
              <==> exists t :: t in target && SameKey(s, t, keys) && AgreeOnColumns(s, t, source, target, ignored, keys)
    {
      LastMatchIs(target, keys, RowKey(s, keys));
    }
    forall t | t in target ensures RowKey(t, keys) in KeysOf(source, keys) <==> exists s :: s in source && SameKey(s, t, keys) {
    }
  }

  /** The tables have the same keys, and any two partners agree on every compared column. */
  ghost predicate TablesEqual(source: seq<TableRow>, target: seq<TableRow>, ignored: set<string>, keys: seq<string>) {
    && (forall s :: s in source ==> exists t :: t in target && SameKey(s, t, keys))
    && (forall t :: t in target ==> exists s :: s in source && SameKey(s, t, keys))
    && (forall s, t :: s in source && t in target && SameKey(s, t, keys) ==> AgreeOnColumns(s, t, source, target, ignored, keys))
  }

  /** Every target row agrees with the last row of its key, which is the one that is compared. */
  ghost predicate ShadowsAgree(plan: Plan, target: seq<TableRow>) {
    forall t :: t in target ==>
                  var m := LastMatch(target, plan.keyFields, RowKey(t, plan.keyFields)); m.Some? ==> Agree(t, m.value, plan.fields)
  }

  /** For any two tables, with repeated keys or without: they are equal, row by row, if and only if nothing is reported and no
      target row differs from a later one of its key. So a clean result means equal tables exactly if no row is shadowed by
      a different one. */
  lemma CleanExactly(plan: Plan, source: seq<TableRow>, target: seq<TableRow>, ignored: set<string>)
    requires Lists(plan.fields, ComparedSet(source, target, ignored, plan.keyFields))
    ensures TablesEqual(source, target, ignored, plan.keyFields)
            <==> Clean(ScanSource(plan, source, target), OnlyIn(target, KeysOf(source, plan.keyFields), plan.keyFields))
                 && ShadowsAgree(plan, target)
  {
    var keys := plan.keyFields;
    CleanScan(plan, source, target);
    OnlyInEmpty(target, KeysOf(source, keys), keys);
    hide RowKey, Agree, AgreeOnColumns, SameKey, LastMatch, FieldDifferences, ScanSource, OnlyIn, Lists, ComparedSet, RowClean, KeysOf;
    if TablesEqual(source, target, ignored, keys) {
      forall s | s in source ensures RowClean(plan, target, s) {
        var t :| t in target && SameKey(s, t, keys);
        EqualRow(plan, source, target, ignored, s, t);
      }
      forall t | t in target
        ensures RowKey(t, keys) in KeysOf(source, keys)
        ensures var m := LastMatch(target, keys, RowKey(t, keys)); m.Some? ==> Agree(t, m.value, plan.fields)
      {
        var s :| s in source && SameKey(s, t, keys);
        EqualTargetRow(plan, source, target, ignored, s, t);
      }
    } else if (forall s :: s in source ==> RowClean(plan, target, s)) && (forall t :: t in target ==> RowKey(t, keys) in KeysOf(source, keys))
              && ShadowsAgree(plan, target) {
      CleanIsEqual(plan, source, target, ignored);
    }
  }

  /** Agreement and equality of keys, as the comparison computes them. */
  lemma ComparesKeysAndColumns(plan: Plan, source: seq<TableRow>, target: seq<TableRow>, ignored: set<string>, a: TableRow, b: TableRow)
    requires Lists(plan.fields, ComparedSet(source, target, ignored, plan.keyFields))
    ensures Agree(a, b, plan.fields) <==> AgreeOnColumns(a, b, source, target, ignored, plan.keyFields)
    ensures RowKey(a, plan.keyFields) == RowKey(b, plan.keyFields) <==> SameKey(a, b, plan.keyFields)
  {
    RowKeyInjective(a, b, plan.keyFields);
  }

  lemma EqualRow(plan: Plan, source: seq<TableRow>, target: seq<TableRow>, ignored: set<string>, s: TableRow, t: TableRow)
    requires Lists(plan.fields, ComparedSet(source, target, ignored, plan.keyFields))
    requires t in target && SameKey(s, t, plan.keyFields)
    requires forall u :: u in target && SameKey(s, u, plan.keyFields) ==> AgreeOnColumns(s, u, source, target, ignored, plan.keyFields)
    ensures RowClean(plan, target, s)
  {
    hide RowKey, Agree, AgreeOnColumns, SameKey, LastMatch, Lists, ComparedSet;
    LastMatchIs(target, plan.keyFields, RowKey(s, plan.keyFields));
    ComparesKeysAndColumns(plan, source, target, ignored, s, t);
    var m := LastMatch(target, plan.keyFields, RowKey(s, plan.keyFields));
    ComparesKeysAndColumns(plan, source, target, ignored, s, m.value);
  }

  lemma EqualTargetRow(plan: Plan, source: seq<TableRow>, target: seq<TableRow>, ignored: set<string>, s: TableRow, t: TableRow)
    requires Lists(plan.fields, ComparedSet(source, target, ignored, plan.keyFields))
    requires s in source && t in target && SameKey(s, t, plan.keyFields)
    requires forall u :: u in target && SameKey(s, u, plan.keyFields) ==> AgreeOnColumns(s, u, source, target, ignored, plan.keyFields)
    ensures RowKey(t, plan.keyFields) in KeysOf(source, plan.keyFields)
    ensures var m := LastMatch(target, plan.keyFields, RowKey(t, plan.keyFields)); m.Some? ==> Agree(t, m.value, plan.fields)
  {
    hide RowKey, Agree, AgreeOnColumns, SameKey, LastMatch, Lists, ComparedSet;
    LastMatchIs(target, plan.keyFields, RowKey(t, plan.keyFields));
    ComparesKeysAndColumns(plan, source, target, ignored, s, t);
    var m := LastMatch(target, plan.keyFields, RowKey(t, plan.keyFields));
    if m.Some? {
      ComparesKeysAndColumns(plan, source, target, ignored, s, m.value);
      AgreeTriangle(s, t, m.value, plan.fields);
    }
  }

  lemma AgreeTriangle(s: TableRow, a: TableRow, b: TableRow, fields: seq<string>)
    ensures Agree(s, a, fields) && Agree(s, b, fields) ==> Agree(a, b, fields)
    ensures Agree(s, b, fields) && Agree(a, b, fields) ==> Agree(s, a, fields)
  {
  }

  lemma CleanIsEqual(plan: Plan, source: seq<TableRow>, target: seq<TableRow>, ignored: set<string>)
    requires Lists(plan.fields, ComparedSet(source, target, ignored, plan.keyFields))
    requires forall s :: s in source ==> RowClean(plan, target, s)
    requires forall t :: t in target ==> RowKey(t, plan.keyFields) in KeysOf(source, plan.keyFields)
    requires ShadowsAgree(plan, target)
    ensures TablesEqual(source, target, ignored, plan.keyFields)
  {
    hide RowKey, Agree, AgreeOnColumns, SameKey, LastMatch, Lists, ComparedSet, RowClean, ShadowsAgree, KeysOf;
    var keys := plan.keyFields;
    forall s | s in source ensures exists t :: t in target && SameKey(s, t, keys) {
      var t := CleanPartner(plan, source, target, ignored, s);
    }
    forall t | t in target ensures exists s :: s in source && SameKey(s, t, keys) {
      var s := KeyPartner(plan, source, target, ignored, t);
    }
    forall s, t | s in source && t in target && SameKey(s, t, keys) ensures AgreeOnColumns(s, t, source, target, ignored, keys) {
      CleanPair(plan, source, target, ignored, s, t);
    }
  }

  lemma KeyPartner(plan: Plan, source: seq<TableRow>, target: seq<TableRow>, ignored: set<string>, t: TableRow) returns (s: TableRow)
    requires Lists(plan.fields, ComparedSet(source, target, ignored, plan.keyFields))
    requires RowKey(t, plan.keyFields) in KeysOf(source, plan.keyFields)
    ensures s in source && SameKey(s, t, plan.keyFields)
  {
    hide RowKey, Agree, AgreeOnColumns, SameKey, LastMatch, Lists, ComparedSet;
    s :| s in source && RowKey(s, plan.keyFields) == RowKey(t, plan.keyFields);
    ComparesKeysAndColumns(plan, source, target, ignored, s, t);
  }

  lemma CleanPartner(plan: Plan, source: seq<TableRow>, target: seq<TableRow>, ignored: set<string>, s: TableRow) returns (t: TableRow)
    requires Lists(plan.fields, ComparedSet(source, target, ignored, plan.keyFields)) && RowClean(plan, target, s)
    ensures t in target && SameKey(s, t, plan.keyFields)
  {
    hide RowKey, Agree, AgreeOnColumns, SameKey, LastMatch, Lists, ComparedSet;
    LastMatchIs(target, plan.keyFields, RowKey(s, plan.keyFields));
    t := LastMatch(target, plan.keyFields, RowKey(s, plan.keyFields)).value;
    ComparesKeysAndColumns(plan, source, target, ignored, s, t);
  }

  lemma CleanPair(plan: Plan, source: seq<TableRow>, target: seq<TableRow>, ignored: set<string>, s: TableRow, t: TableRow)
    requires Lists(plan.fields, ComparedSet(source, target, ignored, plan.keyFields)) && RowClean(plan, target, s)
    requires ShadowsAgree(plan, target) && t in target && SameKey(s, t, plan.keyFields)
    ensures AgreeOnColumns(s, t, source, target, ignored, plan.keyFields)
  {
    hide RowKey, Agree, AgreeOnColumns, SameKey, LastMatch, Lists, ComparedSet;
    ComparesKeysAndColumns(plan, source, target, ignored, s, t);
    var m := LastMatch(target, plan.keyFields, RowKey(s, plan.keyFields));
    AgreeTriangle(s, t, m.value, plan.fields);
  }

  // ---------- Swapping the sides ----------

  /** The one-sided rows of a comparison are the other comparison's, in the same order. */
  lemma {:induction false} OneSidedSwap(plan: Plan, source: seq<TableRow>, target: seq<TableRow>)
    ensures ScanSource(plan, source, target).onlyInSource == OnlyIn(source, KeysOf(target, plan.keyFields), plan.keyFields)
  {
    hide RowKey, KeysOf, FieldDifferences, LastMatch;
    if |source| != 0 {
      OneSidedSwap(plan, source[..|source| - 1], target);
      LastMatchIs(target, plan.keyFields, RowKey(source[|source| - 1], plan.keyFields));
    }
  }

  ghost function IsClean(plan: Plan, target: seq<TableRow>): TableRow -> bool {
    (row: TableRow) => RowClean(plan, target, row)
  }

  lemma {:induction false} IdenticalCount(plan: Plan, source: seq<TableRow>, target: seq<TableRow>)
    ensures ScanSource(plan, source, target).identical == |Filter(IsClean(plan, target), source)|
  {
    hide RowKey, FieldDifferences, LastMatch, Agree;
    if |source| != 0 {
      var n := |source| - 1;
      IdenticalCount(plan, source[..n], target);
      assert source == source[..n] + [source[n]];
      FilterAppend(IsClean(plan, target), source[..n], [source[n]]);
      var m := LastMatch(target, plan.keyFields, RowKey(source[n], plan.keyFields));
      if m.Some? {
        NoDifferencesMeansAgree(source[n], m.value, plan.fields);
      }
    }
  }

  /** Two rows are partners when they carry the same key. */
  ghost predicate Partners(plan: Plan, s: TableRow, t: TableRow) {
    RowKey(s, plan.keyFields) == RowKey(t, plan.keyFields)
  }

  lemma RowCleanIs(plan: Plan, target: seq<TableRow>, s: TableRow)
    requires UniqueKeys(target, plan.keyFields)
    ensures RowClean(plan, target, s) <==> exists t :: t in target && Partners(plan, s, t) && Agree(s, t, plan.fields)
  {
    hide RowKey;
    LastMatchIs(target, plan.keyFields, RowKey(s, plan.keyFields));
  }

  lemma CleanKeysWithin(plan: Plan, source: seq<TableRow>, target: seq<TableRow>)
    requires UniqueKeys(source, plan.keyFields) && UniqueKeys(target, plan.keyFields)
    ensures KeysWhere(IsClean(plan, target), source, plan.keyFields) <= KeysWhere(IsClean(plan, source), target, plan.keyFields)
  {
    hide RowKey, RowClean;
    forall k | k in KeysWhere(IsClean(plan, target), source, plan.keyFields)
      ensures k in KeysWhere(IsClean(plan, source), target, plan.keyFields)
    {
      var s :| s in source && IsClean(plan, target)(s) && RowKey(s, plan.keyFields) == k;
      RowCleanIs(plan, target, s);
      var t :| t in target && Partners(plan, s, t) && Agree(s, t, plan.fields);
      assert s in source && Partners(plan, t, s) && Agree(t, s, plan.fields);
      RowCleanIs(plan, source, t);
      assert IsClean(plan, source)(t);
    }
  }

  /** The three counts of a comparison survive the swap. */
  lemma CountsSwap(plan: Plan, source: seq<TableRow>, target: seq<TableRow>)
    requires UniqueKeys(source, plan.keyFields) && UniqueKeys(target, plan.keyFields)
    ensures ScanSource(plan, source, target).identical == ScanSource(plan, target, source).identical
    ensures |ScanSource(plan, source, target).different| == |ScanSource(plan, target, source).different|
  {
    hide RowKey, KeysWhere, KeysOf, ScanSource, UniqueKeys, Filter;
    IdenticalCount(plan, source, target);
    IdenticalCount(plan, target, source);
    CountByKeys(IsClean(plan, target), source, plan.keyFields);
    CountByKeys(IsClean(plan, source), target, plan.keyFields);
    CleanKeysWithin(plan, source, target);
    CleanKeysWithin(plan, target, source);
    assert KeysWhere(IsClean(plan, target), source, plan.keyFields) == KeysWhere(IsClean(plan, source), target, plan.keyFields);
    SourceConservation(plan, source, target);
    SourceConservation(plan, target, source);
    UniqueKeysBalance(source, target, plan.keyFields);
  }

  /** Source and target exchanged. */
  function MirrorFields(fields: seq<FieldDifference>): seq<FieldDifference> {
    Map((d: FieldDifference) => FieldDifference(d.field, d.target, d.source), fields)
  }

  function Mirror(d: RowDifference): RowDifference {
    RowDifference(d.key, MirrorFields(d.fields))
  }

  lemma {:induction false} FieldsMirror(a: TableRow, b: TableRow, fields: seq<string>)
    ensures FieldDifferences(b, a, fields) == MirrorFields(FieldDifferences(a, b, fields))
  {
    if |fields| != 0 {
      FieldsMirror(a, b, fields[..|fields| - 1]);
    }
  }

  lemma MirrorTwice(d: RowDifference)
    ensures Mirror(Mirror(d)) == d
  {
    assert MirrorFields(MirrorFields(d.fields)) == d.fields;
  }

  function Detail(plan: Plan, s: TableRow, t: TableRow): RowDifference {
    RowDifference(KeyObject(s, plan.keyFields), FieldDifferences(s, t, plan.fields))
  }

  ghost predicate DiffersAs(plan: Plan, source: seq<TableRow>, target: seq<TableRow>, s: TableRow, t: TableRow, d: RowDifference) {
    && s in source && t in target && Partners(plan, s, t) && !Agree(s, t, plan.fields) && d == Detail(plan, s, t)
    && SaysHow(plan, s, t, d)
  }

  /** The rows have one key, which the difference gives, with each column in which they hold different texts, and both texts. */
  ghost predicate SaysHow(plan: Plan, s: TableRow, t: TableRow, d: RowDifference) {
    SameKey(s, t, plan.keyFields) && IsKey(s, plan.keyFields, d.key) && RecordsAll(s, t, plan.fields, d.fields) && d.fields != []
  }

  lemma DetailExactly(plan: Plan, s: TableRow, t: TableRow)
    requires Partners(plan, s, t) && !Agree(s, t, plan.fields)
    ensures SaysHow(plan, s, t, Detail(plan, s, t))
  {
    RowKeyInjective(s, t, plan.keyFields);
    KeyObjectExactly(s, plan.keyFields);
    FieldDifferencesExactly(s, t, plan.fields);
    NoDifferencesMeansAgree(s, t, plan.fields);
  }

  /** Below the cap the detailed differences are exactly those of the differing partners. */
  lemma {:induction false} DifferentMembers(plan: Plan, source: seq<TableRow>, target: seq<TableRow>, d: RowDifference)
    requires UniqueKeys(target, plan.keyFields) && |ScanSource(plan, source, target).different| <= plan.maxDifferences
    ensures d in ScanSource(plan, source, target).different <==> exists s, t :: DiffersAs(plan, source, target, s, t, d)
  {
    hide RowKey, FieldDifferences, LastMatch, Agree, KeyObject, SaysHow;
    if |source| != 0 {
      var n := |source| - 1;
      var row, front := source[n], source[..n];
      assert forall s :: s in source <==> s in front || s == row;
      DifferentMembers(plan, front, target, d);
      LastMatchIs(target, plan.keyFields, RowKey(row, plan.keyFields));
      var m := LastMatch(target, plan.keyFields, RowKey(row, plan.keyFields));
      if m.Some? {
        NoDifferencesMeansAgree(row, m.value, plan.fields);
        assert forall t :: t in target && Partners(plan, row, t) ==> t == m.value;
        if !Agree(row, m.value, plan.fields) {
          DetailExactly(plan, row, m.value);
          assert DiffersAs(plan, source, target, row, m.value, Detail(plan, row, m.value));
        }
      }
      if s, t :| DiffersAs(plan, front, target, s, t, d) {
        assert DiffersAs(plan, source, target, s, t, d);
      }
      if s, t :| DiffersAs(plan, source, target, s, t, d) {
        if s in front {
          assert DiffersAs(plan, front, target, s, t, d);
        }
      }
    }
  }

  lemma DetailMirrors(plan: Plan, s: TableRow, t: TableRow)
    requires Partners(plan, s, t)
    ensures Detail(plan, t, s) == Mirror(Detail(plan, s, t))
  {
    RowKeyInjective(s, t, plan.keyFields);
    SameKeyValues(s, t, plan.keyFields);
    FieldsMirror(s, t, plan.fields);
    assert KeyObject(s, plan.keyFields) == KeyObject(t, plan.keyFields);
  }

  lemma DifferenceSwapsOneWay(plan: Plan, source: seq<TableRow>, target: seq<TableRow>, d: RowDifference)
    requires UniqueKeys(source, plan.keyFields) && UniqueKeys(target, plan.keyFields)
    requires |ScanSource(plan, source, target).different| <= plan.maxDifferences
    requires d in ScanSource(plan, source, target).different
    ensures Mirror(d) in ScanSource(plan, target, source).different
  {
    hide RowKey, FieldDifferences, LastMatch, Agree, KeyObject, SaysHow;
    CountsSwap(plan, source, target);
    DifferentMembers(plan, source, target, d);
    DifferentMembers(plan, target, source, Mirror(d));
    var s, t :| DiffersAs(plan, source, target, s, t, d);
    DetailMirrors(plan, s, t);
    assert Agree(s, t, plan.fields) <==> Agree(t, s, plan.fields) by {
      AgreeSymmetric(s, t, plan.fields);
    }
    DetailExactly(plan, t, s);
    assert DiffersAs(plan, target, source, t, s, Mirror(d));
  }

  lemma AgreeSymmetric(a: TableRow, b: TableRow, fields: seq<string>)
    ensures Agree(a, b, fields) <==> Agree(b, a, fields)
  {
  }

  /** Swapping the sides mirrors every detailed difference, as long as the cap is not reached. */
  lemma DifferencesSwap(plan: Plan, source: seq<TableRow>, target: seq<TableRow>, d: RowDifference)
    requires UniqueKeys(source, plan.keyFields) && UniqueKeys(target, plan.keyFields)
    requires |ScanSource(plan, source, target).different| <= plan.maxDifferences
    ensures d in ScanSource(plan, source, target).different <==> Mirror(d) in ScanSource(plan, target, source).different
  {
    CountsSwap(plan, source, target);
    MirrorTwice(d);
    if d in ScanSource(plan, source, target).different {
      DifferenceSwapsOneWay(plan, source, target, d);
    }
    if Mirror(d) in ScanSource(plan, target, source).different {
      DifferenceSwapsOneWay(plan, target, source, Mirror(d));
    }
  }
}
