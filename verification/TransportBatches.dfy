/** Packing literals into IN-lists (src/lib/adt/transportCheck.ts, `batchByLength`). */
module TransportBatches {
  import opened Sequences

  const SQL_MAX_LENGTH := 255

  /** The characters a literal takes in an IN-list: two quotes, a comma and a blank. */
  function Cost(value: string): nat {
    |value| + 4
  }

  function Load(block: seq<string>): nat {
    if |block| == 0 then 0 else Load(block[..|block| - 1]) + Cost(block[|block| - 1])
  }

  ghost predicate Fits(block: seq<string>, fixed: int, limit: int) {
    fixed + Load(block) <= limit
  }

  /** A block that may be emitted: not empty, and either within the limit or a single literal. */
  ghost predicate Acceptable(block: seq<string>, fixed: int, limit: int) {
    |block| == 1 || (|block| > 1 && Fits(block, fixed, limit))
  }

  ghost predicate IsPacking(blocks: seq<seq<string>>, values: seq<string>, fixed: int, limit: int) {
    Flatten(blocks) == values && forall b :: b in blocks ==> Acceptable(b, fixed, limit)
  }

  // ---------- Greedy packing ----------

  /** How far the current batch extends, given that it holds the first n values. */
  function Extend(values: seq<string>, n: nat, fixed: int, limit: int): (m: nat)
    requires 0 < n <= |values|
    ensures n <= m <= |values|
    decreases |values| - n
  {
    if n < |values| && fixed + Load(values[..n]) + Cost(values[n]) <= limit then Extend(values, n + 1, fixed, limit) else n
  }

  function Greedy(values: seq<string>, fixed: int, limit: int): seq<seq<string>> {
    if |values| == 0 then [] else
    var m := Extend(values, 1, fixed, limit);
    [values[..m]] + Greedy(values[m..], fixed, limit)
  }

  lemma LoadSnoc(block: seq<string>, value: string)
    ensures Load(block + [value]) == Load(block) + Cost(value)
  {
    assert (block + [value])[..|block|] == block;
  }

  lemma {:induction false} LoadAppend(a: seq<string>, b: seq<string>)
    ensures Load(a + b) == Load(a) + Load(b)
  {
    if |b| == 0 {
      assert a + b == a;
    } else {
      LoadAppend(a, b[..|b| - 1]);
      assert a + b == (a + b[..|b| - 1]) + [b[|b| - 1]];
      LoadSnoc(a + b[..|b| - 1], b[|b| - 1]);
    }
  }

  lemma {:induction false} ExtendAcceptable(values: seq<string>, n: nat, fixed: int, limit: int)
    requires 0 < n <= |values| && Acceptable(values[..n], fixed, limit)
    ensures Acceptable(values[..Extend(values, n, fixed, limit)], fixed, limit)
    decreases |values| - n
  {
    if n < |values| && fixed + Load(values[..n]) + Cost(values[n]) <= limit {
      assert values[..n + 1] == values[..n] + [values[n]];
      LoadSnoc(values[..n], values[n]);
      ExtendAcceptable(values, n + 1, fixed, limit);
    }
  }

  /** The greedy batch is the longest acceptable prefix. */
  lemma {:induction false} ExtendLongest(values: seq<string>, n: nat, k: nat, fixed: int, limit: int)
    requires 0 < n <= |values| && k <= |values| && n <= k
    requires Acceptable(values[..k], fixed, limit)
    ensures k <= Extend(values, n, fixed, limit)
    decreases |values| - n
  {
    if n < k {
      assert values[..k] == (values[..n] + [values[n]]) + values[n + 1..k];
      LoadAppend(values[..n] + [values[n]], values[n + 1..k]);
      LoadSnoc(values[..n], values[n]);
      ExtendLongest(values, n + 1, k, fixed, limit);
    }
  }

  /** The batches give back the values in order, and each of them may be emitted. */
  lemma {:induction false} GreedyIsPacking(values: seq<string>, fixed: int, limit: int)
    ensures IsPacking(Greedy(values, fixed, limit), values, fixed, limit)
  {
    if |values| != 0 {
      var m := Extend(values, 1, fixed, limit);
      ExtendAcceptable(values, 1, fixed, limit);
      GreedyIsPacking(values[m..], fixed, limit);
      assert Greedy(values, fixed, limit)[1..] == Greedy(values[m..], fixed, limit);
      assert values == values[..m] + values[m..];
    }
  }

  /** A greedy batch that starts inside an acceptable block reaches at least to its end. */
  lemma BatchCoversBlock(first: seq<string>, rest: seq<string>, skip: nat, fixed: int, limit: int) returns (past: nat)
    requires skip < |first| && Acceptable(first, fixed, limit)
    ensures past <= |rest|
    ensures |Greedy((first + rest)[skip..], fixed, limit)| == 1 + |Greedy(rest[past..], fixed, limit)|
  {
    var values, k := (first + rest)[skip..], |first| - skip;
    var m := Extend(values, 1, fixed, limit);
    SuffixAcceptable(first, skip, fixed, limit);
    assert values[..k] == first[skip..];
    ExtendLongest(values, 1, k, fixed, limit);
    past := m - k;
    assert |Greedy(values, fixed, limit)| == 1 + |Greedy(values[m..], fixed, limit)|;
    hide Greedy, Extend, Acceptable;
    assert values[m..] == rest[past..];
  }

  lemma SuffixAcceptable(block: seq<string>, skip: nat, fixed: int, limit: int)
    requires skip < |block| && Acceptable(block, fixed, limit)
    ensures Acceptable(block[skip..], fixed, limit)
  {
    LoadAppend(block[..skip], block[skip..]);
    assert block == block[..skip] + block[skip..];
  }

  /** Starting later never takes more batches than any packing of the whole. */
  lemma {:induction false} GreedyStaysAhead(blocks: seq<seq<string>>, skip: nat, fixed: int, limit: int)
    requires skip <= |Flatten(blocks)|
    requires forall b :: b in blocks ==> Acceptable(b, fixed, limit)
    ensures |Greedy(Flatten(blocks)[skip..], fixed, limit)| <= |blocks|
  {
    hide Acceptable;
    if |blocks| != 0 {
      var first, rest := blocks[0], Flatten(blocks[1..]);
      assert forall b :: b in blocks[1..] ==> b in blocks;
      hide Flatten;
      if skip >= |first| {
        assert (first + rest)[skip..] == rest[skip - |first|..];
        GreedyStaysAhead(blocks[1..], skip - |first|, fixed, limit);
      } else {
        assert first in blocks;
        var past := BatchCoversBlock(first, rest, skip, fixed, limit);
        GreedyStaysAhead(blocks[1..], past, fixed, limit);
      }
    }
  }

  /** No packing into acceptable blocks has fewer of them. */
  lemma GreedyIsOptimal(values: seq<string>, blocks: seq<seq<string>>, fixed: int, limit: int)
    requires IsPacking(blocks, values, fixed, limit)
    ensures |Greedy(values, fixed, limit)| <= |blocks|
  {
    GreedyStaysAhead(blocks, 0, fixed, limit);
    assert values[0..] == values;
  }

  // ---------- The loop ----------

  /** The loop's invariant: the packing is what is emitted plus the packing from `start`, and the current batch,
      values[start..i], is the beginning of its first batch. */
  ghost predicate Filling(values: seq<string>, fixed: int, limit: int, batches: seq<seq<string>>, start: nat, i: nat) {
    && start <= i <= |values|
    && Greedy(values, fixed, limit) == batches + Greedy(values[start..], fixed, limit)
    && (start < i ==> Extend(values[start..], 1, fixed, limit) == Extend(values[start..], i - start, fixed, limit))
  }

  lemma BatchClosed(values: seq<string>, fixed: int, limit: int, batches: seq<seq<string>>, start: nat, i: nat)
    requires Filling(values, fixed, limit, batches, start, i) && start < i
    requires i == |values| || fixed + Load(values[start..i]) + Cost(values[i]) > limit
    ensures Filling(values, fixed, limit, batches + [values[start..i]], i, i)
  {
    var w, n := values[start..], i - start;
    assert w[..n] == values[start..i] && w[n..] == values[i..];
    assert Extend(w, n, fixed, limit) == n;
    assert Greedy(w, fixed, limit) == [values[start..i]] + Greedy(values[i..], fixed, limit);
    hide Extend, Greedy;
  }

  lemma ValueFits(values: seq<string>, fixed: int, limit: int, batches: seq<seq<string>>, start: nat, i: nat)
    requires Filling(values, fixed, limit, batches, start, i) && i < |values|
    requires start < i ==> fixed + Load(values[start..i]) + Cost(values[i]) <= limit
    ensures Filling(values, fixed, limit, batches, start, i + 1)
  {
    hide Greedy;
    if start < i {
      assert values[start..][..i - start] == values[start..i];
    }
  }

  method BatchByLength(values: seq<string>, fixedLength: int, limit: int := SQL_MAX_LENGTH) returns (batches: seq<seq<string>>)
    ensures batches == Greedy(values, fixedLength, limit)
  {
    batches := [];
    var current: seq<string> := [];
    var used := fixedLength;
    ghost var start := 0;
    assert values[0..] == values && Load([]) == 0 && Greedy([], fixedLength, limit) == [];
    hide Greedy, Load, Extend;
    var i := 0;
    while i < |values|
      invariant Filling(values, fixedLength, limit, batches, start, i)
      invariant current == values[start..i] && used == fixedLength + Load(current)
      invariant start == i ==> i == 0
    {
      var value := values[i];
      var cost := |value| + 4;
      if |current| > 0 && used + cost > limit {
        BatchClosed(values, fixedLength, limit, batches, start, i);
        batches := batches + [current];
        current := [];
        used := fixedLength;
        start := i;
      }
      ValueFits(values, fixedLength, limit, batches, start, i);
      LoadSnoc(current, value);
      current := current + [value];
      used := used + cost;
      i := i + 1;
    }
    if |current| > 0 {
      BatchClosed(values, fixedLength, limit, batches, start, i);
      batches := batches + [current];
    }
    assert values[i..] == [];
  }

  // ---------- The emitted statements ----------

  /** `values.map(v => `'${v}'`).join(', ')`. */
  function Quote(values: seq<string>): string {
    if |values| == 0 then "" else
    var last := "'" + values[|values| - 1] + "'";
    if |values| == 1 then last else Quote(values[..|values| - 1]) + ", " + last
  }

  lemma {:induction false} QuoteLength(values: seq<string>)
    requires |values| > 0
    ensures |Quote(values)| == Load(values) - 2
  {
    if |values| > 1 {
      QuoteLength(values[..|values| - 1]);
    } else {
      assert Load(values[..0]) == 0;
    }
  }

  function Statement(prefix: string, batch: seq<string>, suffix: string): string {
    prefix + Quote(batch) + suffix
  }

  /** A batch's statement is two characters inside the limit, unless the batch is one literal that cannot fit. */
  lemma StatementLength(values: seq<string>, prefix: string, suffix: string, limit: int, batch: seq<string>)
    requires batch in Greedy(values, |prefix| + |suffix|, limit)
    ensures |Statement(prefix, batch, suffix)| <= limit - 2 || (|batch| == 1 && |prefix| + |suffix| + Cost(batch[0]) > limit)
    ensures (forall v :: v in values ==> |prefix| + |suffix| + Cost(v) <= limit) ==> |Statement(prefix, batch, suffix)| <= limit - 2
  {
    var blocks := Greedy(values, |prefix| + |suffix|, limit);
    GreedyIsPacking(values, |prefix| + |suffix|, limit);
    QuoteLength(batch);
    if |batch| == 1 {
      assert Load(batch[..0]) == 0;
      FlattenMembers(blocks, batch[0]);
    }
  }
}
