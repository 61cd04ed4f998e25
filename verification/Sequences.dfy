/** Sequence vocabulary shared by the models: the JavaScript list operations that the source uses,
    with the laws the proofs need. */
module Sequences {

  datatype Option<+T> = None | Some(value: T)

  datatype Result<+T, +E> = Success(value: T) | Failure(error: E)

  /** `slice(0, max(0, n))`. */
  function Take<T>(xs: seq<T>, n: int): seq<T> {
    if n <= 0 then [] else if n < |xs| then xs[..n] else xs
  }

  /** `[...].flat()`. */
  function Flatten<T>(xss: seq<seq<T>>): seq<T> {
    if |xss| == 0 then [] else xss[0] + Flatten(xss[1..])
  }

  /** `xs.filter(p)`. */
  function Filter<T>(p: T -> bool, xs: seq<T>): seq<T> {
    if |xs| == 0 then [] else (if p(xs[0]) then [xs[0]] else []) + Filter(p, xs[1..])
  }

  /** `xs.map(f)`. */
  function Map<T, U>(f: T -> U, xs: seq<T>): (ys: seq<U>)
    ensures |ys| == |xs|
    ensures forall i :: 0 <= i < |xs| ==> ys[i] == f(xs[i])
  {
    if |xs| == 0 then [] else [f(xs[0])] + Map(f, xs[1..])
  }

  function Sum(ns: seq<nat>): nat {
    if |ns| == 0 then 0 else ns[0] + Sum(ns[1..])
  }

  ghost predicate NoDuplicates<T>(xs: seq<T>) {
    forall i, j :: 0 <= i < j < |xs| ==> xs[i] != xs[j]
  }

  /** `order` lists every index below n exactly once. */
  ghost predicate Permutation(order: seq<nat>, n: nat) {
    && NoDuplicates(order)
    && (forall k :: 0 <= k < |order| ==> order[k] < n)
    && (forall i :: 0 <= i < n ==> i in order)
  }

  /** The parts named by `order`, in that order. */
  function Pick<T>(parts: seq<T>, order: seq<nat>): seq<T>
    requires forall k :: 0 <= k < |order| ==> order[k] < |parts|
  {
    seq(|order|, k requires 0 <= k < |order| => parts[order[k]])
  }

  lemma PickSnoc<T>(parts: seq<T>, order: seq<nat>)
    requires |order| > 0 && forall k :: 0 <= k < |order| ==> order[k] < |parts|
    ensures Pick(parts, order) == Pick(parts, order[..|order| - 1]) + [parts[order[|order| - 1]]]
  {
  }

  function Upto(n: nat): (order: seq<nat>)
    ensures |order| == n && forall k :: 0 <= k < n ==> order[k] == k
  {
    seq(n, k => k)
  }

  lemma {:induction false} FlattenAppend<T>(a: seq<seq<T>>, b: seq<seq<T>>)
    ensures Flatten(a + b) == Flatten(a) + Flatten(b)
  {
    if |a| == 0 {
      assert a + b == b;
    } else {
      assert (a + b)[1..] == a[1..] + b;
      calc {
        Flatten(a + b);
        a[0] + Flatten(a[1..] + b);
        { FlattenAppend(a[1..], b); }
        a[0] + (Flatten(a[1..]) + Flatten(b));
        (a[0] + Flatten(a[1..])) + Flatten(b);
      }
    }
  }

  lemma SplitAt<T>(xs: seq<T>, k: nat)
    requires k < |xs|
    ensures xs == xs[..k] + ([xs[k]] + xs[k + 1..])
  {
  }

  lemma Associate<T>(a: seq<T>, b: seq<T>, c: seq<T>)
    ensures (a + b) + c == a + (b + c)
  {
  }

  lemma FlattenCons<T>(xs: seq<T>, xss: seq<seq<T>>)
    ensures Flatten([xs] + xss) == xs + Flatten(xss)
  {
    assert ([xs] + xss)[1..] == xss;
  }

  lemma FlattenSnoc<T>(xss: seq<seq<T>>, xs: seq<T>)
    ensures Flatten(xss + [xs]) == Flatten(xss) + xs
  {
    FlattenAppend(xss, [xs]);
    assert Flatten([xs]) == xs + Flatten([]);
  }

  lemma FlattenPrefix<T>(xss: seq<seq<T>>, n: nat)
    requires n <= |xss|
    ensures Flatten(xss[..n]) <= Flatten(xss)
  {
    assert xss == xss[..n] + xss[n..];
    FlattenAppend(xss[..n], xss[n..]);
  }

  lemma FlattenStep<T>(xss: seq<seq<T>>, n: nat)
    requires n < |xss|
    ensures Flatten(xss[..n + 1]) == Flatten(xss[..n]) + xss[n]
  {
    assert xss[..n + 1] == xss[..n] + [xss[n]];
    FlattenSnoc(xss[..n], xss[n]);
  }

  lemma {:induction false} FilterAppend<T>(p: T -> bool, a: seq<T>, b: seq<T>)
    ensures Filter(p, a + b) == Filter(p, a) + Filter(p, b)
  {
    if |a| == 0 {
      assert a + b == b;
    } else {
      var head := if p(a[0]) then [a[0]] else [];
      assert (a + b)[1..] == a[1..] + b;
      calc {
        Filter(p, a + b);
        head + Filter(p, a[1..] + b);
        { FilterAppend(p, a[1..], b); }
        head + (Filter(p, a[1..]) + Filter(p, b));
        (head + Filter(p, a[1..])) + Filter(p, b);
      }
    }
  }

  lemma {:induction false} FilterFlatten<T>(p: T -> bool, xss: seq<seq<T>>)
    ensures Filter(p, Flatten(xss)) == Flatten(Map(xs => Filter(p, xs), xss))
  {
    if |xss| != 0 {
      FilterAppend(p, xss[0], Flatten(xss[1..]));
      FilterFlatten(p, xss[1..]);
      assert Map(xs => Filter(p, xs), xss)[1..] == Map(xs => Filter(p, xs), xss[1..]);
    }
  }

  lemma {:induction false} FilterMembers<T>(p: T -> bool, xs: seq<T>)
    ensures forall x :: x in Filter(p, xs) <==> x in xs && p(x)
  {
    if |xs| != 0 {
      FilterMembers(p, xs[1..]);
      assert xs == [xs[0]] + xs[1..];
    }
  }

  lemma {:induction false} FlattenMembers<T>(xss: seq<seq<T>>, x: T)
    ensures x in Flatten(xss) <==> exists i :: 0 <= i < |xss| && x in xss[i]
  {
    if |xss| != 0 {
      FlattenMembers(xss[1..], x);
      if x in Flatten(xss[1..]) {
        var i :| 0 <= i < |xss[1..]| && x in xss[1..][i];
        assert x in xss[i + 1];
      }
      if i :| 0 <= i < |xss| && x in xss[i] {
        if i > 0 {
          assert x in xss[1..][i - 1];
        }
      }
    }
  }

  lemma {:induction false} FlattenAllEmpty<T>(xss: seq<seq<T>>)
    requires forall i :: 0 <= i < |xss| ==> xss[i] == []
    ensures Flatten(xss) == []
  {
    if |xss| != 0 {
      FlattenAllEmpty(xss[1..]);
    }
  }

  /** When only part k is non-empty, flattening yields that part. */
  lemma FlattenOnly<T>(xss: seq<seq<T>>, k: nat)
    requires k < |xss|
    requires forall i :: 0 <= i < |xss| && i != k ==> xss[i] == []
    ensures Flatten(xss) == xss[k]
  {
    assert xss == xss[..k] + ([xss[k]] + xss[k + 1..]);
    FlattenAppend(xss[..k], [xss[k]] + xss[k + 1..]);
    FlattenAllEmpty(xss[..k]);
    FlattenAllEmpty(xss[k + 1..]);
  }

  /** Filling in one part that was empty adds exactly its elements. */
  lemma FlattenFill<T>(xss: seq<seq<T>>, k: nat, xs: seq<T>)
    requires k < |xss| && xss[k] == []
    ensures multiset(Flatten(xss[k := xs])) == multiset(Flatten(xss)) + multiset(xs)
  {
    var rest := xss[k + 1..];
    assert xss == xss[..k] + ([xss[k]] + rest);
    assert xss[k := xs] == xss[..k] + ([xs] + rest);
    FlattenAppend(xss[..k], [xss[k]] + rest);
    FlattenAppend(xss[..k], [xs] + rest);
    assert Flatten([xs] + rest) == xs + Flatten(rest) by {
      assert ([xs] + rest)[1..] == rest;
    }
    assert Flatten([xss[k]] + rest) == Flatten(rest) by {
      assert ([xss[k]] + rest)[1..] == rest;
    }
  }

  /** The parts outside `order` blanked out. */
  function Masked<T>(parts: seq<seq<T>>, order: seq<nat>): seq<seq<T>> {
    seq(|parts|, i requires 0 <= i < |parts| => if i in order then parts[i] else [])
  }

  /** Concatenating parts in any order, without repetition, gives the same elements. */
  lemma {:induction false} ReorderedFlatten<T>(parts: seq<seq<T>>, order: seq<nat>)
    requires NoDuplicates(order) && forall k :: 0 <= k < |order| ==> order[k] < |parts|
    ensures multiset(Flatten(Pick(parts, order))) == multiset(Flatten(Masked(parts, order)))
  {
    if |order| == 0 {
      FlattenAllEmpty(Masked(parts, order));
    } else {
      var rest, i := order[..|order| - 1], order[|order| - 1];
      assert order == rest + [i] && i !in rest;
      ReorderedFlatten(parts, rest);
      assert Pick(parts, order) == Pick(parts, rest) + [parts[i]];
      FlattenSnoc(Pick(parts, rest), parts[i]);
      assert Masked(parts, order) == Masked(parts, rest)[i := parts[i]];
      FlattenFill(Masked(parts, rest), i, parts[i]);
    }
  }

  lemma PermutedFlatten<T>(parts: seq<seq<T>>, order: seq<nat>)
    requires Permutation(order, |parts|)
    ensures multiset(Flatten(Pick(parts, order))) == multiset(Flatten(parts))
  {
    ReorderedFlatten(parts, order);
    assert Masked(parts, order) == parts;
  }

  /** Parts that are prefixes of other parts are those parts if the totals are equally long. */
  lemma {:induction false} FlattenSameLength<T>(small: seq<seq<T>>, big: seq<seq<T>>)
    requires |small| == |big|
    requires forall i :: 0 <= i < |big| ==> small[i] <= big[i]
    ensures |Flatten(small)| <= |Flatten(big)|
    ensures |Flatten(small)| == |Flatten(big)| ==> small == big
  {
    if |small| != 0 {
      FlattenSameLength(small[1..], big[1..]);
      if |Flatten(small)| == |Flatten(big)| {
        assert |small[0]| == |big[0]| && small[0] == big[0][..|small[0]|] == big[0];
        assert small[1..] == big[1..];
        assert small == [small[0]] + small[1..] && big == [big[0]] + big[1..];
      }
    }
  }

  lemma {:induction false} SumUpdate(ns: seq<nat>, k: nat, v: nat)
    requires k < |ns|
    ensures Sum(ns[k := v]) == Sum(ns) - ns[k] + v
  {
    if k == 0 {
      assert ns[0 := v][1..] == ns[1..];
    } else {
      SumUpdate(ns[1..], k - 1, v);
      assert ns[k := v][1..] == ns[1..][k - 1 := v];
    }
  }

  lemma {:induction false} SumZeros(ns: seq<nat>)
    requires forall i :: 0 <= i < |ns| ==> ns[i] == 0
    ensures Sum(ns) == 0
  {
    if |ns| != 0 {
      SumZeros(ns[1..]);
    }
  }
}
