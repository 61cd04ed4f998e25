/** Collecting a list through a set of keys already seen, then sorting it: what package enumeration and the reading of
    function groups (src/lib/search-source) have in common. */
module Deduplication {
  import opened Sequences
  import opened Order

  ghost function Keys<T>(key: T -> string, xs: seq<T>): set<string> {
    set x | x in xs :: key(x)
  }

  /** The first element of every key. */
  ghost function FirstOfKeys<T>(key: T -> string, xs: seq<T>): seq<T> {
    if |xs| == 0 then []
    else
      var before, last := xs[..|xs| - 1], xs[|xs| - 1];
      FirstOfKeys(key, before) + if key(last) in Keys(key, before) then [] else [last]
  }

  ghost predicate KeysTellApart<T>(key: T -> string, xs: seq<T>) {
    forall a, b :: a in xs && b in xs && key(a) == key(b) ==> a == b
  }

  /** The variables of a collecting loop that has been through xs. */
  ghost predicate Scanned<T>(key: T -> string, xs: seq<T>, seen: set<string>, out: seq<T>) {
    out == FirstOfKeys(key, xs) && seen == Keys(key, xs)
  }

  lemma ScannedOne<T>(key: T -> string, xs: seq<T>, seen: set<string>, out: seq<T>, x: T)
    requires Scanned(key, xs, seen, out)
    ensures Scanned(key, xs + [x], seen + {key(x)}, if key(x) in seen then out else out + [x])
  {
    KeysSnoc(key, xs, x);
    FirstSnoc(key, xs, x);
  }

  lemma KeysSnoc<T>(key: T -> string, xs: seq<T>, x: T)
    ensures Keys(key, xs + [x]) == Keys(key, xs) + {key(x)}
  {
    assert forall y :: y in xs + [x] <==> y in xs || y == x;
  }

  lemma FirstSnoc<T>(key: T -> string, xs: seq<T>, x: T)
    ensures FirstOfKeys(key, xs + [x]) == FirstOfKeys(key, xs) + if key(x) in Keys(key, xs) then [] else [x]
  {
    var more := xs + [x];
    assert more[..|more| - 1] == xs && more[|more| - 1] == x;
  }

  /** Among the first elements of the keys, each key occurs, and occurs once. */
  lemma {:induction false} FirstOfEachKey<T>(key: T -> string, xs: seq<T>)
    ensures forall x :: x in FirstOfKeys(key, xs) ==> x in xs
    ensures Keys(key, FirstOfKeys(key, xs)) == Keys(key, xs)
    ensures NoDuplicates(FirstOfKeys(key, xs)) && KeysTellApart(key, FirstOfKeys(key, xs))
  {
    if |xs| > 0 {
      var before, last := xs[..|xs| - 1], xs[|xs| - 1];
      assert xs == before + [last];
      FirstOfEachKey(key, before);
      hide FirstOfKeys, NoDuplicates, KeysTellApart, Keys;
      FirstSnoc(key, before, last);
      assert FirstOfKeys(key, before) + [] == FirstOfKeys(key, before);
      KeysSnoc(key, before, last);
      KeysSnoc(key, FirstOfKeys(key, before), last);
      if key(last) !in Keys(key, before) {
        AddNewKey(key, FirstOfKeys(key, before), last);
      } else {
        assert Keys(key, before) + {key(last)} == Keys(key, before);
      }
    }
  }

  lemma AddNewKey<T>(key: T -> string, first: seq<T>, x: T)
    requires NoDuplicates(first) && KeysTellApart(key, first) && key(x) !in Keys(key, first)
    ensures NoDuplicates(first + [x]) && KeysTellApart(key, first + [x])
  {
    assert forall y :: y in first ==> key(y) in Keys(key, first);
  }

  /** Nothing but repetitions is dropped if and only if no two different elements have one key. */
  lemma KeepsExactly<T>(key: T -> string, xs: seq<T>)
    ensures (forall x :: x in xs ==> x in FirstOfKeys(key, xs)) <==> KeysTellApart(key, xs)
  {
    hide FirstOfKeys;
    var first := FirstOfKeys(key, xs);
    FirstOfEachKey(key, xs);
    if KeysTellApart(key, xs) {
      forall x | x in xs ensures x in first {
        assert key(x) in Keys(key, xs);
        var y :| y in first && key(y) == key(x);
        assert y in xs;
      }
    }
  }

  /** What the collected list is after sorting. */
  lemma SortedFirsts<T(!new)>(le: (T, T) -> bool, key: T -> string, xs: seq<T>)
    requires TotalPreorder(le)
    ensures var r := Sort(le, FirstOfKeys(key, xs));
            && Sorted(le, r) && NoDuplicates(r)
            && (forall x :: x in r ==> x in xs)
            && (forall x :: x in xs ==> exists y :: y in r && key(y) == key(x))
            && ((forall x :: x in xs ==> x in r) <==> KeysTellApart(key, xs))
  {
    var first, r := FirstOfKeys(key, xs), Sort(le, FirstOfKeys(key, xs));
    SortSorts(le, first);
    FirstOfEachKey(key, xs);
    KeepsExactly(key, xs);
    hide FirstOfKeys, Sort, KeysTellApart, TotalPreorder, Sorted;
    SameElements(first, r);
    DistinctPermuted(first, r);
    forall x | x in xs ensures exists y :: y in r && key(y) == key(x) {
      assert key(x) in Keys(key, first);
      var y :| y in first && key(y) == key(x);
      assert y in r;
    }
  }

  /** The sorted list is the set of what was collected if and only if no two different elements have one key. */
  lemma SortedKeepsExactly<T(!new)>(le: (T, T) -> bool, key: T -> string, xs: seq<T>)
    requires TotalPreorder(le)
    ensures (forall x :: x in Sort(le, FirstOfKeys(key, xs)) <==> x in xs) <==> KeysTellApart(key, xs)
  {
    hide FirstOfKeys, Sort, KeysTellApart, TotalPreorder, Sorted, NoDuplicates;
    SortedFirsts(le, key, xs);
  }

  lemma SameElements<T>(a: seq<T>, b: seq<T>)
    requires multiset(a) == multiset(b)
    ensures forall x :: x in a <==> x in b
  {
    assert forall x :: x in a <==> x in multiset(a);
    assert forall x :: x in b <==> x in multiset(b);
  }

  lemma DistinctPermuted<T>(a: seq<T>, b: seq<T>)
    requires multiset(a) == multiset(b) && NoDuplicates(a)
    ensures NoDuplicates(b)
  {
    DistinctCounts(a);
    forall i, j | 0 <= i < j < |b| ensures b[i] != b[j] {
      CountTwice(b, i, j);
    }
  }

  lemma CountTwice<T>(xs: seq<T>, i: nat, j: nat)
    requires i < j < |xs|
    ensures xs[i] == xs[j] ==> multiset(xs)[xs[j]] >= 2
  {
    assert xs == xs[..j] + [xs[j]] + xs[j + 1..];
    assert xs[i] == xs[..j][i] && xs[i] in multiset(xs[..j]);
  }

  lemma {:induction false} DistinctCounts<T>(xs: seq<T>)
    requires NoDuplicates(xs)
    ensures forall x :: x in xs ==> multiset(xs)[x] == 1
  {
    if |xs| > 0 {
      DistinctCounts(xs[1..]);
      assert xs == [xs[0]] + xs[1..];
      assert xs[0] !in xs[1..];
    }
  }

  /** Two texts without the separator that start one text and are followed by it are the same. */
  lemma FirstWord(separator: char, a: string, b: string, x: string, y: string)
    requires separator !in a && separator !in b && a + [separator] + x == b + [separator] + y
    ensures a == b && x == y
  {
    var s := a + [separator] + x;
    assert s[|a|] == separator && s[|b|] == separator;
    assert forall i :: 0 <= i < |a| ==> s[i] == a[i];
    assert forall i :: 0 <= i < |b| ==> s[i] == b[i];
    assert |a| == |b|;
    assert a == s[..|a|] && b == s[..|b|];
    assert x == s[|a| + 1..] && y == s[|b| + 1..];
  }
}
