/** Comparing and sorting, as `<` on strings and `Array.prototype.sort` do it. */
module Order {
  import opened Sequences

  /** `a < b` on strings: the first differing character decides, a proper prefix comes first. */
  predicate Less(a: string, b: string) {
    |b| != 0 && (|a| == 0 || a[0] < b[0] || (a[0] == b[0] && Less(a[1..], b[1..])))
  }

  lemma {:induction false} LessTrichotomy(a: string, b: string)
    ensures a == b ==> !Less(a, b)
    ensures a != b ==> Less(a, b) != Less(b, a)
  {
    if |a| != 0 && |b| != 0 && a[0] == b[0] {
      assert a == [a[0]] + a[1..] && b == [b[0]] + b[1..];
      LessTrichotomy(a[1..], b[1..]);
    }
  }

  lemma {:induction false} LessTransitive(a: string, b: string, c: string)
    requires Less(a, b) && Less(b, c)
    ensures Less(a, c)
  {
    if |a| != 0 && a[0] == b[0] && b[0] == c[0] {
      LessTransitive(a[1..], b[1..], c[1..]);
    }
  }

  /** Up to position k the strings are the same; there a ends, or has the smaller character. */
  ghost predicate Alphabetical(a: string, b: string) {
    exists k: nat :: k <= |a| && k < |b| && a[..k] == b[..k] && (k == |a| || a[k] < b[k])
  }

  lemma {:induction false} LessExactly(a: string, b: string)
    ensures Less(a, b) <==> Alphabetical(a, b)
  {
    if |a| > 0 && |b| > 0 && a[0] == b[0] {
      LessExactly(a[1..], b[1..]);
      if k: nat :| k <= |a[1..]| && k < |b[1..]| && a[1..][..k] == b[1..][..k] && (k == |a[1..]| || a[1..][k] < b[1..][k]) {
        assert a[..k + 1] == [a[0]] + a[1..][..k] && b[..k + 1] == [b[0]] + b[1..][..k];
      }
      if k: nat :| k <= |a| && k < |b| && a[..k] == b[..k] && (k == |a| || a[k] < b[k]) {
        assert a[1..][..k - 1] == a[..k][1..] && b[1..][..k - 1] == b[..k][1..];
      }
    } else if |b| > 0 {
      assert a[..0] == b[..0];
      assert forall k: nat :: 0 < k <= |a| && k < |b| ==> a[..k][0] == a[0] && b[..k][0] == b[0];
    }
  }

  /** What `sort` needs of a comparator to have a defined outcome. */
  ghost predicate TotalPreorder<T(!new)>(le: (T, T) -> bool) {
    && (forall x, y :: le(x, y) || le(y, x))
    && (forall x, y, z :: le(x, y) && le(y, z) ==> le(x, z))
  }

  ghost predicate Sorted<T>(le: (T, T) -> bool, xs: seq<T>) {
    forall i, j :: 0 <= i < j < |xs| ==> le(xs[i], xs[j])
  }

  predicate Tied<T>(le: (T, T) -> bool, x: T, y: T) {
    le(x, y) && le(y, x)
  }

  /** The elements of xs tied with k, in order. */
  function Ties<T>(le: (T, T) -> bool, k: T, xs: seq<T>): seq<T> {
    Filter(TiedTo(le, k), xs)
  }

  function TiedTo<T>(le: (T, T) -> bool, k: T): T -> bool {
    y => Tied(le, k, y)
  }

  function Insert<T>(le: (T, T) -> bool, x: T, xs: seq<T>): seq<T> {
    if |xs| == 0 || le(x, xs[0]) then [x] + xs else [xs[0]] + Insert(le, x, xs[1..])
  }

  /** `xs.sort(cmp)` with le(x, y) meaning cmp(x, y) <= 0: sorted and stable. */
  function Sort<T>(le: (T, T) -> bool, xs: seq<T>): seq<T> {
    if |xs| == 0 then [] else Insert(le, xs[0], Sort(le, xs[1..]))
  }

  lemma {:induction false} InsertKeepsElements<T>(le: (T, T) -> bool, x: T, xs: seq<T>)
    ensures multiset(Insert(le, x, xs)) == multiset(xs) + multiset{x}
  {
    if !(|xs| == 0 || le(x, xs[0])) {
      InsertKeepsElements(le, x, xs[1..]);
      assert xs == [xs[0]] + xs[1..];
    }
  }

  lemma {:induction false} InsertKeepsSorted<T(!new)>(le: (T, T) -> bool, x: T, xs: seq<T>)
    requires TotalPreorder(le) && Sorted(le, xs)
    ensures Sorted(le, Insert(le, x, xs))
  {
    if |xs| == 0 || le(x, xs[0]) {
      var ys := [x] + xs;
      forall i, j | 0 <= i < j < |ys| ensures le(ys[i], ys[j]) {
        if i == 0 && j > 1 {
          assert le(xs[0], xs[j - 1]);
        }
      }
    } else {
      var zs := Insert(le, x, xs[1..]);
      InsertKeepsSorted(le, x, xs[1..]);
      InsertKeepsElements(le, x, xs[1..]);
      forall j | 0 <= j < |zs| ensures le(xs[0], zs[j]) {
        assert zs[j] in multiset(zs);
        assert zs[j] == x || zs[j] in xs[1..];
      }
    }
  }

  /** Sorting yields a sorted permutation. */
  lemma {:induction false} SortSorts<T(!new)>(le: (T, T) -> bool, xs: seq<T>)
    requires TotalPreorder(le)
    ensures Sorted(le, Sort(le, xs))
    ensures multiset(Sort(le, xs)) == multiset(xs)
  {
    if |xs| != 0 {
      SortSorts(le, xs[1..]);
      InsertKeepsSorted(le, xs[0], Sort(le, xs[1..]));
      InsertKeepsElements(le, xs[0], Sort(le, xs[1..]));
      assert xs == [xs[0]] + xs[1..];
    }
  }

  lemma SortMembers<T(!new)>(le: (T, T) -> bool, xs: seq<T>)
    requires TotalPreorder(le)
    ensures forall x :: x in Sort(le, xs) <==> x in xs
  {
    SortSorts(le, xs);
    hide Sort, TotalPreorder, Sorted;
    assert forall x :: x in Sort(le, xs) <==> x in multiset(Sort(le, xs));
    assert forall x :: x in xs <==> x in multiset(xs);
  }

  lemma {:induction false} InsertStable<T(!new)>(le: (T, T) -> bool, k: T, x: T, xs: seq<T>)
    requires TotalPreorder(le) && Sorted(le, xs)
    ensures Ties(le, k, Insert(le, x, xs)) == Ties(le, k, [x] + xs)
  {
    var p := TiedTo(le, k);
    if !(|xs| == 0 || le(x, xs[0])) {
      InsertStable(le, k, x, xs[1..]);
      assert Insert(le, x, xs) == [xs[0]] + Insert(le, x, xs[1..]);
      FilterAppend(p, [xs[0]], Insert(le, x, xs[1..]));
      FilterAppend(p, [x], xs[1..]);
      FilterAppend(p, [x], xs);
      FilterAppend(p, [xs[0]], xs[1..]);
      assert xs == [xs[0]] + xs[1..];
      assert !(p(x) && p(xs[0]));
    }
  }

  /** Sorting is stable: elements tied with k keep their relative order. */
  lemma {:induction false} SortStable<T(!new)>(le: (T, T) -> bool, k: T, xs: seq<T>)
    requires TotalPreorder(le)
    ensures Ties(le, k, Sort(le, xs)) == Ties(le, k, xs)
  {
    if |xs| != 0 {
      var p := TiedTo(le, k);
      SortSorts(le, xs[1..]);
      SortStable(le, k, xs[1..]);
      InsertStable(le, k, xs[0], Sort(le, xs[1..]));
      FilterAppend(p, [xs[0]], Sort(le, xs[1..]));
      FilterAppend(p, [xs[0]], xs[1..]);
      assert xs == [xs[0]] + xs[1..];
    }
  }

  /** A sorted sequence is determined by its runs of tied elements. */
  lemma {:induction false} SortedByRuns<T(!new)>(le: (T, T) -> bool, a: seq<T>, b: seq<T>)
    requires TotalPreorder(le) && Sorted(le, a) && Sorted(le, b)
    requires forall k: T :: Ties(le, k, a) == Ties(le, k, b)
    ensures a == b
  {
    if |a| == 0 || |b| == 0 {
      if a != b {
        OwnTie(le, if |a| == 0 then b else a);
      }
    } else {
      SameHead(le, a, b);
      forall k: T ensures Ties(le, k, a[1..]) == Ties(le, k, b[1..]) {
        assert Ties(le, k, a) == Ties(le, k, b);
        TiesUnfold(le, k, a);
        TiesUnfold(le, k, b);
      }
      SortedByRuns(le, a[1..], b[1..]);
      assert a == [a[0]] + a[1..] && b == [b[0]] + b[1..];
    }
  }

  lemma OwnTie<T(!new)>(le: (T, T) -> bool, xs: seq<T>)
    requires TotalPreorder(le) && |xs| != 0
    ensures exists k :: Ties(le, k, xs) != []
  {
    TiesUnfold(le, xs[0], xs);
  }

  lemma SameHead<T(!new)>(le: (T, T) -> bool, a: seq<T>, b: seq<T>)
    requires TotalPreorder(le) && Sorted(le, a) && Sorted(le, b)
    requires |a| != 0 && |b| != 0
    requires forall k: T :: Ties(le, k, a) == Ties(le, k, b)
    ensures a[0] == b[0]
  {
    assert TiedTo(le, a[0])(a[0]) && TiedTo(le, b[0])(b[0]);
    assert Ties(le, a[0], a) == Ties(le, a[0], b) && Ties(le, b[0], a) == Ties(le, b[0], b);
    assert a[0] in Ties(le, a[0], b) && b[0] in Ties(le, b[0], a);
    FilterMembers(TiedTo(le, a[0]), b);
    FilterMembers(TiedTo(le, b[0]), a);
    AtLeastHead(le, a, b[0]);
    AtLeastHead(le, b, a[0]);
    TiesUnfold(le, a[0], a);
    TiesUnfold(le, a[0], b);
  }

  lemma TiesUnfold<T>(le: (T, T) -> bool, k: T, xs: seq<T>)
    requires |xs| != 0
    ensures Tied(le, k, xs[0]) ==>
              Ties(le, k, xs) != [] && Ties(le, k, xs)[0] == xs[0] && Ties(le, k, xs)[1..] == Ties(le, k, xs[1..])
    ensures !Tied(le, k, xs[0]) ==> Ties(le, k, xs) == Ties(le, k, xs[1..])
  {
  }

  lemma AtLeastHead<T(!new)>(le: (T, T) -> bool, xs: seq<T>, x: T)
    requires le(x, x) && Sorted(le, xs) && x in xs
    ensures le(xs[0], x)
  {
  }

  /** Sorting a list with no two tied elements depends only on its elements. */
  lemma SortOfPermutation<T(!new)>(le: (T, T) -> bool, a: seq<T>, b: seq<T>)
    requires TotalPreorder(le)
    requires multiset(a) == multiset(b)
    requires forall x, y :: x in a && y in a && Tied(le, x, y) ==> x == y
    ensures Sort(le, a) == Sort(le, b)
  {
    SortSorts(le, a);
    SortSorts(le, b);
    assert forall x :: x in Sort(le, a) ==> x in multiset(a);
    SortedUnique(le, Sort(le, a), Sort(le, b));
  }

  lemma {:induction false} SortedUnique<T(!new)>(le: (T, T) -> bool, a: seq<T>, b: seq<T>)
    requires Sorted(le, a) && Sorted(le, b) && multiset(a) == multiset(b)
    requires forall x :: x in a ==> le(x, x)
    requires forall x, y :: x in a && y in a && Tied(le, x, y) ==> x == y
    ensures a == b
  {
    assert |multiset(a)| == |a| && |multiset(b)| == |b|;
    if |a| != 0 {
      assert a[0] in multiset(b) && b[0] in multiset(a);
      AtLeastHead(le, a, b[0]);
      AtLeastHead(le, b, a[0]);
      assert Tied(le, a[0], b[0]) && b[0] in a;
      MultisetTail(a);
      MultisetTail(b);
      SortedUnique(le, a[1..], b[1..]);
    }
  }

  lemma MultisetTail<T>(xs: seq<T>)
    requires |xs| != 0
    ensures multiset(xs[1..]) == multiset(xs) - multiset{xs[0]}
  {
    assert xs == [xs[0]] + xs[1..];
  }
}
