/** The price sort of `app.py`: each site's listings are sorted in place by
    the cleaned price, lowest first. Python's `list.sort` is stable, and the
    key of an unknown price is infinity, so unknown prices go last and keep
    their input order among themselves. */
module PriceOrder {
  import opened Wrappers
  import opened Normalizer
  import opened Listings

  /** The strict order of sort keys: known amounts by value, every known
      amount below unknown, and unknown equal to unknown. */
  predicate Below(p: Price, q: Price) {
    match p
    case Known(x) => q.Unknown? || x < q.amount
    case Unknown => false
  }

  /** `Below` is a strict total order on keys. */
  lemma {:induction false} BelowIsStrictTotalOrder(p: Price, q: Price, o: Price)
    ensures !Below(p, p)
    ensures Below(p, q) && Below(q, o) ==> Below(p, o)
    ensures p == q || Below(p, q) || Below(q, p)
    ensures !(Below(p, q) && Below(q, p))
  {
  }

  /** `s` is in non-decreasing key order. */
  ghost predicate SortedBy<T>(s: seq<T>, key: T -> Price) {
    forall i, j :: 0 <= i < j < |s| ==> !Below(key(s[j]), key(s[i]))
  }

  /** The elements of `s` whose key is `p`, in their order in `s`. */
  function Filter<T>(s: seq<T>, key: T -> Price, p: Price): (r: seq<T>)
    ensures |r| <= |s|
    ensures forall k :: 0 <= k < |r| ==> key(r[k]) == p
  {
    if |s| == 0 then []
    else Filter(s[..|s| - 1], key, p) + (if key(s[|s| - 1]) == p then [s[|s| - 1]] else [])
  }

  lemma {:induction false} FilterAppend<T>(s: seq<T>, t: seq<T>, key: T -> Price, p: Price)
    ensures Filter(s + t, key, p) == Filter(s, key, p) + Filter(t, key, p)
    decreases |t|
  {
    if |t| == 0 {
      assert s + t == s;
    } else {
      var n := |t| - 1;
      assert (s + t)[..|s + t| - 1] == s + t[..n];
      FilterAppend(s, t[..n], key, p);
    }
  }

  lemma {:induction false} FilterSingle<T>(y: T, key: T -> Price, p: Price)
    ensures Filter([y], key, p) == if key(y) == p then [y] else []
  {
    assert [y][..0] == [];
  }

  /** Placing `last` after a sorted sequence whose keys are all at most its
      own keeps it sorted and appends it to the filter of its key. */
  lemma {:induction false} AppendLast<T>(mid: seq<T>, last: T, key: T -> Price)
    requires SortedBy(mid, key)
    requires forall i :: 0 <= i < |mid| ==> !Below(key(last), key(mid[i]))
    ensures SortedBy(mid + [last], key)
    ensures forall p :: Filter(mid + [last], key, p) == Filter(mid, key, p) + Filter([last], key, p)
  {
    var r := mid + [last];
    assert forall i :: 0 <= i < |mid| ==> r[i] == mid[i];
    forall p
      ensures Filter(r, key, p) == Filter(mid, key, p) + Filter([last], key, p)
    {
      FilterAppend(mid, [last], key, p);
    }
  }

  /** Insert `x` after every element whose key is not above its own. */
  function Insert<T>(x: T, s: seq<T>, key: T -> Price): (r: seq<T>)
    requires SortedBy(s, key)
    ensures SortedBy(r, key)
    ensures multiset(r) == multiset(s) + multiset{x}
    ensures forall p :: Filter(r, key, p) == Filter(s, key, p) + Filter([x], key, p)
    decreases |s|
  {
    if |s| == 0 then
      assert forall p :: Filter([x], key, p) == Filter([], key, p) + Filter([x], key, p);
      [x]
    else
      var n := |s| - 1;
      if Below(key(x), key(s[n])) then
        var mid := Insert(x, s[..n], key);
        InsertBeforeLast(x, s, key, mid);
        mid + [s[n]]
      else
        AppendLast(s, x, key);
        s + [x]
  }

  /** No key of `s[..|s| - 1]` with `x` added is above the last key of
      `s`, when `x`'s key is below it. */
  lemma {:induction false} KeysUpToLast<T>(x: T, s: seq<T>, key: T -> Price, mid: seq<T>)
    requires SortedBy(s, key) && |s| > 0
    requires Below(key(x), key(s[|s| - 1]))
    requires multiset(mid) == multiset(s[..|s| - 1]) + multiset{x}
    ensures forall i :: 0 <= i < |mid| ==> !Below(key(s[|s| - 1]), key(mid[i]))
  {
    var n := |s| - 1;
    forall i | 0 <= i < |mid|
      ensures !Below(key(s[n]), key(mid[i]))
    {
      assert mid[i] in multiset(mid);
      if mid[i] != x {
        assert mid[i] in s[..n];
        var j :| 0 <= j < n && s[..n][j] == mid[i];
        assert s[j] == mid[i];
      }
    }
  }

  /** The case of `Insert` where `x` goes before the last element. */
  lemma {:induction false} InsertBeforeLast<T>(x: T, s: seq<T>, key: T -> Price, mid: seq<T>)
    requires SortedBy(s, key) && |s| > 0
    requires Below(key(x), key(s[|s| - 1]))
    requires SortedBy(mid, key)
    requires multiset(mid) == multiset(s[..|s| - 1]) + multiset{x}
    requires forall p :: Filter(mid, key, p) == Filter(s[..|s| - 1], key, p) + Filter([x], key, p)
    ensures SortedBy(mid + [s[|s| - 1]], key)
    ensures multiset(mid + [s[|s| - 1]]) == multiset(s) + multiset{x}
    ensures forall p :: Filter(mid + [s[|s| - 1]], key, p) == Filter(s, key, p) + Filter([x], key, p)
  {
    var n := |s| - 1;
    KeysUpToLast(x, s, key, mid);
    AppendLast(mid, s[n], key);
    LastPutBack(s, mid, multiset{x});
    FiltersBeforeLast(s[..n], x, s[n], mid, key);
    assert s[..n] + [s[n]] == s;
  }

  /** Putting the last element back after a rearranged prefix restores the
      multiset. */
  lemma {:induction false} LastPutBack<T>(s: seq<T>, mid: seq<T>, extra: multiset<T>)
    requires |s| > 0
    requires multiset(mid) == multiset(s[..|s| - 1]) + extra
    ensures multiset(mid + [s[|s| - 1]]) == multiset(s) + extra
  {
    assert s == s[..|s| - 1] + [s[|s| - 1]];
  }

  lemma {:induction false} FiltersBeforeLast<T>(init: seq<T>, x: T, last: T, mid: seq<T>, key: T -> Price)
    requires key(x) != key(last)
    requires forall p :: Filter(mid, key, p) == Filter(init, key, p) + Filter([x], key, p)
    ensures forall p :: Filter(mid + [last], key, p) == Filter(init + [last], key, p) + Filter([x], key, p)
  {
    forall p
      ensures Filter(mid + [last], key, p) == Filter(init + [last], key, p) + Filter([x], key, p)
    {
      FilterBeforeLast(init, x, last, mid, key, p);
    }
  }

  /** Filters of `mid + [last]`, where `mid` is `init` with `x` inserted and
      the keys of `x` and `last` differ. */
  lemma {:induction false} FilterBeforeLast<T>(init: seq<T>, x: T, last: T, mid: seq<T>, key: T -> Price, p: Price)
    requires key(x) != key(last)
    requires Filter(mid, key, p) == Filter(init, key, p) + Filter([x], key, p)
    ensures Filter(mid + [last], key, p) == Filter(init + [last], key, p) + Filter([x], key, p)
  {
    FilterAppend(mid, [last], key, p);
    FilterAppend(init, [last], key, p);
    FilterSingle(x, key, p);
    FilterSingle(last, key, p);
    SwapEmpty(Filter(init, key, p), Filter([x], key, p), Filter([last], key, p));
  }

  /** Appending two sequences, one of them empty, in either order. */
  lemma {:induction false} SwapEmpty<T>(a: seq<T>, u: seq<T>, v: seq<T>)
    requires u == [] || v == []
    ensures (a + u) + v == (a + v) + u
  {
    if u == [] {
      assert a + u == a;
    } else {
      assert a + v == a;
    }
  }

  /** A stable insertion sort by key. */
  function SortBy<T>(s: seq<T>, key: T -> Price): (r: seq<T>)
    ensures SortedBy(r, key)
    ensures multiset(r) == multiset(s)
    ensures forall p :: Filter(r, key, p) == Filter(s, key, p)
    decreases |s|
  {
    if |s| == 0 then []
    else
      var n := |s| - 1;
      assert s == s[..n] + [s[n]];
      var r := Insert(s[n], SortBy(s[..n], key), key);
      forall p
        ensures Filter(r, key, p) == Filter(s, key, p)
      {
        FilterAppend(s[..n], [s[n]], key, p);
      }
      r
  }

  /** `results.sort(key=lambda x: clean_price(x.get('price', 'inf')))`: a
      permutation of the listings, in non-decreasing price order, with
      unknown prices after all known ones, and listings of equal price in
      their input order. */
  function SortByPrice(ls: seq<Listing>): (r: seq<Listing>)
    ensures multiset(r) == multiset(ls)
    ensures forall i, j :: 0 <= i < j < |r| && PriceOf(r[i]).Known? && PriceOf(r[j]).Known? ==>
              PriceOf(r[i]).amount <= PriceOf(r[j]).amount
    ensures forall i, j :: 0 <= i < j < |r| && PriceOf(r[i]).Unknown? ==> PriceOf(r[j]).Unknown?
    ensures forall p :: Filter(r, PriceOf, p) == Filter(ls, PriceOf, p)
  {
    SortBy(ls, PriceOf)
  }

  /** An element of `s` appears in the filter of its own key. */
  lemma {:induction false} FilterHolds<T>(s: seq<T>, key: T -> Price, i: nat)
    requires i < |s|
    ensures s[i] in Filter(s, key, key(s[i]))
    decreases |s|
  {
    var n := |s| - 1;
    if i < n {
      assert s[..n][i] == s[i];
      FilterHolds(s[..n], key, i);
    }
  }

  /** A filter holds only elements of `s`. */
  lemma {:induction false} FilterFrom<T>(s: seq<T>, key: T -> Price, p: Price, x: T)
    requires x in Filter(s, key, p)
    ensures exists j :: 0 <= j < |s| && s[j] == x && key(s[j]) == p
    decreases |s|
  {
    var n := |s| - 1;
    if x in Filter(s[..n], key, p) {
      FilterFrom(s[..n], key, p, x);
      var j :| 0 <= j < n && s[..n][j] == x && key(s[..n][j]) == p;
      assert s[j] == x;
    } else {
      assert s[n] == x;
    }
  }

  /** The key of the last element of a sorted sequence is at least that of
      every element. */
  lemma {:induction false} LastIsMaximal<T>(s: seq<T>, key: T -> Price, q: Price)
    requires SortedBy(s, key) && |s| > 0
    requires Filter(s, key, q) != []
    ensures !Below(key(s[|s| - 1]), q)
  {
    var x := Filter(s, key, q)[0];
    FilterFrom(s, key, q, x);
  }

  lemma {:induction false} SnocInjective<T>(a: seq<T>, x: T, b: seq<T>, y: T)
    requires a + [x] == b + [y]
    ensures a == b && x == y
  {
    assert a == (a + [x])[..|a|];
    assert b == (b + [y])[..|b|];
  }

  /** When two sequences with the same filters end in elements of the same
      key, those elements are equal and the rest have the same filters. */
  lemma {:induction false} InitFiltersAgree<T>(i1: seq<T>, x1: T, i2: seq<T>, x2: T, key: T -> Price)
    requires key(x1) == key(x2)
    requires forall p :: Filter(i1 + [x1], key, p) == Filter(i2 + [x2], key, p)
    ensures x1 == x2
    ensures forall p :: Filter(i1, key, p) == Filter(i2, key, p)
  {
    forall p
      ensures Filter(i1, key, p) + Filter([x1], key, p) == Filter(i2, key, p) + Filter([x2], key, p)
    {
      FilterAppend(i1, [x1], key, p);
      FilterAppend(i2, [x2], key, p);
    }
    var k := key(x1);
    FilterSingle(x1, key, k);
    FilterSingle(x2, key, k);
    SnocInjective(Filter(i1, key, k), x1, Filter(i2, key, k), x2);
    forall p | p != k
      ensures Filter(i1, key, p) == Filter(i2, key, p)
    {
      FilterSingle(x1, key, p);
      FilterSingle(x2, key, p);
      var f1, f2 := Filter(i1, key, p), Filter(i2, key, p);
      assert f1 + [] == f1 && f2 + [] == f2;
    }
  }

  /** Two sorted sequences with the same elements of every key, in the same
      order, are equal: sortedness and stability determine the result. */
  lemma {:induction false} SortedFiltersDetermine<T>(r1: seq<T>, r2: seq<T>, key: T -> Price)
    requires SortedBy(r1, key) && SortedBy(r2, key)
    requires forall p :: Filter(r1, key, p) == Filter(r2, key, p)
    ensures r1 == r2
    decreases |r1| + |r2|
  {
    if |r1| == 0 || |r2| == 0 {
      if |r1| > 0 {
        FilterHolds(r1, key, 0);
        assert false;
      } else if |r2| > 0 {
        FilterHolds(r2, key, 0);
        assert false;
      }
    } else {
      var n1, n2 := |r1| - 1, |r2| - 1;
      LastKeysAgree(r1, r2, key);
      var i1, i2 := r1[..n1], r2[..n2];
      assert r1 == i1 + [r1[n1]] && r2 == i2 + [r2[n2]];
      InitFiltersAgree(i1, r1[n1], i2, r2[n2], key);
      SortedInit(r1, key);
      SortedInit(r2, key);
      SortedFiltersDetermine(i1, i2, key);
    }
  }

  /** Two non-empty sorted sequences with the same filters end in elements
      of the same key. */
  lemma {:induction false} LastKeysAgree<T>(r1: seq<T>, r2: seq<T>, key: T -> Price)
    requires SortedBy(r1, key) && SortedBy(r2, key) && |r1| > 0 && |r2| > 0
    requires forall p :: Filter(r1, key, p) == Filter(r2, key, p)
    ensures key(r1[|r1| - 1]) == key(r2[|r2| - 1])
  {
    var k1, k2 := key(r1[|r1| - 1]), key(r2[|r2| - 1]);
    FilterHolds(r1, key, |r1| - 1);
    FilterHolds(r2, key, |r2| - 1);
    LastIsMaximal(r2, key, k1);
    LastIsMaximal(r1, key, k2);
    BelowIsStrictTotalOrder(k1, k2, k1);
  }

  lemma {:induction false} SortedInit<T>(s: seq<T>, key: T -> Price)
    requires SortedBy(s, key) && |s| > 0
    ensures SortedBy(s[..|s| - 1], key)
  {
  }

  /** The price sort is the only arrangement of the listings that is in
      price order and keeps listings of equal price in input order. */
  lemma {:induction false} SortByPriceUnique(ls: seq<Listing>, r: seq<Listing>)
    requires SortedBy(r, PriceOf)
    requires forall p :: Filter(r, PriceOf, p) == Filter(ls, PriceOf, p)
    ensures r == SortByPrice(ls)
  {
    SortedFiltersDetermine(r, SortByPrice(ls), PriceOf);
  }

  /** The key the sort uses for a listing without a price, `'inf'`, cleans
      to an unknown price like any other text without a digit. */
  lemma {:induction false} MissingPriceDefault()
    ensures CleanPrice(Some("inf")) == Unknown
  {
    assert !exists i :: 0 <= i < |"inf"| && IsDigit("inf"[i]);
  }
}
