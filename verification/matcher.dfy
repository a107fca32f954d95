/** `compare_products` of `app.py`: a greedy, order-dependent pairing of
    Amazon listings with Flipkart listings by keyword similarity, and the
    deal verdict for each pair.

    The matcher reads a listing only through the keyword set of its name and
    its cleaned price; an `Item` carries both next to the listing. The pool
    of Flipkart items still available is kept as a sequence of their
    positions in the Flipkart input, so that "no Flipkart listing is matched
    twice" can be said by position even when two listings are equal.
    `CompareProductsLoop` follows the source loop with a pool of items and
    `list.remove`, and is proved to compute the same result. */
module Matcher {
  import opened Wrappers
  import opened Normalizer
  import opened Listings
  import Keywords
  import Similarity

  /** A best match must score strictly above this similarity. */
  const Threshold: real := 0.2

  /** A listing as the matcher reads it: the keywords of its name
      (`get_keywords`) and its price through `clean_price`. */
  datatype Item = Item(listing: Listing, keywords: set<string>, price: Price)

  function Prepare(l: Listing): Item {
    Item(l, Keywords.KeywordSet(l.name), PriceOf(l))
  }

  function Prepared(ls: seq<Listing>): (r: seq<Item>)
    ensures |r| == |ls| && forall k :: 0 <= k < |ls| ==> r[k] == Prepare(ls[k])
  {
    seq(|ls|, k requires 0 <= k < |ls| => Prepare(ls[k]))
  }

  /** Keyword similarity of two listings' names: the Jaccard index of their
      keyword sets, 0 when both are empty. */
  function Sim(a: Item, b: Item): (r: real)
    ensures 0.0 <= r <= 1.0
    ensures r == 0.0 <==> a.keywords * b.keywords == {}
  {
    Similarity.Jaccard(a.keywords, b.keywords)
  }

  // ---------------------------------------------------------------------
  // Best-match selection
  // ---------------------------------------------------------------------

  /** `pool[k]` is the candidate the scan keeps for `a`: it scores above
      zero, nothing in the pool scores higher, and every earlier candidate
      scores strictly lower. */
  ghost predicate IsBestMatch(a: Item, pool: seq<Item>, k: int) {
    && 0 <= k < |pool|
    && Sim(a, pool[k]) > 0.0
    && (forall j :: 0 <= j < |pool| ==> Sim(a, pool[j]) <= Sim(a, pool[k]))
    && (forall j :: 0 <= j < k ==> Sim(a, pool[j]) < Sim(a, pool[k]))
  }

  /** At most one candidate is the best match. */
  lemma {:induction false} BestMatchUnique(a: Item, pool: seq<Item>, k: int, k': int)
    requires IsBestMatch(a, pool, k) && IsBestMatch(a, pool, k')
    ensures k == k'
  {
    if k < k' {
      assert false;
    } else if k' < k {
      assert false;
    }
  }

  /** State of the inner scan: the position kept so far (`best_match`) and
      its score (`highest_similarity`). */
  datatype Best = Best(pos: Option<nat>, score: real)

  /** The inner loop of `compare_products` over `pool`, left to right,
      starting from no candidate and score 0.0 and replacing the candidate
      only on a strictly higher score. */
  function BestMatch(a: Item, pool: seq<Item>): (b: Best)
    ensures b.pos.Some? ==> IsBestMatch(a, pool, b.pos.value) && b.score == Sim(a, pool[b.pos.value])
    ensures b.pos.None? ==> b.score == 0.0 && forall j :: 0 <= j < |pool| ==> Sim(a, pool[j]) == 0.0
    decreases |pool|
  {
    if |pool| == 0 then Best(None, 0.0)
    else
      var n := |pool| - 1;
      var prev := BestMatch(a, pool[..n]);
      assert forall j :: 0 <= j < n ==> pool[..n][j] == pool[j];
      var s := Sim(a, pool[n]);
      if s > prev.score then Best(Some(n), s) else prev
  }

  /** The scan keeps a candidate exactly when some candidate shares a
      keyword, and then it is the best match. */
  lemma {:induction false} BestMatchFindsBest(a: Item, pool: seq<Item>, k: int)
    ensures BestMatch(a, pool).pos == Some(k) <==> IsBestMatch(a, pool, k)
  {
    var b := BestMatch(a, pool);
    if IsBestMatch(a, pool, k) {
      assert b.pos.Some?;
      BestMatchUnique(a, pool, k, b.pos.value);
    }
  }

  // ---------------------------------------------------------------------
  // Deal resolution
  // ---------------------------------------------------------------------

  /** The `best_deal` verdict. */
  datatype Deal = AmazonCheaper | FlipkartCheaper | SamePrice

  /** The text the source stores for each verdict. */
  function DealLabel(d: Deal): (r: string)
    ensures r == "Amazon" <==> d == AmazonCheaper
    ensures r == "Flipkart" <==> d == FlipkartCheaper
    ensures r == "Both have the same price" <==> d == SamePrice
  {
    match d
    case AmazonCheaper => "Amazon"
    case FlipkartCheaper => "Flipkart"
    case SamePrice => "Both have the same price"
  }

  /** The verdict with the sites exchanged. */
  function Mirror(d: Deal): Deal {
    match d
    case AmazonCheaper => FlipkartCheaper
    case FlipkartCheaper => AmazonCheaper
    case SamePrice => SamePrice
  }

  /** The winner rule: a strictly lower price wins, otherwise neither. */
  function BestDeal(amazonPrice: real, flipkartPrice: real): (d: Deal)
    ensures d == AmazonCheaper <==> amazonPrice < flipkartPrice
    ensures d == FlipkartCheaper <==> flipkartPrice < amazonPrice
    ensures d == SamePrice <==> amazonPrice == flipkartPrice
  {
    if amazonPrice < flipkartPrice then AmazonCheaper
    else if flipkartPrice < amazonPrice then FlipkartCheaper
    else SamePrice
  }

  /** Exchanging the two prices exchanges the winner. */
  lemma {:induction false} BestDealMirror(x: real, y: real)
    ensures BestDeal(y, x) == Mirror(BestDeal(x, y))
  {
  }

  /** The verdict labels are pairwise different. */
  lemma {:induction false} DealLabelsDistinct(d: Deal, e: Deal)
    ensures DealLabel(d) == DealLabel(e) <==> d == e
  {
    if d != e {
      assert DealLabel(d)[0] != DealLabel(e)[0] || |DealLabel(d)| != |DealLabel(e)|;
    }
  }

  function Abs(x: real): real {
    if x < 0.0 then -x else x
  }

  /** One entry of the result. `priceDifference` is the exact magnitude
      that the source formats as a rupee amount with two decimals. */
  datatype Comparison = Comparison(
    amazonProduct: Listing,
    flipkartProduct: Listing,
    priceDifference: real,
    bestDeal: Deal)

  /** The comparison of a matched pair, when both prices are known. */
  function Compare(a: Item, f: Item): (c: Option<Comparison>)
    ensures c.Some? <==> a.price.Known? && f.price.Known?
    ensures c.Some? ==> c.value.amazonProduct == a.listing && c.value.flipkartProduct == f.listing
    ensures c.Some? ==> c.value.priceDifference >= 0.0
    ensures c.Some? ==> (c.value.priceDifference == 0.0 <==> c.value.bestDeal == SamePrice)
  {
    var pa, pf := a.price, f.price;
    if pa.Known? && pf.Known? then
      Some(Comparison(a.listing, f.listing, Abs(pa.amount - pf.amount), BestDeal(pa.amount, pf.amount)))
    else
      None
  }

  /** The cheaper price plus the difference is the dearer price. */
  lemma {:induction false} DifferenceSettlesDeal(a: Item, f: Item)
    requires Compare(a, f).Some?
    ensures var c := Compare(a, f).value;
            var pa, pf := a.price.amount, f.price.amount;
            match c.bestDeal
            case AmazonCheaper => pa + c.priceDifference == pf
            case FlipkartCheaper => pf + c.priceDifference == pa
            case SamePrice => pa == pf && c.priceDifference == 0.0
  {
  }

  // ---------------------------------------------------------------------
  // One Amazon listing against the pool
  // ---------------------------------------------------------------------

  /** What one Amazon listing does: match the pool candidate at `pos`, or
      nothing. */
  datatype Step = Matched(pos: nat, comparison: Comparison) | Unmatched

  /** The comparison, if any, that one Amazon listing emits against the
      pool: that of the best match, when it scores above the threshold and
      both prices are known. */
  function MatchOne(a: Item, pool: seq<Item>): (st: Step)
    ensures st.Matched? ==> IsBestMatch(a, pool, st.pos) && Sim(a, pool[st.pos]) > Threshold
                            && Compare(a, pool[st.pos]) == Some(st.comparison)
  {
    var b := BestMatch(a, pool);
    if b.pos.Some? && b.score > Threshold then
      match Compare(a, pool[b.pos.value])
      case Some(c) => Matched(b.pos.value, c)
      case None => Unmatched
    else
      Unmatched
  }

  /** A comparison is emitted exactly when the best match scores above the
      threshold and both prices are known; otherwise nothing is emitted. */
  lemma {:induction false} MatchOneEmitsIff(a: Item, pool: seq<Item>)
    ensures MatchOne(a, pool).Matched? <==>
              exists k :: IsBestMatch(a, pool, k) && Sim(a, pool[k]) > Threshold && Compare(a, pool[k]).Some?
  {
    var b := BestMatch(a, pool);
    forall k | IsBestMatch(a, pool, k)
      ensures b.pos == Some(k)
    {
      BestMatchFindsBest(a, pool, k);
    }
  }

  // ---------------------------------------------------------------------
  // The pool as positions in the Flipkart input
  // ---------------------------------------------------------------------

  /** Distinct positions into a list of length `n`. */
  ghost predicate ValidPool(avail: seq<nat>, n: nat) {
    && (forall k :: 0 <= k < |avail| ==> avail[k] < n)
    && (forall p, q :: 0 <= p < q < |avail| ==> avail[p] != avail[q])
  }

  /** The listings at the given positions. */
  function Project(flipkart: seq<Item>, avail: seq<nat>): (pool: seq<Item>)
    requires forall k :: 0 <= k < |avail| ==> avail[k] < |flipkart|
    ensures |pool| == |avail|
    ensures forall k :: 0 <= k < |avail| ==> pool[k] == flipkart[avail[k]]
  {
    seq(|avail|, k requires 0 <= k < |avail| => flipkart[avail[k]])
  }

  function Positions(n: nat): (r: seq<nat>)
    ensures ValidPool(r, n) && |r| == n
    ensures forall k :: 0 <= k < n ==> r[k] == k
  {
    seq(n, k requires 0 <= k < n => k)
  }

  function RemoveAt<T>(s: seq<T>, k: nat): (r: seq<T>)
    requires k < |s|
    ensures |r| == |s| - 1
    ensures forall j :: 0 <= j < k ==> r[j] == s[j]
    ensures forall j :: k <= j < |r| ==> r[j] == s[j + 1]
  {
    s[..k] + s[k + 1..]
  }

  /** The pool the next Amazon listing sees: shrunk by exactly the matched
      position when a comparison was emitted, unchanged otherwise. */
  function NextPool(st: Step, avail: seq<nat>, n: nat): (next: seq<nat>)
    requires ValidPool(avail, n)
    requires st.Matched? ==> st.pos < |avail|
    ensures ValidPool(next, n)
    ensures |next| == if st.Matched? then |avail| - 1 else |avail|
    ensures forall x :: x in next ==> x in avail
    ensures st.Matched? ==> avail[st.pos] !in next
  {
    match st
    case Unmatched => avail
    case Matched(k, _) =>
      var r := RemoveAt(avail, k);
      assert forall x :: x in r ==> x in avail;
      assert forall j :: 0 <= j < |r| ==> r[j] != avail[k];
      r
  }

  /** The next pool holds every position of the current one except the
      matched position, and nothing else. */
  lemma {:induction false} NextPoolDropsOnlyTheMatch(st: Step, avail: seq<nat>, n: nat, x: nat)
    requires ValidPool(avail, n)
    requires st.Matched? ==> st.pos < |avail|
    ensures x in NextPool(st, avail, n) <==> x in avail && !(st.Matched? && x == avail[st.pos])
  {
    if st.Matched? && x in avail && x != avail[st.pos] {
      var j :| 0 <= j < |avail| && avail[j] == x;
      var r := NextPool(st, avail, n);
      if j < st.pos { assert r[j] == x; } else { assert r[j - 1] == x; }
    }
  }

  // ---------------------------------------------------------------------
  // The whole matcher
  // ---------------------------------------------------------------------

  /** One emitted comparison, with the positions of its two listings. */
  datatype Match = Match(amazonIndex: nat, flipkartIndex: nat, comparison: Comparison)

  /** Match `m` pairs an Amazon and a Flipkart listing whose similarity is
      above the threshold, and carries their comparison. */
  ghost predicate Sound(amazon: seq<Item>, flipkart: seq<Item>, m: Match) {
    && m.amazonIndex < |amazon|
    && m.flipkartIndex < |flipkart|
    && Sim(amazon[m.amazonIndex], flipkart[m.flipkartIndex]) > Threshold
    && Compare(amazon[m.amazonIndex], flipkart[m.flipkartIndex]) == Some(m.comparison)
  }

  /** The step of one Amazon listing against the pool at positions `avail`. */
  function StepAt(a: Item, flipkart: seq<Item>, avail: seq<nat>): (st: Step)
    requires forall k :: 0 <= k < |avail| ==> avail[k] < |flipkart|
    ensures st.Matched? ==> st.pos < |avail|
  {
    MatchOne(a, Project(flipkart, avail))
  }

  /** Matches come in increasing Amazon order and use each Flipkart
      position at most once. */
  ghost predicate Ordered(r: seq<Match>) {
    forall p, q :: 0 <= p < q < |r| ==>
      r[p].amazonIndex < r[q].amazonIndex && r[p].flipkartIndex != r[q].flipkartIndex
  }

  /** Matches pair Amazon positions from `i` on with positions from `avail`. */
  ghost predicate Drawn(r: seq<Match>, i: nat, avail: seq<nat>) {
    forall p :: 0 <= p < |r| ==> i <= r[p].amazonIndex && r[p].flipkartIndex in avail
  }

  lemma {:induction false} ConsOrdered(m: Match, rest: seq<Match>)
    requires Ordered(rest)
    requires forall q :: 0 <= q < |rest| ==>
               m.amazonIndex < rest[q].amazonIndex && m.flipkartIndex != rest[q].flipkartIndex
    ensures Ordered([m] + rest)
  {
    var r := [m] + rest;
    assert forall p :: 0 < p < |r| ==> r[p] == rest[p - 1];
  }

  lemma {:induction false} DrawnFromSmallerPool(rest: seq<Match>, i: nat, next: seq<nat>, avail: seq<nat>)
    requires Drawn(rest, i + 1, next)
    requires forall x :: x in next ==> x in avail
    ensures Drawn(rest, i, avail)
    ensures forall p :: 0 <= p < |rest| ==> rest[p].flipkartIndex in next && i < rest[p].amazonIndex
  {
  }

  /** The outer loop from Amazon position `i` on, with the pool `avail`. */
  function MatchFrom(amazon: seq<Item>, flipkart: seq<Item>, i: nat, avail: seq<nat>): (r: seq<Match>)
    requires i <= |amazon|
    requires ValidPool(avail, |flipkart|)
    ensures |r| <= |amazon| - i && |r| <= |avail|
    ensures Drawn(r, i, avail)
    ensures Ordered(r)
    decreases |amazon| - i
  {
    if i == |amazon| then []
    else
      var st := StepAt(amazon[i], flipkart, avail);
      var next := NextPool(st, avail, |flipkart|);
      var rest := MatchFrom(amazon, flipkart, i + 1, next);
      DrawnFromSmallerPool(rest, i, next, avail);
      match st
      case Unmatched => rest
      case Matched(k, c) =>
        var m := Match(i, avail[k], c);
        ConsOrdered(m, rest);
        [m] + rest
  }

  ghost predicate AllSound(amazon: seq<Item>, flipkart: seq<Item>, r: seq<Match>) {
    forall p :: 0 <= p < |r| ==> Sound(amazon, flipkart, r[p])
  }

  lemma {:induction false} ConsSound(amazon: seq<Item>, flipkart: seq<Item>, m: Match, rest: seq<Match>)
    requires Sound(amazon, flipkart, m) && AllSound(amazon, flipkart, rest)
    ensures AllSound(amazon, flipkart, [m] + rest)
  {
    var r := [m] + rest;
    forall p | 0 <= p < |r|
      ensures Sound(amazon, flipkart, r[p])
    {
      if p > 0 {
        assert r[p] == rest[p - 1];
      }
    }
  }

  /** The match one Amazon listing emits is sound. */
  lemma {:induction false} StepSound(amazon: seq<Item>, flipkart: seq<Item>, i: nat, avail: seq<nat>)
    requires i < |amazon|
    requires forall k :: 0 <= k < |avail| ==> avail[k] < |flipkart|
    requires StepAt(amazon[i], flipkart, avail).Matched?
    ensures var st := StepAt(amazon[i], flipkart, avail);
            Sound(amazon, flipkart, Match(i, avail[st.pos], st.comparison))
  {
    var pool := Project(flipkart, avail);
    var st := MatchOne(amazon[i], pool);
    assert pool[st.pos] == flipkart[avail[st.pos]];
  }

  /** One turn of the outer loop: the current Amazon listing's match, if
      any, comes before the matches of the rest, drawn from the next pool. */
  lemma {:induction false} MatchFromStep(amazon: seq<Item>, flipkart: seq<Item>, i: nat, avail: seq<nat>)
    requires i < |amazon|
    requires ValidPool(avail, |flipkart|)
    ensures var st := StepAt(amazon[i], flipkart, avail);
            var rest := MatchFrom(amazon, flipkart, i + 1, NextPool(st, avail, |flipkart|));
            MatchFrom(amazon, flipkart, i, avail)
            == if st.Matched? then [Match(i, avail[st.pos], st.comparison)] + rest else rest
  {
  }

  /** Every match the outer loop emits is sound. */
  lemma {:induction false} MatchFromSound(amazon: seq<Item>, flipkart: seq<Item>, i: nat, avail: seq<nat>)
    requires i <= |amazon|
    requires ValidPool(avail, |flipkart|)
    ensures AllSound(amazon, flipkart, MatchFrom(amazon, flipkart, i, avail))
    decreases |amazon| - i
  {
    if i < |amazon| {
      var st := StepAt(amazon[i], flipkart, avail);
      var next := NextPool(st, avail, |flipkart|);
      var rest := MatchFrom(amazon, flipkart, i + 1, next);
      MatchFromStep(amazon, flipkart, i, avail);
      MatchFromSound(amazon, flipkart, i + 1, next);
      if st.Matched? {
        StepSound(amazon, flipkart, i, avail);
        ConsSound(amazon, flipkart, Match(i, avail[st.pos], st.comparison), rest);
      }
    }
  }

  /** All matches, starting from the whole Flipkart list. */
  function MatchPairs(amazon: seq<Item>, flipkart: seq<Item>): (r: seq<Match>)
    ensures |r| <= |amazon| && |r| <= |flipkart|
    ensures forall p, q :: 0 <= p < q < |r| ==>
              r[p].amazonIndex < r[q].amazonIndex && r[p].flipkartIndex != r[q].flipkartIndex
    ensures AllSound(amazon, flipkart, r)
  {
    MatchFromSound(amazon, flipkart, 0, Positions(|flipkart|));
    MatchFrom(amazon, flipkart, 0, Positions(|flipkart|))
  }

  function Comparisons(ms: seq<Match>): (r: seq<Comparison>)
    ensures |r| == |ms| && forall p :: 0 <= p < |ms| ==> r[p] == ms[p].comparison
  {
    seq(|ms|, p requires 0 <= p < |ms| => ms[p].comparison)
  }

  /** `compare_products(amazon_list, flipkart_list)`. */
  function CompareProducts(amazon: seq<Listing>, flipkart: seq<Listing>): (r: seq<Comparison>)
    ensures |r| <= |amazon| && |r| <= |flipkart|
    ensures |amazon| == 0 || |flipkart| == 0 ==> r == []
    ensures forall c :: c in r ==> c.amazonProduct in amazon && c.flipkartProduct in flipkart
    ensures forall c :: c in r ==>
              var a, f := Prepare(c.amazonProduct), Prepare(c.flipkartProduct);
              Sim(a, f) > Threshold && Compare(a, f) == Some(c)
  {
    var m := MatchPairs(Prepared(amazon), Prepared(flipkart));
    SoundComparisons(amazon, flipkart, m);
    Comparisons(m)
  }

  /** The comparisons of sound matches name listings of the two inputs that
      are similar enough and both priced. */
  lemma {:induction false} SoundComparisons(amazon: seq<Listing>, flipkart: seq<Listing>, m: seq<Match>)
    requires AllSound(Prepared(amazon), Prepared(flipkart), m)
    ensures forall c :: c in Comparisons(m) ==> c.amazonProduct in amazon && c.flipkartProduct in flipkart
    ensures forall c :: c in Comparisons(m) ==>
              var a, f := Prepare(c.amazonProduct), Prepare(c.flipkartProduct);
              Sim(a, f) > Threshold && Compare(a, f) == Some(c)
  {
    var r := Comparisons(m);
    forall c | c in r
      ensures c.amazonProduct in amazon && c.flipkartProduct in flipkart
      ensures var a, f := Prepare(c.amazonProduct), Prepare(c.flipkartProduct);
              Sim(a, f) > Threshold && Compare(a, f) == Some(c)
    {
      var p :| 0 <= p < |r| && r[p] == c;
      assert Sound(Prepared(amazon), Prepared(flipkart), m[p]);
    }
  }

  /** With one item on each side, they are matched exactly when their
      similarity is above the threshold and both prices are known. */
  lemma {:induction false} OnePairItems(x: Item, y: Item)
    ensures MatchPairs([x], [y])
            == if Sim(x, y) > Threshold && Compare(x, y).Some? then [Match(0, 0, Compare(x, y).value)] else []
  {
    var avail := Positions(1);
    var st := StepAt(x, [y], avail);
    OnePairStep(x, y);
    MatchFromStep([x], [y], 0, avail);
    assert MatchFrom([x], [y], 1, NextPool(st, avail, 1)) == [];
  }

  /** The step of one item against a pool of one. */
  lemma {:induction false} OnePairStep(x: Item, y: Item)
    ensures StepAt(x, [y], Positions(1))
            == if Sim(x, y) > Threshold && Compare(x, y).Some? then Matched(0, Compare(x, y).value) else Unmatched
  {
    assert Project([y], Positions(1)) == [y];
    if Sim(x, y) > Threshold {
      assert IsBestMatch(x, [y], 0);
      BestMatchFindsBest(x, [y], 0);
    }
  }

  // ---------------------------------------------------------------------
  // The source loop, over a pool of listings
  // ---------------------------------------------------------------------

  /** `list.remove(x)`: drop the first element equal to `x`. */
  function RemoveFirst<T(==)>(s: seq<T>, x: T): (r: seq<T>)
    requires x in s
    ensures |r| == |s| - 1
    ensures multiset(r) + multiset{x} == multiset(s)
  {
    if s[0] == x then
      assert s == [s[0]] + s[1..];
      s[1..]
    else
      assert s == [s[0]] + s[1..];
      [s[0]] + RemoveFirst(s[1..], x)
  }

  /** Removing the first element equal to `s[k]`, when no earlier element
      equals it, removes exactly position `k`. */
  lemma {:induction false} RemoveFirstIsRemoveAt<T>(s: seq<T>, k: nat)
    requires k < |s|
    requires forall j :: 0 <= j < k ==> s[j] != s[k]
    ensures RemoveFirst(s, s[k]) == RemoveAt(s, k)
  {
    if k > 0 {
      var t := s[1..];
      assert t[k - 1] == s[k];
      RemoveFirstIsRemoveAt(t, k - 1);
      assert [s[0]] + RemoveAt(t, k - 1) == RemoveAt(s, k);
    }
  }

  /** The best match is the first pool element equal to itself, so
      `list.remove` takes out exactly the matched candidate. */
  lemma {:induction false} RemoveBestMatch(a: Item, pool: seq<Item>, k: nat)
    requires IsBestMatch(a, pool, k)
    ensures RemoveFirst(pool, pool[k]) == RemoveAt(pool, k)
  {
    forall j | 0 <= j < k
      ensures pool[j] != pool[k]
    {
      assert Sim(a, pool[j]) < Sim(a, pool[k]);
    }
    RemoveFirstIsRemoveAt(pool, k);
  }

  lemma {:induction false} ProjectRemoveAt(flipkart: seq<Item>, avail: seq<nat>, k: nat)
    requires forall j :: 0 <= j < |avail| ==> avail[j] < |flipkart|
    requires k < |avail|
    ensures Project(flipkart, RemoveAt(avail, k)) == RemoveAt(Project(flipkart, avail), k)
  {
  }

  lemma {:induction false} ComparisonsCons(m: Match, rest: seq<Match>)
    ensures Comparisons([m] + rest) == [m.comparison] + Comparisons(rest)
  {
    var r := [m] + rest;
    assert forall p :: 0 < p < |r| ==> r[p] == rest[p - 1];
  }

  /** One Amazon listing contributes its comparison, if any, ahead of those
      of the listings after it. */
  lemma {:induction false} MatchFromUnfold(amazon: seq<Item>, flipkart: seq<Item>, i: nat, avail: seq<nat>)
    requires i < |amazon|
    requires ValidPool(avail, |flipkart|)
    ensures var st := StepAt(amazon[i], flipkart, avail);
            var rest := Comparisons(MatchFrom(amazon, flipkart, i + 1, NextPool(st, avail, |flipkart|)));
            Comparisons(MatchFrom(amazon, flipkart, i, avail)) == if st.Matched? then [st.comparison] + rest else rest
  {
    var st := StepAt(amazon[i], flipkart, avail);
    MatchFromStep(amazon, flipkart, i, avail);
    if st.Matched? {
      ComparisonsCons(Match(i, avail[st.pos], st.comparison),
                      MatchFrom(amazon, flipkart, i + 1, NextPool(st, avail, |flipkart|)));
    }
  }

  /** One turn of the outer loop, in terms of the comparisons emitted so
      far: the current Amazon listing's comparison, if any, is appended, and
      the pool shrinks as `NextPool` says. */
  lemma {:induction false} Advance(amazon: seq<Item>, flipkart: seq<Item>, i: nat, avail: seq<nat>, done: seq<Comparison>)
    requires i < |amazon|
    requires ValidPool(avail, |flipkart|)
    ensures var st := StepAt(amazon[i], flipkart, avail);
            var emitted := if st.Matched? then done + [st.comparison] else done;
            var next := if st.Matched? then RemoveAt(avail, st.pos) else avail;
            && next == NextPool(st, avail, |flipkart|)
            && done + Comparisons(MatchFrom(amazon, flipkart, i, avail))
               == emitted + Comparisons(MatchFrom(amazon, flipkart, i + 1, next))
  {
    var st := StepAt(amazon[i], flipkart, avail);
    MatchFromUnfold(amazon, flipkart, i, avail);
    if st.Matched? {
      var rest := Comparisons(MatchFrom(amazon, flipkart, i + 1, NextPool(st, avail, |flipkart|)));
      assert done + ([st.comparison] + rest) == (done + [st.comparison]) + rest;
    }
  }

  /** The inner loop of `compare_products`: the first strictly best
      candidate and its similarity, or none and 0.0. */
  method ScanBest(item: Item, pool: seq<Item>) returns (bestMatch: Option<Item>, highest: real, ghost bestPos: Option<nat>)
    ensures Best(bestPos, highest) == BestMatch(item, pool)
    ensures bestPos.Some? ==> bestPos.value < |pool| && bestMatch == Some(pool[bestPos.value])
    ensures bestPos.None? ==> bestMatch == None
    ensures bestMatch.Some? ==> bestMatch.value in pool && highest > 0.0
    ensures bestMatch.None? ==> highest == 0.0
  {
    bestMatch, highest, bestPos := None, 0.0, None;
    for j := 0 to |pool|
      invariant Best(bestPos, highest) == BestMatch(item, pool[..j])
      invariant bestPos.Some? ==> bestPos.value < j && bestMatch == Some(pool[bestPos.value])
      invariant bestPos.None? ==> bestMatch == None
    {
      assert pool[..j + 1][..j] == pool[..j];
      var similarity := Sim(item, pool[j]);
      if similarity > highest {
        highest := similarity;
        bestMatch := Some(pool[j]);
        bestPos := Some(j);
      }
    }
    assert pool[..|pool|] == pool;
  }

  /** `compare_products` as written: a pool of listings that starts as a
      copy of the Flipkart list, an inner scan that keeps the first
      strictly best candidate, and `list.remove` of the matched candidate.
      It computes `CompareProducts`. */
  method CompareProductsLoop(amazonList: seq<Listing>, flipkartList: seq<Listing>) returns (comparisons: seq<Comparison>)
    ensures comparisons == CompareProducts(amazonList, flipkartList)
  {
    var amazon, flipkart := Prepared(amazonList), Prepared(flipkartList);
    comparisons := [];
    var pool := flipkart;
    ghost var avail := Positions(|flipkart|);
    assert pool == Project(flipkart, avail);
    for i := 0 to |amazon|
      invariant ValidPool(avail, |flipkart|)
      invariant pool == Project(flipkart, avail)
      invariant comparisons + Comparisons(MatchFrom(amazon, flipkart, i, avail)) == CompareProducts(amazonList, flipkartList)
    {
      var item := amazon[i];
      var bestMatch, highest, bestPos := ScanBest(item, pool);
      ghost var st := StepAt(item, flipkart, avail);
      Advance(amazon, flipkart, i, avail, comparisons);
      if bestMatch.Some? && highest > Threshold {
        var c := Compare(item, bestMatch.value);
        if c.Some? {
          var k := bestPos.value;
          assert st == Matched(k, c.value);
          RemoveBestMatch(item, pool, k);
          ProjectRemoveAt(flipkart, avail, k);
          comparisons := comparisons + [c.value];
          pool := RemoveFirst(pool, bestMatch.value);
          avail := RemoveAt(avail, k);
        } else {
          assert st == Unmatched;
        }
      } else {
        assert st == Unmatched;
      }
    }
  }
}
