/** Jaccard similarity of two keyword sets, as `compare_products` computes it
    (`app.py`): shared keywords over all keywords, or 0 when both sets are
    empty. Exact rational arithmetic stands in for Python's float division. */
module Similarity {

  function Jaccard<T>(a: set<T>, b: set<T>): (r: real)
    ensures 0.0 <= r <= 1.0
    ensures r == 0.0 <==> a * b == {}
  {
    var union := |a + b|;
    if union > 0 then
      assert a * b <= a + b;
      assert |a * b| <= union by {
        SubsetCard(a * b, a + b);
      }
      assert a * b != {} ==> |a * b| > 0 by {
        if a * b != {} {
          var x :| x in a * b;
          SubsetCard({x}, a * b);
        }
      }
      |a * b| as real / union as real
    else
      assert a * b <= a + b;
      0.0
  }

  lemma {:induction false} SubsetCard<T>(x: set<T>, y: set<T>)
    requires x <= y
    ensures |x| <= |y|
    decreases y
  {
    if x != {} {
      var e :| e in x;
      SubsetCard(x - {e}, y - {e});
    }
  }

  /** Similarity does not depend on the order of its arguments. */
  lemma {:induction false} JaccardSymmetric<T>(a: set<T>, b: set<T>)
    ensures Jaccard(a, b) == Jaccard(b, a)
  {
    assert a * b == b * a;
    assert a + b == b + a;
  }

  /** A set is fully similar to itself, unless it is empty. */
  lemma {:induction false} JaccardSelf<T>(a: set<T>)
    ensures Jaccard(a, a) == if a == {} then 0.0 else 1.0
  {
    assert a * a == a && a + a == a;
    if a != {} {
      assert |a| > 0;
      assert Jaccard(a, a) == |a| as real / |a| as real;
    }
  }

  /** The real-valued threshold test `> 0.2` is the integer test
      `5 * |a ∩ b| > |a ∪ b|`. */
  lemma {:induction false} AboveFifthIff<T>(a: set<T>, b: set<T>)
    ensures Jaccard(a, b) > 0.2 <==> 5 * |a * b| > |a + b|
  {
    var i, u := |a * b|, |a + b|;
    if u > 0 {
      assert Jaccard(a, b) == i as real / u as real;
      assert (i as real / u as real) * (u as real) == i as real;
      if 5 * i > u {
        assert i as real > 0.2 * u as real;
        DivAbove(i as real, u as real, 0.2);
      } else {
        assert i as real <= 0.2 * u as real;
        DivAtMost(i as real, u as real, 0.2);
      }
    } else {
      assert a * b <= a + b;
    }
  }

  lemma {:induction false} DivAbove(x: real, y: real, t: real)
    requires y > 0.0 && x > t * y
    ensures x / y > t
  {
    assert x / y * y == x;
  }

  lemma {:induction false} DivAtMost(x: real, y: real, t: real)
    requires y > 0.0 && x <= t * y
    ensures x / y <= t
  {
    assert x / y * y == x;
  }
}
