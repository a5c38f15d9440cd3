/** Finite sums used by the statistics: over an unordered set of keys (the
    k-mer union of two profiles, the keys of a counting dictionary) and over
    an ordered list (per-window scores, contig lengths). */
module Sums {

  /** Sum of `f` over the keys `ks`, visiting them in an arbitrary order.
      SumRemove shows that the order does not matter. */
  ghost function Sum<K>(ks: set<K>, f: K -> real): real
    decreases |ks|
  {
    if ks == {} then 0.0
    else
      var k :| k in ks;
      f(k) + Sum(ks - {k}, f)
  }

  /** Any key can be taken out first. */
  lemma {:induction false} SumRemove<K>(ks: set<K>, f: K -> real, x: K)
    requires x in ks
    ensures Sum(ks, f) == f(x) + Sum(ks - {x}, f)
    decreases |ks|
  {
    var y :| y in ks && Sum(ks, f) == f(y) + Sum(ks - {y}, f);
    if y != x {
      SumRemove(ks - {y}, f, x);
      SumRemove(ks - {x}, f, y);
      assert ks - {y} - {x} == ks - {x} - {y};
    }
  }

  /** Adding a key that was not there adds its value. */
  lemma SumInsert<K>(ks: set<K>, f: K -> real, x: K)
    requires x !in ks
    ensures Sum(ks + {x}, f) == f(x) + Sum(ks, f)
  {
    SumRemove(ks + {x}, f, x);
    assert ks + {x} - {x} == ks;
  }

  /** The sum only depends on the values of `f` on `ks`. */
  lemma {:induction false} SumCongruent<K>(ks: set<K>, f: K -> real, g: K -> real)
    requires forall k :: k in ks ==> f(k) == g(k)
    ensures Sum(ks, f) == Sum(ks, g)
    decreases |ks|
  {
    if ks != {} {
      var x :| x in ks;
      SumRemove(ks, f, x);
      SumRemove(ks, g, x);
      SumCongruent(ks - {x}, f, g);
    }
  }

  /** A sum of non-negative values is non-negative. */
  lemma {:induction false} SumNonNegative<K>(ks: set<K>, f: K -> real)
    requires forall k :: k in ks ==> 0.0 <= f(k)
    ensures 0.0 <= Sum(ks, f)
    decreases |ks|
  {
    if ks != {} {
      var x :| x in ks;
      SumRemove(ks, f, x);
      SumNonNegative(ks - {x}, f);
    }
  }

  /** A sum of zeros is zero. */
  lemma {:induction false} SumZero<K>(ks: set<K>, f: K -> real)
    requires forall k :: k in ks ==> f(k) == 0.0
    ensures Sum(ks, f) == 0.0
    decreases |ks|
  {
    if ks != {} {
      var x :| x in ks;
      SumRemove(ks, f, x);
      SumZero(ks - {x}, f);
    }
  }

  /** A sum of non-negative values with one positive value is positive. */
  lemma SumPositive<K>(ks: set<K>, f: K -> real, x: K)
    requires forall k :: k in ks ==> 0.0 <= f(k)
    requires x in ks && 0.0 < f(x)
    ensures 0.0 < Sum(ks, f)
  {
    SumRemove(ks, f, x);
    SumNonNegative(ks - {x}, f);
  }

  /** Dividing every value by `t` divides the sum by `t`. */
  lemma {:induction false} SumDivide<K>(ks: set<K>, f: K -> real, g: K -> real, t: real)
    requires t != 0.0
    requires forall k :: k in ks ==> g(k) == f(k) / t
    ensures Sum(ks, g) == Sum(ks, f) / t
    decreases |ks|
  {
    if ks != {} {
      var x :| x in ks;
      SumRemove(ks, f, x);
      SumRemove(ks, g, x);
      SumDivide(ks - {x}, f, g, t);
      var a, b := f(x), Sum(ks - {x}, f);
      assert Sum(ks, f) == a + b;
      assert Sum(ks, g) == a / t + b / t;
      DivideAdd(a, b, t);
    }
  }

  /** Division distributes over addition. */
  lemma DivideAdd(a: real, b: real, t: real)
    requires t != 0.0
    ensures (a + b) / t == a / t + b / t
  {
  }

  /** Changing the value at one key by `d` changes the sum by `d`. */
  lemma SumBump<K>(ks: set<K>, f: K -> real, g: K -> real, x: K, d: real)
    requires x in ks
    requires g(x) == f(x) + d
    requires forall k :: k in ks && k != x ==> f(k) == g(k)
    ensures Sum(ks, g) == Sum(ks, f) + d
  {
    SumRemove(ks, f, x);
    SumRemove(ks, g, x);
    SumCongruent(ks - {x}, f, g);
  }

  /** Sum of a list of reals, left to right. */
  function SeqSum(xs: seq<real>): real
  {
    if xs == [] then 0.0 else SeqSum(xs[..|xs| - 1]) + xs[|xs| - 1]
  }

  /** Arithmetic mean; 0 for an empty list. */
  function Mean(xs: seq<real>): (m: real)
    ensures xs == [] ==> m == 0.0
    ensures xs != [] ==> m * |xs| as real == SeqSum(xs)
  {
    if xs == [] then 0.0 else SeqSum(xs) / |xs| as real
  }

  /** Every term in [lo, hi] puts the sum in [n*lo, n*hi]. */
  lemma {:induction false} SeqSumBounds(xs: seq<real>, lo: real, hi: real)
    requires forall i :: 0 <= i < |xs| ==> lo <= xs[i] <= hi
    ensures |xs| as real * lo <= SeqSum(xs) <= |xs| as real * hi
  {
    if xs != [] {
      SeqSumBounds(xs[..|xs| - 1], lo, hi);
    }
  }

  /** A mean of values in [0, 1] lies in [0, 1]. */
  lemma MeanUnitInterval(xs: seq<real>)
    requires forall i :: 0 <= i < |xs| ==> 0.0 <= xs[i] <= 1.0
    ensures 0.0 <= Mean(xs) <= 1.0
  {
    if xs != [] {
      SeqSumBounds(xs, 0.0, 1.0);
    }
  }

  /** The mean of a non-empty list of ones is one. */
  lemma MeanOfOnes(xs: seq<real>)
    requires xs != []
    requires forall i :: 0 <= i < |xs| ==> xs[i] == 1.0
    ensures Mean(xs) == 1.0
  {
    SeqSumBounds(xs, 1.0, 1.0);
  }

  /** Sum of a list of natural numbers, left to right. */
  function NatSum(xs: seq<nat>): nat
  {
    if xs == [] then 0 else NatSum(xs[..|xs| - 1]) + xs[|xs| - 1]
  }

  /** NatSum distributes over concatenation. */
  lemma {:induction false} NatSumAppend(xs: seq<nat>, ys: seq<nat>)
    ensures NatSum(xs + ys) == NatSum(xs) + NatSum(ys)
    decreases |ys|
  {
    if ys == [] {
      assert xs + ys == xs;
    } else {
      var zs := xs + ys;
      assert zs[..|zs| - 1] == xs + ys[..|ys| - 1];
      assert zs[|zs| - 1] == ys[|ys| - 1];
      NatSumAppend(xs, ys[..|ys| - 1]);
    }
  }

  /** A positive part of a whole it does not exceed is a share in (0, 1]. */
  lemma UnitQuotient(c: real, t: real)
    requires 0.0 < c <= t
    ensures 0.0 < c / t <= 1.0
  {
  }

  lemma SelfQuotient(x: real)
    requires 0.0 < x
    ensures x / x == 1.0
  {
  }

  /** A part of a positive whole is a share in [0, 1], and 0 only when the
      part is. */
  lemma ShareBounds(part: nat, whole: nat)
    requires part <= whole && 0 < whole
    ensures 0.0 <= part as real / whole as real <= 1.0
    ensures part as real / whole as real == 0.0 <==> part == 0
  {
    if part > 0 {
      assert 0.0 < part as real / whole as real;
    }
  }
}
