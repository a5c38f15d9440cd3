/** Cosine similarity of two k-mer profiles, taken over the union of their
    k-mers with a missing k-mer counting as frequency 0. The square root is a
    parameter: any function that returns the non-negative square root of a
    non-negative number. */
module KmerCosine {
  import opened Sums
  import opened KmerProfiles

  /** `root` behaves as math.sqrt on non-negative arguments. */
  ghost predicate IsSquareRoot(root: real -> real)
  {
    forall x :: 0.0 <= x ==> 0.0 <= root(x) && root(x) * root(x) == x
  }

  /** x * y, as a named term so that sign facts about a product are stated
      on one term. */
  function Mul(x: real, y: real): real
  {
    x * y
  }

  /** The product of the two frequencies of one k-mer. */
  ghost function DotTerm(p: Profile, q: Profile): Kmer -> real
  {
    w => Mul(Get(p, w), Get(q, w))
  }

  /** sum(a * b for a, b in zip(vec1, vec2)) over the k-mers in `keys`. */
  ghost function Dot(keys: set<Kmer>, p: Profile, q: Profile): real
  {
    Sum(keys, DotTerm(p, q))
  }

  /** dot / (norm1 * norm2), or 0 when either norm is 0. */
  function GuardedQuotient(dot: real, norm1: real, norm2: real): real
  {
    if norm1 == 0.0 || norm2 == 0.0 then 0.0 else dot / (norm1 * norm2)
  }

  /** compare_kmer_profiles: 0 when the union of k-mers is empty or either
      norm is 0, the cosine of the two frequency vectors otherwise. The sums
      run over a set, so the order in which the vectors list the k-mers does
      not matter. */
  ghost function Cosine(p: Profile, q: Profile, root: real -> real): real
  {
    var keys := p.Keys + q.Keys;
    if keys == {} then 0.0
    else
      GuardedQuotient(Dot(keys, p, q), root(Dot(keys, p, p)), root(Dot(keys, q, q)))
  }

  /** The frequencies of `p` listed in the order of `order`, missing k-mers
      as 0: the vector np.array builds from one profile. */
  function Vector(p: Profile, order: seq<Kmer>): (v: seq<real>)
    ensures |v| == |order|
  {
    if order == [] then [] else Vector(p, order[..|order| - 1]) + [Get(p, order[|order| - 1])]
  }

  /** Entry i of the vector is the frequency of the i-th listed k-mer, 0
      when the profile lacks it. */
  lemma {:induction false} VectorEntries(p: Profile, order: seq<Kmer>)
    ensures forall i :: 0 <= i < |order| ==> Vector(p, order)[i] == Get(p, order[i])
  {
    if order != [] {
      var init := order[..|order| - 1];
      VectorEntries(p, init);
      assert forall i :: 0 <= i < |init| ==> order[i] == init[i];
    }
  }

  /** np.dot of two vectors of the same length. */
  function SeqDot(u: seq<real>, v: seq<real>): (d: real)
    requires |u| == |v|
    ensures (forall i :: 0 <= i < |u| ==> 0.0 <= u[i] && 0.0 <= v[i]) ==> 0.0 <= d
  {
    if u == [] then 0.0 else SeqDot(u[..|u| - 1], v[..|v| - 1]) + Mul(u[|u| - 1], v[|v| - 1])
  }

  /** No k-mer is listed twice. */
  ghost predicate Distinct(order: seq<Kmer>)
  {
    forall s, t :: 0 <= s < t < |order| ==> order[s] != order[t]
  }

  ghost function Elements(order: seq<Kmer>): set<Kmer>
  {
    set w | w in order
  }

  /** Lists the union of the two profiles' k-mers once each, in whatever order
      the set yields them, builds both frequency vectors in that order and
      combines their dot product and norms. */
  method CompareKmerProfiles(p1: Profile, p2: Profile, root: real -> real) returns (sim: real)
    ensures sim == Cosine(p1, p2, root)
  {
    var keys := p1.Keys + p2.Keys;
    if keys == {} {
      return 0.0;
    }
    var vector1, vector2: seq<real> := [], [];
    ghost var order: seq<Kmer> := [];
    var rest := keys;
    while rest != {}
      invariant keys == rest + Elements(order)
      invariant rest !! Elements(order)
      invariant Distinct(order)
      invariant vector1 == Vector(p1, order) && vector2 == Vector(p2, order)
      decreases |rest|
    {
      var w :| w in rest;
      ListStep(order, rest, w);
      VectorAppend(p1, order, w);
      VectorAppend(p2, order, w);
      vector1, vector2 := vector1 + [Get(p1, w)], vector2 + [Get(p2, w)];
      order := order + [w];
      rest := rest - {w};
    }
    VectorDot(order, p1, p2);
    VectorDot(order, p1, p1);
    VectorDot(order, p2, p2);
    var dotProduct := SeqDot(vector1, vector2);
    var norm1 := root(SeqDot(vector1, vector1));
    var norm2 := root(SeqDot(vector2, vector2));
    sim := GuardedQuotient(dotProduct, norm1, norm2);
  }

  /** Listing one more k-mer taken from the ones not listed yet. */
  lemma ListStep(order: seq<Kmer>, rest: set<Kmer>, w: Kmer)
    requires Distinct(order) && rest !! Elements(order) && w in rest
    ensures Distinct(order + [w])
    ensures (rest - {w}) + Elements(order + [w]) == rest + Elements(order)
    ensures (rest - {w}) !! Elements(order + [w])
  {
    assert Elements(order + [w]) == Elements(order) + {w};
  }

  lemma VectorAppend(p: Profile, order: seq<Kmer>, w: Kmer)
    ensures Vector(p, order + [w]) == Vector(p, order) + [Get(p, w)]
  {
    assert (order + [w])[..|order|] == order;
  }

  lemma SeqDotUnfold(u: seq<real>, v: seq<real>)
    requires |u| == |v| > 0
    ensures SeqDot(u, v) == SeqDot(u[..|u| - 1], v[..|v| - 1]) + Mul(u[|u| - 1], v[|v| - 1])
  {
  }

  /** The dot product of the two vectors is the sum over the listed k-mers,
      whatever the order they are listed in. */
  lemma {:induction false} VectorDot(order: seq<Kmer>, p: Profile, q: Profile)
    requires Distinct(order)
    ensures SeqDot(Vector(p, order), Vector(q, order)) == Dot(Elements(order), p, q)
  {
    if order == [] {
      assert Elements(order) == {};
    } else {
      var init, w := order[..|order| - 1], order[|order| - 1];
      assert order == init + [w];
      VectorDot(init, p, q);
      var u, v := Vector(p, order), Vector(q, order);
      assert u[..|u| - 1] == Vector(p, init) && v[..|v| - 1] == Vector(q, init);
      assert u[|u| - 1] == Get(p, w) && v[|v| - 1] == Get(q, w);
      SeqDotUnfold(u, v);
      assert SeqDot(u, v) == Dot(Elements(init), p, q) + DotTerm(p, q)(w);
      assert Elements(order) == Elements(init) + {w};
      assert w !in Elements(init);
      SumInsert(Elements(init), DotTerm(p, q), w);
    }
  }

  /** Swapping the two profiles does not change the similarity. */
  lemma CosineSymmetric(p: Profile, q: Profile, root: real -> real)
    ensures Cosine(p, q, root) == Cosine(q, p, root)
  {
    var keys := p.Keys + q.Keys;
    assert q.Keys + p.Keys == keys;
    SumCongruent(keys, DotTerm(p, q), DotTerm(q, p));
  }

  /** A k-mer missing from a profile contributes nothing. */
  lemma DotOfEmpty(keys: set<Kmer>, q: Profile)
    ensures Dot(keys, map[], q) == 0.0
    ensures Dot(keys, q, map[]) == 0.0
  {
    SumZero(keys, DotTerm(map[], q));
    SumZero(keys, DotTerm(q, map[]));
  }

  /** Zero divided by anything is zero. */
  lemma ZeroQuotient(norm1: real, norm2: real)
    ensures GuardedQuotient(0.0, norm1, norm2) == 0.0
  {
  }

  /** A zero norm on either side gives 0, whatever the dot product. */
  lemma CosineZeroNorm(p: Profile, q: Profile, root: real -> real)
    requires p.Keys + q.Keys != {}
    requires root(Dot(p.Keys + q.Keys, p, p)) == 0.0 || root(Dot(p.Keys + q.Keys, q, q)) == 0.0
    ensures Cosine(p, q, root) == 0.0
  {
  }

  /** A profile with no k-mers is similar to nothing. */
  lemma CosineWithEmpty(p: Profile, q: Profile, root: real -> real)
    requires p == map[] || q == map[]
    ensures Cosine(p, q, root) == 0.0
  {
    var keys := p.Keys + q.Keys;
    if keys != {} {
      DotOfEmpty(keys, if p == map[] then q else p);
      ZeroQuotient(root(Dot(keys, p, p)), root(Dot(keys, q, q)));
    }
  }

  /** The product of two non-negative numbers is non-negative. */
  lemma NonNegativeProduct(x: real, y: real)
    requires 0.0 <= x && 0.0 <= y
    ensures 0.0 <= Mul(x, y)
  {
  }

  /** The product of two positive numbers is positive. */
  lemma PositiveProduct(x: real, y: real)
    requires 0.0 < x && 0.0 < y
    ensures 0.0 < Mul(x, y)
  {
  }

  /** A non-negative number divided by a product of positives is non-negative. */
  lemma NonNegativeQuotient(x: real, y: real, z: real)
    requires 0.0 <= x && 0.0 < y && 0.0 < z
    ensures 0.0 <= x / (y * z)
  {
  }

  /** The square root of a positive number is not 0, and the number divided
      by the square of its square root is 1. */
  lemma QuotientOfSquare(d: real, n: real)
    requires 0.0 < d && 0.0 <= n && n * n == d
    ensures n != 0.0 && d / (n * n) == 1.0
  {
  }

  /** Dot products of non-negative profiles are non-negative. */
  lemma DotNonNegative(keys: set<Kmer>, p: Profile, q: Profile)
    requires forall w :: w in p ==> 0.0 <= p[w]
    requires forall w :: w in q ==> 0.0 <= q[w]
    ensures 0.0 <= Dot(keys, p, q)
  {
    forall w | w in keys
      ensures 0.0 <= DotTerm(p, q)(w)
    {
      NonNegativeProduct(Get(p, w), Get(q, w));
    }
    SumNonNegative(keys, DotTerm(p, q));
  }

  /** Profiles whose frequencies are non-negative are never dissimilar. */
  lemma CosineNonNegative(p: Profile, q: Profile, root: real -> real)
    requires IsSquareRoot(root)
    requires forall w :: w in p ==> 0.0 <= p[w]
    requires forall w :: w in q ==> 0.0 <= q[w]
    ensures 0.0 <= Cosine(p, q, root)
  {
    var keys := p.Keys + q.Keys;
    if keys != {} {
      DotNonNegative(keys, p, q);
      DotNonNegative(keys, p, p);
      DotNonNegative(keys, q, q);
      var norm1 := root(Dot(keys, p, p));
      var norm2 := root(Dot(keys, q, q));
      if norm1 != 0.0 && norm2 != 0.0 {
        NonNegativeQuotient(Dot(keys, p, q), norm1, norm2);
      }
    }
  }

  /** The squared norm of a non-empty profile with positive frequencies is positive. */
  lemma NormPositive(p: Profile)
    requires p != map[]
    requires forall w :: w in p ==> 0.0 < p[w]
    ensures 0.0 < Dot(p.Keys, p, p)
  {
    var w :| w in p;
    forall v | v in p.Keys
      ensures 0.0 <= DotTerm(p, p)(v)
    {
      NonNegativeProduct(p[v], p[v]);
    }
    PositiveTerm(p, w);
    SumPositive(p.Keys, DotTerm(p, p), w);
  }

  /** A k-mer with a positive frequency contributes positively to the squared norm. */
  lemma PositiveTerm(p: Profile, w: Kmer)
    requires w in p && 0.0 < p[w]
    ensures 0.0 < DotTerm(p, p)(w)
  {
    PositiveProduct(p[w], p[w]);
  }

  /** A non-empty profile with positive frequencies, such as every non-empty
      result of KmerProfile, is fully similar to itself. */
  lemma CosineSelf(p: Profile, root: real -> real)
    requires IsSquareRoot(root)
    requires p != map[]
    requires forall w :: w in p ==> 0.0 < p[w]
    ensures Cosine(p, p, root) == 1.0
  {
    NormPositive(p);
    var d := Dot(p.Keys, p, p);
    var norm := root(d);
    assert 0.0 <= norm && norm * norm == d;
    QuotientOfSquare(d, norm);
    SelfCosineUnfold(p, root);
    NonZeroNorms(d, norm, norm);
  }

  lemma NonZeroNorms(dot: real, norm1: real, norm2: real)
    requires norm1 != 0.0 && norm2 != 0.0
    ensures GuardedQuotient(dot, norm1, norm2) == dot / (norm1 * norm2)
  {
  }

  lemma SelfCosineUnfold(p: Profile, root: real -> real)
    requires p != map[]
    ensures Cosine(p, p, root) == GuardedQuotient(Dot(p.Keys, p, p), root(Dot(p.Keys, p, p)), root(Dot(p.Keys, p, p)))
  {
    assert p.Keys + p.Keys == p.Keys;
  }
}
