/** The weighted composite of the four similarity matrices and the summary
    table that lists every pair of strains i < j once, in row-major order,
    with its four scores, the composite and the genetic distance
    1 - composite. */
module ComparisonSummary {
  import opened Optional
  import opened ComparisonMatrix

  /** The fixed weights of create_composite_similarity_matrix. */
  const KmerWeight: real := 0.4
  const SequenceWeight: real := 0.3
  const GcWeight: real := 0.2
  const SizeWeight: real := 0.1

  /** The composite score of one cell. */
  function Weighted(v: Scores): (c: real)
    ensures 0.0 <= v.kmer <= 1.0 && 0.0 <= v.sequence <= 1.0 && 0.0 <= v.gc <= 1.0 && 0.0 <= v.size <= 1.0
            ==> 0.0 <= c <= 1.0
  {
    KmerWeight * v.kmer + SequenceWeight * v.sequence + GcWeight * v.gc + SizeWeight * v.size
  }

  /** The weights add up to 1, so four scores of 1 weigh 1 and four scores
      of 0 weigh 0. */
  lemma WeightedConstant(x: real)
    ensures Weighted(Scores(x, x, x, x)) == x
  {
  }

  /** The four matrices have the same n x n shape. */
  predicate SameShape(kmer: array2<real>, sequence: array2<real>, gc: array2<real>, size: array2<real>, n: nat)
  {
    kmer.Length0 == n && kmer.Length1 == n && sequence.Length0 == n && sequence.Length1 == n &&
    gc.Length0 == n && gc.Length1 == n && size.Length0 == n && size.Length1 == n
  }

  /** The scores held in cell [p, q] of the four matrices. */
  function CellOf(kmer: array2<real>, sequence: array2<real>, gc: array2<real>, size: array2<real>,
                  p: nat, q: nat): Scores
    reads kmer, sequence, gc, size
    requires p < kmer.Length0 && q < kmer.Length1 && p < sequence.Length0 && q < sequence.Length1
    requires p < gc.Length0 && q < gc.Length1 && p < size.Length0 && q < size.Length1
  {
    Scores(kmer[p, q], sequence[p, q], gc[p, q], size[p, q])
  }

  /** `composite` is the cell-wise weighted sum of the four matrices. */
  ghost predicate CompositeOf(composite: array2<real>,
                              kmer: array2<real>, sequence: array2<real>, gc: array2<real>, size: array2<real>,
                              n: nat)
    reads composite, kmer, sequence, gc, size
  {
    SameShape(kmer, sequence, gc, size, n) && composite.Length0 == n && composite.Length1 == n &&
    forall p, q :: 0 <= p < n && 0 <= q < n ==> composite[p, q] == Weighted(CellOf(kmer, sequence, gc, size, p, q))
  }

  /** The 0.4 / 0.3 / 0.2 / 0.1 weighted sum of the four matrices, as a new
      matrix. */
  method CreateCompositeMatrix(kmer: array2<real>, sequence: array2<real>, gc: array2<real>, size: array2<real>)
    returns (composite: array2<real>)
    requires SameShape(kmer, sequence, gc, size, kmer.Length0)
    ensures fresh(composite)
    ensures CompositeOf(composite, kmer, sequence, gc, size, kmer.Length0)
  {
    var n := kmer.Length0;
    composite := new real[n, n]((p: nat, q: nat) reads kmer, sequence, gc, size
                                  requires p < n && q < n =>
                                  Weighted(CellOf(kmer, sequence, gc, size, p, q)));
  }

  /** The composite of the comparison matrices keeps their shape: symmetric,
      1 on the diagonal, and 0 off the diagonal for an empty genome. */
  lemma CompositeShape(composite: array2<real>,
                       kmer: array2<real>, sequence: array2<real>, gc: array2<real>, size: array2<real>,
                       genomes: seq<seq<char>>, root: real -> real,
                       pearson: (seq<real>, seq<real>) -> Option<real>)
    requires MatricesHold(kmer, sequence, gc, size, genomes, root, pearson)
    requires CompositeOf(composite, kmer, sequence, gc, size, |genomes|)
    ensures forall p, q :: 0 <= p < |genomes| && 0 <= q < |genomes| ==> composite[p, q] == composite[q, p]
    ensures forall p :: 0 <= p < |genomes| ==> composite[p, p] == 1.0
    ensures forall p, q ::
      0 <= p < |genomes| && 0 <= q < |genomes| && p != q && (genomes[p] == [] || genomes[q] == []) ==>
      composite[p, q] == 0.0
  {
    MatricesShape(kmer, sequence, gc, size, genomes, root, pearson);
    forall p | 0 <= p < |genomes|
      ensures composite[p, p] == 1.0
    {
      assert CellOf(kmer, sequence, gc, size, p, p) == Scores(1.0, 1.0, 1.0, 1.0);
      WeightedConstant(1.0);
    }
    forall p, q | 0 <= p < |genomes| && 0 <= q < |genomes| && p != q && (genomes[p] == [] || genomes[q] == [])
      ensures composite[p, q] == 0.0
    {
      assert CellOf(kmer, sequence, gc, size, p, q) == Scores(0.0, 0.0, 0.0, 0.0);
      WeightedConstant(0.0);
    }
    forall p, q | 0 <= p < |genomes| && 0 <= q < |genomes|
      ensures composite[p, q] == composite[q, p]
    {
      assert CellOf(kmer, sequence, gc, size, p, q) == CellOf(kmer, sequence, gc, size, q, p);
    }
  }

  /** One line of the summary table. */
  datatype Row = Row(strain1: string, strain2: string,
                     kmer: real, sequence: real, gc: real, size: real,
                     composite: real, distance: real)

  /** The summary line of the pair (p, q): the two strain names, the four
      scores and the composite from cell [p, q], and the genetic distance
      1 - composite. */
  function RowAt(names: seq<string>, kmer: array2<real>, sequence: array2<real>, gc: array2<real>,
                 size: array2<real>, composite: array2<real>, p: nat, q: nat): Row
    reads kmer, sequence, gc, size, composite
    requires SameShape(kmer, sequence, gc, size, |names|)
    requires composite.Length0 == |names| && composite.Length1 == |names|
    requires p < |names| && q < |names|
  {
    Row(names[p], names[q], kmer[p, q], sequence[p, q], gc[p, q], size[p, q],
        composite[p, q], 1.0 - composite[p, q])
  }

  /** The pairs (i, j) of row i for lo <= j < hi, in increasing j. */
  function RowPairs(i: nat, lo: nat, hi: nat): seq<(nat, nat)>
    decreases hi
  {
    if hi <= lo then [] else RowPairs(i, lo, hi - 1) + [(i, hi - 1)]
  }

  /** The pairs i < j < n of the first `rows` rows, row after row. */
  function PairsBefore(n: nat, rows: nat): seq<(nat, nat)>
  {
    if rows == 0 then [] else PairsBefore(n, rows - 1) + RowPairs(rows - 1, rows, n)
  }

  /** Every pair i < j < n, in the order the summary lists them. */
  function Pairs(n: nat): seq<(nat, nat)>
  {
    PairsBefore(n, n)
  }

  /** Row-major order: by first index, then by second. */
  predicate Before(a: (nat, nat), b: (nat, nat))
  {
    a.0 < b.0 || (a.0 == b.0 && a.1 < b.1)
  }

  predicate RowMajor(ps: seq<(nat, nat)>)
  {
    forall x, y :: 0 <= x < y < |ps| ==> Before(ps[x], ps[y])
  }

  lemma {:induction false} RowPairsMembers(i: nat, lo: nat, hi: nat)
    ensures |RowPairs(i, lo, hi)| == if hi <= lo then 0 else hi - lo
    ensures forall p: nat, q: nat :: (p, q) in RowPairs(i, lo, hi) <==> p == i && lo <= q < hi
    ensures RowMajor(RowPairs(i, lo, hi))
    decreases hi
  {
    if lo < hi {
      RowPairsMembers(i, lo, hi - 1);
      var ps := RowPairs(i, lo, hi - 1);
      forall x | 0 <= x < |ps|
        ensures Before(ps[x], (i, hi - 1))
      {
        assert ps[x] in ps;
      }
    }
  }

  /** The first `rows` rows hold rows * (2n - rows - 1) / 2 pairs. */
  lemma {:induction false} PairsBeforeCount(n: nat, rows: nat)
    requires rows <= n
    ensures 2 * |PairsBefore(n, rows)| == rows * (2 * n - rows - 1)
  {
    if rows > 0 {
      var front, back := PairsBefore(n, rows - 1), RowPairs(rows - 1, rows, n);
      PairsBeforeCount(n, rows - 1);
      RowPairsMembers(rows - 1, rows, n);
      assert |PairsBefore(n, rows)| == |front| + |back|;
      CountStep(n, rows);
    }
  }

  lemma CountStep(n: int, r: int)
    ensures (r - 1) * (2 * n - r) + 2 * (n - r) == r * (2 * n - r - 1)
  {
  }

  /** The first `rows` rows hold exactly the pairs p < q < n with p < rows. */
  lemma {:induction false} PairsBeforeMembers(n: nat, rows: nat)
    ensures forall p: nat, q: nat :: (p, q) in PairsBefore(n, rows) <==> p < rows && p < q < n
  {
    if rows > 0 {
      var i := rows - 1;
      PairsBeforeMembers(n, i);
      RowPairsMembers(i, rows, n);
      var front, back := PairsBefore(n, i), RowPairs(i, rows, n);
      assert PairsBefore(n, rows) == front + back;
      forall p: nat, q: nat
        ensures (p, q) in front + back <==> p < rows && p < q < n
      {
        assert (p, q) in front + back <==> (p, q) in front || (p, q) in back;
      }
    }
  }

  /** The first `rows` rows are listed in row-major order. */
  lemma {:induction false} PairsBeforeOrdered(n: nat, rows: nat)
    ensures RowMajor(PairsBefore(n, rows))
  {
    if rows > 0 {
      var i := rows - 1;
      PairsBeforeOrdered(n, i);
      PairsBeforeMembers(n, i);
      RowPairsMembers(i, rows, n);
      var front, back := PairsBefore(n, i), RowPairs(i, rows, n);
      assert PairsBefore(n, rows) == front + back;
      forall x, y | 0 <= x < |front| && 0 <= y < |back|
        ensures Before(front[x], back[y])
      {
        assert front[x] in front;
        assert back[y] in back;
      }
      ConcatOrdered(front, back);
    }
  }

  /** Two row-major lists, every element of the first before every element
      of the second, concatenate to a row-major list. */
  lemma ConcatOrdered(front: seq<(nat, nat)>, back: seq<(nat, nat)>)
    requires RowMajor(front) && RowMajor(back)
    requires forall x, y :: 0 <= x < |front| && 0 <= y < |back| ==> Before(front[x], back[y])
    ensures RowMajor(front + back)
  {
    var ps := front + back;
    forall x, y | 0 <= x < y < |ps|
      ensures Before(ps[x], ps[y])
    {
      if y < |front| {
        assert ps[x] == front[x] && ps[y] == front[y];
      } else if x < |front| {
        assert ps[x] == front[x] && ps[y] == back[y - |front|];
      } else {
        assert ps[x] == back[x - |front|] && ps[y] == back[y - |front|];
      }
    }
  }

  /** The summary lists n(n-1)/2 pairs: every p < q < n, each once, in
      row-major order. */
  lemma PairsComplete(n: nat)
    ensures 2 * |Pairs(n)| == n * (n - 1)
    ensures forall p: nat, q: nat :: (p, q) in Pairs(n) <==> p < q < n
    ensures RowMajor(Pairs(n))
  {
    PairsBeforeCount(n, n);
    PairsBeforeMembers(n, n);
    PairsBeforeOrdered(n, n);
  }

  /** The summary table: for i over the strains and j over the strains after
      i, one line for the pair (i, j). */
  method CreateComparisonSummary(names: seq<string>,
                                 kmer: array2<real>, sequence: array2<real>, gc: array2<real>,
                                 size: array2<real>, composite: array2<real>)
    returns (rows: seq<Row>)
    requires SameShape(kmer, sequence, gc, size, |names|)
    requires composite.Length0 == |names| && composite.Length1 == |names|
    ensures |rows| == |Pairs(|names|)|
    ensures forall k :: 0 <= k < |rows| ==>
      Pairs(|names|)[k].0 < |names| && Pairs(|names|)[k].1 < |names| &&
      rows[k] == RowAt(names, kmer, sequence, gc, size, composite, Pairs(|names|)[k].0, Pairs(|names|)[k].1)
  {
    var n := |names|;
    rows := [];
    ghost var done: seq<(nat, nat)> := [];
    for i := 0 to n
      invariant done == PairsBefore(n, i)
      invariant |rows| == |done|
      invariant forall k :: 0 <= k < |rows| ==>
        done[k].0 < n && done[k].1 < n &&
        rows[k] == RowAt(names, kmer, sequence, gc, size, composite, done[k].0, done[k].1)
    {
      for j := i + 1 to n
        invariant done == PairsBefore(n, i) + RowPairs(i, i + 1, j)
        invariant |rows| == |done|
        invariant forall k :: 0 <= k < |rows| ==>
          done[k].0 < n && done[k].1 < n &&
          rows[k] == RowAt(names, kmer, sequence, gc, size, composite, done[k].0, done[k].1)
      {
        rows := rows + [RowAt(names, kmer, sequence, gc, size, composite, i, j)];
        done := done + [(i, j)];
      }
    }
  }

  /** The summary line of a pair with an empty genome has
      distance 1; otherwise its scores are those of the two genomes and the
      distance is 1 minus their weighted sum. */
  lemma RowScores(names: seq<string>, composite: array2<real>,
                  kmer: array2<real>, sequence: array2<real>, gc: array2<real>, size: array2<real>,
                  genomes: seq<seq<char>>, root: real -> real,
                  pearson: (seq<real>, seq<real>) -> Option<real>, p: nat, q: nat)
    requires |names| == |genomes|
    requires MatricesHold(kmer, sequence, gc, size, genomes, root, pearson)
    requires CompositeOf(composite, kmer, sequence, gc, size, |genomes|)
    requires p < q < |genomes|
    ensures var r := RowAt(names, kmer, sequence, gc, size, composite, p, q);
      if genomes[p] == [] || genomes[q] == [] then r.distance == 1.0
      else
        var v := PairScores(genomes[p], genomes[q], root, pearson);
        r.kmer == v.kmer && r.sequence == v.sequence && r.gc == v.gc && r.size == v.size &&
        r.distance == 1.0 - Weighted(v)
  {
    CompositeShape(composite, kmer, sequence, gc, size, genomes, root, pearson);
    assert CellOf(kmer, sequence, gc, size, p, q) == CellScores(genomes, p, q, root, pearson);
  }
}
