/** The all-against-all comparison of the genomes: four n x n similarity
    matrices (k-mer cosine, windowed match, GC correlation, relative size),
    their weighted composite, and the table of the pairs i < j. The genome
    at index i is the i-th strain; a genome may be the empty
    sequence, which the comparison guards against. */
module ComparisonMatrix {
  import opened Optional
  import opened Sums
  import opened KmerProfiles
  import opened KmerCosine
  import opened WindowSimilarity
  import opened GcCorrelation

  function Max(x: nat, y: nat): (m: nat)
    ensures x <= m && y <= m && (m == x || m == y)
  {
    if x < y then y else x
  }

  /** The size similarity 1 - |l1 - l2| / max(l1, l2) of two genome lengths. */
  function SizeSimilarity(l1: nat, l2: nat): (r: real)
    requires 0 < Max(l1, l2)
    ensures r <= 1.0
    ensures l1 == l2 ==> r == 1.0
  {
    var diff := if l1 < l2 then l2 - l1 else l1 - l2;
    1.0 - diff as real / Max(l1, l2) as real
  }

  /** The size similarity is a share: it lies in [0, 1]. */
  lemma SizeSimilarityBounds(l1: nat, l2: nat)
    requires 0 < Max(l1, l2)
    ensures 0.0 <= SizeSimilarity(l1, l2) <= 1.0
  {
    var diff := if l1 < l2 then l2 - l1 else l1 - l2;
    ShareBounds(diff, Max(l1, l2));
  }

  /** Two genomes are of full size similarity exactly when their lengths
      are equal. */
  lemma SizeSimilarityOne(l1: nat, l2: nat)
    requires 0 < Max(l1, l2)
    ensures SizeSimilarity(l1, l2) == 1.0 <==> l1 == l2
  {
    var diff := if l1 < l2 then l2 - l1 else l1 - l2;
    ShareBounds(diff, Max(l1, l2));
  }

  lemma SizeSimilaritySymmetric(l1: nat, l2: nat)
    requires 0 < Max(l1, l2)
    ensures SizeSimilarity(l1, l2) == SizeSimilarity(l2, l1)
  {
  }

  /** The four scores of one pair of genomes. */
  datatype Scores = Scores(kmer: real, sequence: real, gc: real, size: real)

  /** The scores the loop computes for a pair of non-empty genomes: cosine of
      the tetranucleotide profiles, windowed match with the default window
      of 1000, GC correlation with windows of 1000, and the size similarity. */
  ghost function PairScores(s1: seq<char>, s2: seq<char>, root: real -> real,
                            pearson: (seq<real>, seq<real>) -> Option<real>): Scores
    requires s1 != [] && s2 != []
  {
    Scores(Cosine(ProfileOf(s1, TetraK), ProfileOf(s2, TetraK), root),
           Similarity(s1, s2, DefaultWindow),
           GcSimilarity(s1, s2, DefaultWindow, pearson),
           SizeSimilarity(|s1|, |s2|))
  }

  /** The final content of cell [p, q] of the four matrices: 1 on the
      diagonal; elsewhere the scores of the pair (min(p, q), max(p, q)) when
      both genomes are non-empty, and the initial 0 otherwise. */
  ghost function CellScores(genomes: seq<seq<char>>, p: nat, q: nat, root: real -> real,
                            pearson: (seq<real>, seq<real>) -> Option<real>): Scores
    requires p < |genomes| && q < |genomes|
  {
    if p == q then Scores(1.0, 1.0, 1.0, 1.0)
    else
      var i, j := Min(p, q), Max(p, q);
      if genomes[i] != [] && genomes[j] != [] then PairScores(genomes[i], genomes[j], root, pearson)
      else Scores(0.0, 0.0, 0.0, 0.0)
  }

  /** The four matrices after create_comparison_matrix. */
  ghost predicate MatricesHold(kmer: array2<real>, sequence: array2<real>, gc: array2<real>, size: array2<real>,
                               genomes: seq<seq<char>>, root: real -> real,
                               pearson: (seq<real>, seq<real>) -> Option<real>)
    reads kmer, sequence, gc, size
  {
    var n := |genomes|;
    kmer.Length0 == n && kmer.Length1 == n && sequence.Length0 == n && sequence.Length1 == n &&
    gc.Length0 == n && gc.Length1 == n && size.Length0 == n && size.Length1 == n &&
    forall p, q :: 0 <= p < n && 0 <= q < n ==>
      var v := CellScores(genomes, p, q, root, pearson);
      kmer[p, q] == v.kmer && sequence[p, q] == v.sequence && gc[p, q] == v.gc && size[p, q] == v.size
  }

  /** Row-major progress of the nested loop at row i, column j: the cells
      written so far are those whose smaller index is below i, or is i with
      the larger index below j. */
  predicate Done(p: nat, q: nat, i: nat, j: nat)
  {
    Min(p, q) < i || (Min(p, q) == i && Max(p, q) < j)
  }

  /** The cells of `M` written so far hold `cell`, the others are 0. */
  ghost predicate Filled(M: array2<real>, n: nat, cell: (nat, nat) -> real, i: nat, j: nat)
    reads M
  {
    M.Length0 == n && M.Length1 == n &&
    forall p, q :: 0 <= p < n && 0 <= q < n ==>
      M[p, q] == (if Done(p, q, i, j) then cell(p, q) else 0.0)
  }

  function Kmers(cell: (nat, nat) -> Scores): (nat, nat) -> real
  {
    (p: nat, q: nat) => cell(p, q).kmer
  }

  function Sequences(cell: (nat, nat) -> Scores): (nat, nat) -> real
  {
    (p: nat, q: nat) => cell(p, q).sequence
  }

  function Gcs(cell: (nat, nat) -> Scores): (nat, nat) -> real
  {
    (p: nat, q: nat) => cell(p, q).gc
  }

  function Sizes(cell: (nat, nat) -> Scores): (nat, nat) -> real
  {
    (p: nat, q: nat) => cell(p, q).size
  }

  /** Progress of the loop on all four matrices at once. */
  ghost predicate AllFilled(kmer: array2<real>, sequence: array2<real>, gc: array2<real>, size: array2<real>,
                            n: nat, cell: (nat, nat) -> Scores, i: nat, j: nat)
    reads kmer, sequence, gc, size
  {
    Filled(kmer, n, Kmers(cell), i, j) && Filled(sequence, n, Sequences(cell), i, j) &&
    Filled(gc, n, Gcs(cell), i, j) && Filled(size, n, Sizes(cell), i, j)
  }

  /** Four different matrices: writing one leaves the others alone. */
  predicate Distinct4(a: array2<real>, b: array2<real>, c: array2<real>, d: array2<real>)
  {
    a != b && a != c && a != d && b != c && b != d && c != d
  }

  /** Sets the diagonal cell of row i of one matrix. */
  method SetDiagonal(M: array2<real>, n: nat, ghost cell: (nat, nat) -> real, i: nat)
    requires i < n && Filled(M, n, cell, i, i) && cell(i, i) == 1.0
    modifies M
    ensures Filled(M, n, cell, i, i + 1)
  {
    M[i, i] := 1.0;
  }

  /** Writes the value of the pair i < j to both [i, j] and [j, i] of one
      matrix. */
  method SetPair(M: array2<real>, n: nat, ghost cell: (nat, nat) -> real, i: nat, j: nat, v: real)
    requires i < j < n && Filled(M, n, cell, i, j)
    requires v == cell(i, j) && v == cell(j, i)
    modifies M
    ensures Filled(M, n, cell, i, j + 1)
  {
    M[i, j] := v;
    M[j, i] := v;
  }

  /** The diagonal step on the four matrices. */
  method SetDiagonals(kmer: array2<real>, sequence: array2<real>, gc: array2<real>, size: array2<real>,
                      n: nat, ghost cell: (nat, nat) -> Scores, i: nat)
    requires Distinct4(kmer, sequence, gc, size)
    requires i < n && AllFilled(kmer, sequence, gc, size, n, cell, i, i)
    requires cell(i, i) == Scores(1.0, 1.0, 1.0, 1.0)
    modifies kmer, sequence, gc, size
    ensures AllFilled(kmer, sequence, gc, size, n, cell, i, i + 1)
  {
    SetDiagonal(kmer, n, Kmers(cell), i);
    SetDiagonal(sequence, n, Sequences(cell), i);
    SetDiagonal(gc, n, Gcs(cell), i);
    SetDiagonal(size, n, Sizes(cell), i);
  }

  /** The pair step on the four matrices. */
  method SetPairs(kmer: array2<real>, sequence: array2<real>, gc: array2<real>, size: array2<real>,
                  n: nat, ghost cell: (nat, nat) -> Scores, i: nat, j: nat, v: Scores)
    requires Distinct4(kmer, sequence, gc, size)
    requires i < j < n && AllFilled(kmer, sequence, gc, size, n, cell, i, j)
    requires cell(i, j) == v && cell(j, i) == v
    modifies kmer, sequence, gc, size
    ensures AllFilled(kmer, sequence, gc, size, n, cell, i, j + 1)
  {
    SetPair(kmer, n, Kmers(cell), i, j, v.kmer);
    SetPair(sequence, n, Sequences(cell), i, j, v.sequence);
    SetPair(gc, n, Gcs(cell), i, j, v.gc);
    SetPair(size, n, Sizes(cell), i, j, v.size);
  }

  /** An iteration that writes nothing: below the diagonal, or a pair whose
      cells keep their initial 0. */
  lemma SkipCell(kmer: array2<real>, sequence: array2<real>, gc: array2<real>, size: array2<real>,
                 n: nat, cell: (nat, nat) -> Scores, i: nat, j: nat)
    requires i < n && j < n && i != j && AllFilled(kmer, sequence, gc, size, n, cell, i, j)
    requires i < j ==> cell(i, j) == Scores(0.0, 0.0, 0.0, 0.0) && cell(j, i) == Scores(0.0, 0.0, 0.0, 0.0)
    ensures AllFilled(kmer, sequence, gc, size, n, cell, i, j + 1)
  {
  }

  /** A finished row is the start of the next one. */
  lemma NextRow(kmer: array2<real>, sequence: array2<real>, gc: array2<real>, size: array2<real>,
                n: nat, cell: (nat, nat) -> Scores, i: nat)
    requires AllFilled(kmer, sequence, gc, size, n, cell, i, n)
    ensures AllFilled(kmer, sequence, gc, size, n, cell, i + 1, 0)
  {
  }

  /** The final values of the cells, as one function (0 outside the matrix). */
  ghost function Cells(genomes: seq<seq<char>>, root: real -> real,
                       pearson: (seq<real>, seq<real>) -> Option<real>): (nat, nat) -> Scores
  {
    (p: nat, q: nat) => if p < |genomes| && q < |genomes| then CellScores(genomes, p, q, root, pearson)
                        else Scores(0.0, 0.0, 0.0, 0.0)
  }

  /** Before the loop: nothing is written and every cell is 0. */
  lemma NothingFilled(kmer: array2<real>, sequence: array2<real>, gc: array2<real>, size: array2<real>,
                      genomes: seq<seq<char>>, root: real -> real,
                      pearson: (seq<real>, seq<real>) -> Option<real>)
    requires var n := |genomes|;
      kmer.Length0 == n && kmer.Length1 == n && sequence.Length0 == n && sequence.Length1 == n &&
      gc.Length0 == n && gc.Length1 == n && size.Length0 == n && size.Length1 == n
    requires forall p, q :: 0 <= p < |genomes| && 0 <= q < |genomes| ==>
      kmer[p, q] == 0.0 && sequence[p, q] == 0.0 && gc[p, q] == 0.0 && size[p, q] == 0.0
    ensures AllFilled(kmer, sequence, gc, size, |genomes|, Cells(genomes, root, pearson), 0, 0)
  {
  }

  /** After the last row every cell holds its final value. */
  lemma AllRows(kmer: array2<real>, sequence: array2<real>, gc: array2<real>, size: array2<real>,
                genomes: seq<seq<char>>, root: real -> real,
                pearson: (seq<real>, seq<real>) -> Option<real>)
    requires AllFilled(kmer, sequence, gc, size, |genomes|, Cells(genomes, root, pearson), |genomes|, 0)
    ensures MatricesHold(kmer, sequence, gc, size, genomes, root, pearson)
  {
    var cell := Cells(genomes, root, pearson);
    forall p, q | 0 <= p < |genomes| && 0 <= q < |genomes|
      ensures kmer[p, q] == cell(p, q).kmer && sequence[p, q] == cell(p, q).sequence
      ensures gc[p, q] == cell(p, q).gc && size[p, q] == cell(p, q).size
    {
      assert Done(p, q, |genomes|, 0);
    }
  }

  /** The tetranucleotide profile of every non-empty genome, computed once
      before the pairs are compared. */
  method ProfileAll(genomes: seq<seq<char>>) returns (profiles: seq<Profile>)
    ensures |profiles| == |genomes|
    ensures forall t :: 0 <= t < |genomes| && genomes[t] != [] ==> profiles[t] == ProfileOf(genomes[t], TetraK)
  {
    profiles := [];
    for i := 0 to |genomes|
      invariant |profiles| == i
      invariant forall t :: 0 <= t < i && genomes[t] != [] ==> profiles[t] == ProfileOf(genomes[t], TetraK)
    {
      var profile: Profile := map[];
      if genomes[i] != [] {
        profile := KmerProfile(genomes[i], TetraK);
      }
      profiles := profiles + [profile];
    }
  }

  /** The four scores of the pair i < j of non-empty genomes, computed from
      the two sequences and their profiles. */
  method ComparePair(seq1: seq<char>, seq2: seq<char>, profile1: Profile, profile2: Profile,
                     root: real -> real, pearson: (seq<real>, seq<real>) -> Option<real>)
    returns (scores: Scores)
    requires seq1 != [] && seq2 != []
    requires profile1 == ProfileOf(seq1, TetraK) && profile2 == ProfileOf(seq2, TetraK)
    ensures scores == PairScores(seq1, seq2, root, pearson)
  {
    var kmerSim := CompareKmerProfiles(profile1, profile2, root);
    var seqSim := SequenceSimilarity(seq1, seq2, DefaultWindow);
    var gcSim := AnalyzeGcSimilarity(seq1, seq2, DefaultWindow, pearson);
    var sizeSim := SizeSimilarity(|seq1|, |seq2|);
    scores := Scores(kmerSim, seqSim, gcSim, sizeSim);
  }

  /** Cell (p, q) of the combined cell function inside the matrix. */
  lemma CellAt(genomes: seq<seq<char>>, root: real -> real,
               pearson: (seq<real>, seq<real>) -> Option<real>, p: nat, q: nat)
    requires p < |genomes| && q < |genomes|
    ensures Cells(genomes, root, pearson)(p, q) == CellScores(genomes, p, q, root, pearson)
  {
  }

  /** One iteration of the outer loop: row i of the four matrices, j running
      over every column. */
  method FillRow(genomes: seq<seq<char>>, profiles: seq<Profile>, root: real -> real,
                 pearson: (seq<real>, seq<real>) -> Option<real>,
                 kmer: array2<real>, sequence: array2<real>, gc: array2<real>, size: array2<real>, i: nat)
    requires i < |genomes| && |profiles| == |genomes|
    requires forall t :: 0 <= t < |genomes| && genomes[t] != [] ==> profiles[t] == ProfileOf(genomes[t], TetraK)
    requires Distinct4(kmer, sequence, gc, size)
    requires AllFilled(kmer, sequence, gc, size, |genomes|, Cells(genomes, root, pearson), i, 0)
    modifies kmer, sequence, gc, size
    ensures AllFilled(kmer, sequence, gc, size, |genomes|, Cells(genomes, root, pearson), i + 1, 0)
  {
    var n := |genomes|;
    ghost var cell := Cells(genomes, root, pearson);
    for j := 0 to n
      invariant AllFilled(kmer, sequence, gc, size, n, cell, i, j)
    {
      CellAt(genomes, root, pearson, i, j);
      CellAt(genomes, root, pearson, j, i);
      if i == j {
        SetDiagonals(kmer, sequence, gc, size, n, cell, i);
      } else if i < j && genomes[i] != [] && genomes[j] != [] {
        var scores := ComparePair(genomes[i], genomes[j], profiles[i], profiles[j], root, pearson);
        SetPairs(kmer, sequence, gc, size, n, cell, i, j, scores);
      } else {
        SkipCell(kmer, sequence, gc, size, n, cell, i, j);
      }
    }
    NextRow(kmer, sequence, gc, size, n, cell, i);
  }

  /** np.zeros((n, n)). */
  method Zeros(n: nat) returns (M: array2<real>)
    ensures fresh(M) && M.Length0 == n && M.Length1 == n
    ensures forall p, q :: 0 <= p < n && 0 <= q < n ==> M[p, q] == 0.0
  {
    M := new real[n, n]((p, q) => 0.0);
  }

  /** Computes the profile of every non-empty genome, then fills the four
      matrices with nested loops over i and j: 1 on the diagonal, and for
      i < j with both genomes non-empty the four scores, each written to [i, j]
      and [j, i]. */
  method CreateComparisonMatrix(genomes: seq<seq<char>>, root: real -> real,
                                pearson: (seq<real>, seq<real>) -> Option<real>)
    returns (kmer: array2<real>, sequence: array2<real>, gc: array2<real>, size: array2<real>)
    ensures fresh(kmer) && fresh(sequence) && fresh(gc) && fresh(size)
    ensures MatricesHold(kmer, sequence, gc, size, genomes, root, pearson)
  {
    var n := |genomes|;
    var profiles := ProfileAll(genomes);
    kmer := Zeros(n);
    sequence := Zeros(n);
    gc := Zeros(n);
    size := Zeros(n);
    NothingFilled(kmer, sequence, gc, size, genomes, root, pearson);
    for i := 0 to n
      invariant AllFilled(kmer, sequence, gc, size, n, Cells(genomes, root, pearson), i, 0)
      invariant Distinct4(kmer, sequence, gc, size)
    {
      FillRow(genomes, profiles, root, pearson, kmer, sequence, gc, size, i);
    }
    AllRows(kmer, sequence, gc, size, genomes, root, pearson);
  }

  /** Scoring a pair in either order gives the same four values, provided
      the correlation is symmetric; this is why the loop may compute only
      i < j and mirror the result. */
  lemma PairScoresSymmetric(s1: seq<char>, s2: seq<char>, root: real -> real,
                            pearson: (seq<real>, seq<real>) -> Option<real>)
    requires s1 != [] && s2 != []
    requires forall x, y :: pearson(x, y) == pearson(y, x)
    ensures PairScores(s1, s2, root, pearson) == PairScores(s2, s1, root, pearson)
  {
    CosineSymmetric(ProfileOf(s1, TetraK), ProfileOf(s2, TetraK), root);
    SimilaritySymmetric(s1, s2, DefaultWindow);
    GcSimilaritySymmetric(s1, s2, DefaultWindow, pearson);
    SizeSimilaritySymmetric(|s1|, |s2|);
  }

  /** The bounds of the scores of a pair: the k-mer cosine is non-negative,
      the windowed match and the size similarity are shares in [0, 1]. The
      GC score is a correlation and has no such bound. */
  lemma PairScoresBounds(s1: seq<char>, s2: seq<char>, root: real -> real,
                         pearson: (seq<real>, seq<real>) -> Option<real>)
    requires s1 != [] && s2 != []
    requires IsSquareRoot(root)
    ensures var v := PairScores(s1, s2, root, pearson);
      0.0 <= v.kmer && 0.0 <= v.sequence <= 1.0 && 0.0 <= v.size <= 1.0
  {
    ProfileShape(s1, TetraK);
    ProfileShape(s2, TetraK);
    CosineNonNegative(ProfileOf(s1, TetraK), ProfileOf(s2, TetraK), root);
    SimilarityUnitInterval(s1, s2, DefaultWindow);
    SizeSimilarityBounds(|s1|, |s2|);
  }

  /** The fixed diagonal value 1 agrees with what the scorers give a genome
      against itself, for a genome of at least 20 bases with a countable
      tetranucleotide: cosine, windowed match and size are all 1. */
  lemma PairScoresSelf(s: seq<char>, root: real -> real, pearson: (seq<real>, seq<real>) -> Option<real>)
    requires IsSquareRoot(root)
    requires 2 * MinimumWindow <= |s| && ProfileOf(s, TetraK) != map[]
    ensures var v := PairScores(s, s, root, pearson);
      v.kmer == 1.0 && v.sequence == 1.0 && v.size == 1.0
  {
    ProfileShape(s, TetraK);
    CosineSelf(ProfileOf(s, TetraK), root);
    SimilaritySelf(s, DefaultWindow);
    SizeSimilarityOne(|s|, |s|);
  }

  /** The shape of the four matrices: symmetric, 1 on the diagonal, and 0
      off the diagonal in the row and the column of an empty genome. */
  lemma MatricesShape(kmer: array2<real>, sequence: array2<real>, gc: array2<real>, size: array2<real>,
                      genomes: seq<seq<char>>, root: real -> real,
                      pearson: (seq<real>, seq<real>) -> Option<real>)
    requires MatricesHold(kmer, sequence, gc, size, genomes, root, pearson)
    ensures forall p, q :: 0 <= p < |genomes| && 0 <= q < |genomes| ==>
      kmer[p, q] == kmer[q, p] && sequence[p, q] == sequence[q, p] &&
      gc[p, q] == gc[q, p] && size[p, q] == size[q, p]
    ensures forall p :: 0 <= p < |genomes| ==>
      kmer[p, p] == 1.0 && sequence[p, p] == 1.0 && gc[p, p] == 1.0 && size[p, p] == 1.0
    ensures forall p, q ::
      0 <= p < |genomes| && 0 <= q < |genomes| && p != q && (genomes[p] == [] || genomes[q] == []) ==>
      kmer[p, q] == 0.0 && sequence[p, q] == 0.0 && gc[p, q] == 0.0 && size[p, q] == 0.0
  {
    forall p, q | 0 <= p < |genomes| && 0 <= q < |genomes|
      ensures CellScores(genomes, p, q, root, pearson) == CellScores(genomes, q, p, root, pearson)
    {
      assert Min(p, q) == Min(q, p) && Max(p, q) == Max(q, p);
    }
  }

  /** Every cell of the k-mer matrix is non-negative, and every cell of the
      sequence and size matrices lies in [0, 1]. */
  lemma MatricesBounds(kmer: array2<real>, sequence: array2<real>, gc: array2<real>, size: array2<real>,
                       genomes: seq<seq<char>>, root: real -> real,
                       pearson: (seq<real>, seq<real>) -> Option<real>)
    requires MatricesHold(kmer, sequence, gc, size, genomes, root, pearson)
    requires IsSquareRoot(root)
    ensures forall p, q :: 0 <= p < |genomes| && 0 <= q < |genomes| ==>
      0.0 <= kmer[p, q] && 0.0 <= sequence[p, q] <= 1.0 && 0.0 <= size[p, q] <= 1.0
  {
    forall p, q | 0 <= p < |genomes| && 0 <= q < |genomes|
      ensures var v := CellScores(genomes, p, q, root, pearson);
        0.0 <= v.kmer && 0.0 <= v.sequence <= 1.0 && 0.0 <= v.size <= 1.0
    {
      var i, j := Min(p, q), Max(p, q);
      if p != q && genomes[i] != [] && genomes[j] != [] {
        PairScoresBounds(genomes[i], genomes[j], root, pearson);
      }
    }
  }
}
