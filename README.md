# Comparative genomics of Lactobacillus strains — a Dafny model

This project models the numeric core of a small comparative-genomics
pipeline, in two parts.

The first part is the all-against-all genome comparison of
`scripts/03_genome_comparison.py`:
- the GC percentage of a sequence;
- the tetranucleotide (k = 4) frequency profile of a genome;
- four pairwise similarity scores: k-mer cosine, windowed exact match,
  windowed GC correlation and relative size;
- the nested loops that fill the four n x n similarity matrices;
- their 0.4 / 0.3 / 0.2 / 0.1 weighted composite;
- the summary table of the pairs i < j with the genetic distance
  1 - composite.

The second part is the per-genome assembly statistics of
`scripts/02_sequence_analysis.py`:
- the N50 of the contig lengths;
- the statistics record built from the contigs of one FASTA file;
- the name-complexity ratio of the summary table.

Modules, one per concern:

| file | module | models |
|---|---|---|
| `option.dfy` | `Optional` | `Option`, for results that may be missing |
| `sums.dfy` | `Sums` | sums over finite sets, sequence sums and the arithmetic mean (`np.mean`) |
| `nucleotides.dfy` | `Nucleotides` | base counting, `str.upper()`, `calculate_gc_content` |
| `kmer_profile.dfy` | `KmerProfiles` | `calculate_kmer_profile` |
| `kmer_cosine.dfy` | `KmerCosine` | `compare_kmer_profiles` |
| `window_similarity.dfy` | `WindowSimilarity` | `calculate_sequence_similarity` |
| `gc_correlation.dfy` | `GcCorrelation` | `analyze_gc_content_similarity` and its `get_gc_windows` |
| `comparison_matrix.dfy` | `ComparisonMatrix` | `create_comparison_matrix`, including the size similarity |
| `comparison_summary.dfy` | `ComparisonSummary` | `create_composite_similarity_matrix`, `create_comparison_summary` |
| `contig_statistics.dfy` | `ContigStatistics` | `calculate_n50`, the statistics block of `analyze_fasta_file`, the `Complexite` ratio |

How the source is represented:
- Genomes are character sequences.
- The genomes of a run are a sequence indexed by strain position, so the
  strain order is the list order. The program itself only passes on
  strains whose genome loaded and is non-empty
  (`scripts/03_genome_comparison.py:348-354`). The model still accepts
  empty genomes and keeps the comparison's own guards for them
  (`scripts/03_genome_comparison.py:166` and `:182`).
- K-mer profiles are maps from k-mer to frequency.
- Matrices are `array2<real>`, filled in place by nested loops.
- Floating-point numbers are exact reals. Python integers are unbounded
  integers.
- The code that updates state step by step is modelled as methods with loop
  invariants. The k-mer counting loop, the window loops, the matrix loops,
  the summary loop and the record-collecting loop are each proved equal to
  a specification function. The N50 loop is proved to return the unique
  N50 of the lengths when their total is positive, and 0 when every contig
  is empty.
- Expression-only code is modelled as functions and lemmas.

Two numeric library calls are parameters:
- The square root inside `np.linalg.norm` is `root: real -> real`. Lemmas
  that need its meaning require `IsSquareRoot(root)`: non-negative, and its
  square is its argument.
- Pearson's correlation (`np.corrcoef`) is
  `pearson: (seq<real>, seq<real>) -> Option<real>`, where `None` stands
  for NaN. Its value is not modelled; only the windowing and the fallbacks
  to 0 are.

## Notes on the code

- **GC score range.** The GC score is a Pearson correlation and can be
  negative, so no [0, 1] bound is stated for it or for the composite.
  The bound is proved for the windowed match and the size similarity. For
  the cosine only non-negativity is proved.
- **Weights.** The composite weights are constants that the code never
  checks (`scripts/03_genome_comparison.py:221-226`).
- **Window shrink.** When the shorter sequence is below the window size,
  the window becomes `min_len // 2`
  (`scripts/03_genome_comparison.py:99-101`).
- **Empty genomes.** Inside `create_comparison_matrix`, an empty genome
  gets no profile and its pairs are skipped, so it keeps the initial 0 in
  its off-diagonal cells (`scripts/03_genome_comparison.py:166`, `:182`).
  `main` drops such strains before calling it
  (`scripts/03_genome_comparison.py:348-354`), so in the program these
  guards are never taken.
- **AT content.** `at_content` counts upper-case `A` and `T` over all
  characters of the genome. The GC percentage upper-cases first and divides
  by the number of A, C, G and T. The model keeps both as written.

## Model

| member | source | states |
|---|---|---|
| Nucleotides.GcContent | scripts/03_genome_comparison.py:31-40 | the GC percentage lies in [0, 100] and is 0 for an empty sequence or one without A, C, G or T (after upper-casing); the identical function of scripts/02_sequence_analysis.py (lines 27-36) is the same member |
| Nucleotides.UpperCase | scripts/03_genome_comparison.py:35-37 | `str.upper()` keeps the length, leaves no lower-case ASCII letter, and keeps every character that is not one |
| Nucleotides.UpperCaseCount | scripts/03_genome_comparison.py:35-36 | after upper-casing, 'G' is counted as often as 'G' and 'g' together in the original, and likewise for every upper-case letter, so lower-case bases enter the GC percentage |
| Nucleotides.Count | scripts/02_sequence_analysis.py:95-99 | `str.count` of one character is at most the length of the string |
| Nucleotides.CountAcgt | scripts/03_genome_comparison.py:37 | the number of bases in 'ATGC' is at most the length of the string |
| Nucleotides.GcContentComplement | scripts/03_genome_comparison.py:35-40 | the GC share and the AT share of the unambiguous bases add up to 100 percent |
| Nucleotides.AcgtPartition | scripts/03_genome_comparison.py:35-37 | the number of bases in 'ATGC' equals the sum of the four single-base counts |
| Nucleotides.BaseCountsBounded | scripts/02_sequence_analysis.py:95-99 | a + t + g + c + n never exceeds the length of the genome |
| KmerProfiles.KmerProfile | scripts/03_genome_comparison.py:53-73 | the counting loop over the windows returns the profile ProfileOf(s, k): empty when len < k; every key has length k and no 'N'; every frequency is in (0, 1]; frequencies sum to 1 when non-empty; empty exactly when no window is countable |
| KmerProfiles.Normalize | scripts/03_genome_comparison.py:68-69 | normalising keeps exactly the counted k-mers as keys |
| KmerProfiles.KmerCountsKeys | scripts/03_genome_comparison.py:61-64 | every counted k-mer has length k and contains no 'N' |
| KmerProfiles.KmerCountsOccur | scripts/03_genome_comparison.py:61-64 | every counted k-mer occurs as some window of the first n positions |
| KmerProfiles.KmerCountsComplete | scripts/03_genome_comparison.py:61-64 | every countable window of the first n positions is a key of the counts |
| KmerProfiles.KmerTotalBounds | scripts/03_genome_comparison.py:58-65 | total_kmers is at most the number of windows scanned, and is 0 exactly when no k-mer was counted |
| KmerProfiles.KmerCountsMass | scripts/03_genome_comparison.py:58-65 | the counts add up to total_kmers |
| KmerProfiles.CountAtMostTotal | scripts/03_genome_comparison.py:64-65 | a single k-mer's count never exceeds total_kmers |
| KmerProfiles.NormalizeMass | scripts/03_genome_comparison.py:68-69 | dividing counts that add up to the total by that total gives frequencies that add up to 1 |
| KmerProfiles.ProfileShape | scripts/03_genome_comparison.py:55-69 | every k-mer of a profile has length k, contains no 'N', and has frequency in (0, 1] |
| KmerProfiles.ProfileEmpty | scripts/03_genome_comparison.py:55-71 | a profile is empty if and only if the sequence is shorter than k or every window holds an 'N' |
| KmerProfiles.ProfileMass | scripts/03_genome_comparison.py:67-71 | a non-empty profile's frequencies sum to 1 |
| KmerCosine.CompareKmerProfiles | scripts/03_genome_comparison.py:75-95 | building the two vectors over the k-mer union in any order and taking dot / (norm1 * norm2) gives Cosine(p1, p2, root), the order-free sum over the union |
| KmerCosine.Vector | scripts/03_genome_comparison.py:84-85 | the vector has one entry per listed k-mer |
| KmerCosine.VectorEntries | scripts/03_genome_comparison.py:84-85 | entry i of the vector is the frequency of the i-th listed k-mer in the profile, 0 when the profile lacks it |
| KmerCosine.SeqDot | scripts/03_genome_comparison.py:88 | the dot product of two non-negative vectors is non-negative |
| KmerCosine.VectorDot | scripts/03_genome_comparison.py:84-88 | the dot product of the vectors listed in a duplicate-free order equals the sum over the set of listed k-mers |
| KmerCosine.ListStep | scripts/03_genome_comparison.py:84-85 | taking one more k-mer out of the remaining set keeps the listed order duplicate-free and disjoint from what remains |
| KmerCosine.CosineSymmetric | scripts/03_genome_comparison.py:78-95 | the cosine does not depend on the order of the two profiles |
| KmerCosine.CosineWithEmpty | scripts/03_genome_comparison.py:78-93 | an empty profile on either side gives 0: an empty union returns 0 and otherwise the dot product is 0 |
| KmerCosine.CosineZeroNorm | scripts/03_genome_comparison.py:92-93 | a zero norm on either side gives 0 |
| KmerCosine.DotOfEmpty | scripts/03_genome_comparison.py:84-88 | the dot product with an empty profile is 0 |
| KmerCosine.DotNonNegative | scripts/03_genome_comparison.py:88 | the dot product of non-negative profiles is non-negative |
| KmerCosine.CosineNonNegative | scripts/03_genome_comparison.py:88-95 | the cosine of two non-negative profiles is non-negative |
| KmerCosine.NormPositive | scripts/03_genome_comparison.py:89-90 | a non-empty profile with positive frequencies has a positive squared norm |
| KmerCosine.CosineSelf | scripts/03_genome_comparison.py:88-95 | a non-empty profile with positive frequencies has cosine exactly 1 with itself |
| WindowSimilarity.SequenceSimilarity | scripts/03_genome_comparison.py:97-121 | the method returns Similarity(seq1, seq2, window_size): the effective window, the 0 guard below 10 and the mean of the window scores |
| WindowSimilarity.ScoreWindows | scripts/03_genome_comparison.py:106-119 | the loop appends, window after window, exactly the scores of the series WindowScoresFrom(seq1, seq2, w, 0) |
| WindowSimilarity.WindowCount | scripts/03_genome_comparison.py:107-109 | there are min_len // w windows |
| WindowSimilarity.WindowScoresEntry | scripts/03_genome_comparison.py:109-118 | score i is the match fraction of the windows [i * w, i * w + w) of both sequences, and that window lies inside both |
| WindowSimilarity.Matches | scripts/03_genome_comparison.py:117 | the number of equal positions is at most the length of either window |
| WindowSimilarity.ScoreUnit | scripts/03_genome_comparison.py:117-118 | one window score is a share in [0, 1] |
| WindowSimilarity.WindowScoresUnit | scripts/03_genome_comparison.py:109-119 | every window score lies in [0, 1] |
| WindowSimilarity.SimilarityUnitInterval | scripts/03_genome_comparison.py:97-121 | the result lies in [0, 1] |
| WindowSimilarity.ShortSequencesScoreZero | scripts/03_genome_comparison.py:99-104 | with the default window, a shorter sequence below 20 bases makes the window fall below 10 and the result 0 |
| WindowSimilarity.ScoredExactlyWhenLongEnough | scripts/03_genome_comparison.py:99-107 | with a requested window of at least 20, the window used is below 10 if and only if the shorter sequence is below 20 bases; otherwise at least one window is scored |
| WindowSimilarity.MatchesSelf | scripts/03_genome_comparison.py:117 | a window matches itself at every position |
| WindowSimilarity.WindowScoreSelf | scripts/03_genome_comparison.py:117-118 | a window scores 1 against itself |
| WindowSimilarity.WindowScoresSelf | scripts/03_genome_comparison.py:109-119 | every window of a sequence against itself scores 1 |
| WindowSimilarity.SimilaritySelf | scripts/03_genome_comparison.py:97-121 | a sequence of at least 20 bases is fully similar to itself |
| WindowSimilarity.MatchesSymmetric | scripts/03_genome_comparison.py:117 | counting equal positions does not depend on the order of the windows |
| WindowSimilarity.WindowScoresSymmetric | scripts/03_genome_comparison.py:109-119 | the window scores do not depend on the order of the sequences |
| WindowSimilarity.SimilaritySymmetric | scripts/03_genome_comparison.py:97-121 | the similarity is symmetric |
| Sums.MeanUnitInterval | scripts/03_genome_comparison.py:121 | the mean of values in [0, 1] lies in [0, 1] |
| Sums.MeanOfOnes | scripts/03_genome_comparison.py:121 | the mean of a non-empty list of ones is 1 |
| Sums.Mean | scripts/03_genome_comparison.py:121 | the mean of an empty list is 0; otherwise the mean times the number of values is their sum |
| GcCorrelation.GcWindows | scripts/03_genome_comparison.py:125-131 | get_gc_windows returns the series GcSeries(sequence, window_size): len // window_size values, each a percentage in [0, 100]; no value for a negative window size |
| GcCorrelation.SeriesCount | scripts/03_genome_comparison.py:126-130 | stepping by window_size while a whole window fits visits (len - start) // window_size windows, whatever is computed per window |
| GcCorrelation.SeriesEntry | scripts/03_genome_comparison.py:126-130 | the j-th window visited starts at start + j * window_size and lies inside the sequence |
| GcCorrelation.GcSeriesCount | scripts/03_genome_comparison.py:126-130 | from position start there are (len - start) // window_size complete windows |
| GcCorrelation.GcSeriesEntry | scripts/03_genome_comparison.py:127-130 | value j is the GC content of the window of exactly window_size bases at start + j * window_size, inside the sequence |
| GcCorrelation.GcSeriesBounds | scripts/03_genome_comparison.py:130 | every value of the series is a percentage |
| GcCorrelation.AnalyzeGcSimilarity | scripts/03_genome_comparison.py:123-149 | the method returns GcSimilarity: 0 when a series is empty or the truncated series has one window, the correlation of the truncated series otherwise, NaN read as 0 |
| GcCorrelation.ShortSequencesNoCorrelation | scripts/03_genome_comparison.py:133-149 | when the shorter sequence holds fewer than two windows the result is 0 |
| GcCorrelation.LongSequencesCorrelate | scripts/03_genome_comparison.py:136-147 | when both sequences hold two or more windows, the result is the correlation of the two series cut to min_len // window_size values |
| GcCorrelation.ShorterWindows | scripts/03_genome_comparison.py:139-143 | min(len1, len2) // w is the smaller of the two window counts and exceeds 1 when min_len >= 2w |
| GcCorrelation.GcSimilaritySymmetric | scripts/03_genome_comparison.py:133-149 | with a symmetric correlation, the GC score is symmetric |
| ComparisonMatrix.SizeSimilarity | scripts/03_genome_comparison.py:202-203 | the size similarity is at most 1, and 1 for equal lengths |
| ComparisonMatrix.SizeSimilarityBounds | scripts/03_genome_comparison.py:202-203 | 1 - abs(l1 - l2) / max(l1, l2) lies in [0, 1] |
| ComparisonMatrix.SizeSimilarityOne | scripts/03_genome_comparison.py:202-203 | the size similarity is 1 if and only if the lengths are equal |
| ComparisonMatrix.SizeSimilaritySymmetric | scripts/03_genome_comparison.py:202-203 | the size similarity is symmetric |
| ComparisonMatrix.Max | scripts/03_genome_comparison.py:202 | max(l1, l2) is one of the two lengths and at least both |
| ComparisonMatrix.CreateComparisonMatrix | scripts/03_genome_comparison.py:151-217 | the four new n x n matrices hold, at [p, q], 1 on the diagonal; otherwise the scores of the pair (min, max) when both genomes are non-empty, else 0 |
| ComparisonMatrix.FillRow | scripts/03_genome_comparison.py:171-205 | one pass of the inner loop over j extends the filled region from row i to row i + 1 on all four matrices |
| ComparisonMatrix.ProfileAll | scripts/03_genome_comparison.py:162-167 | every non-empty genome gets its tetranucleotide profile, computed once |
| ComparisonMatrix.ComparePair | scripts/03_genome_comparison.py:180-203 | the four scores of a pair of non-empty genomes: cosine of the profiles, windowed match and GC correlation with window 1000, size similarity |
| ComparisonMatrix.Zeros | scripts/03_genome_comparison.py:157-160 | a fresh n x n matrix of zeros |
| ComparisonMatrix.SetDiagonal | scripts/03_genome_comparison.py:173-178 | writing 1.0 at [i, i] advances the filled region by one cell |
| ComparisonMatrix.SetDiagonals | scripts/03_genome_comparison.py:173-178 | the diagonal step on all four matrices |
| ComparisonMatrix.SetPair | scripts/03_genome_comparison.py:185-187 | writing the pair's value to [i, j] and [j, i] advances the filled region by one pair |
| ComparisonMatrix.SetPairs | scripts/03_genome_comparison.py:180-203 | the pair step on all four matrices |
| ComparisonMatrix.SkipCell | scripts/03_genome_comparison.py:179-182 | an iteration below the diagonal, or on a pair with an empty genome, writes nothing and keeps the invariant |
| ComparisonMatrix.NextRow | scripts/03_genome_comparison.py:171-172 | a finished row is the start of the next one |
| ComparisonMatrix.NothingFilled | scripts/03_genome_comparison.py:157-160 | the zero matrices satisfy the loop invariant before the first row |
| ComparisonMatrix.AllRows | scripts/03_genome_comparison.py:171-211 | after the last row every cell holds its final value |
| ComparisonMatrix.PairScoresSymmetric | scripts/03_genome_comparison.py:179-203 | with a symmetric correlation, scoring (j, i) gives the same four values as (i, j), so mirroring the upper triangle is exact |
| ComparisonMatrix.PairScoresBounds | scripts/03_genome_comparison.py:182-203 | the cosine is non-negative; the windowed match and the size similarity lie in [0, 1] |
| ComparisonMatrix.PairScoresSelf | scripts/03_genome_comparison.py:173-178 | the fixed diagonal 1.0 is what the cosine, the windowed match and the size similarity give a genome of at least 20 bases with a countable k-mer against itself |
| ComparisonMatrix.MatricesShape | scripts/03_genome_comparison.py:171-205 | each matrix is symmetric, has diagonal 1, and keeps 0 off the diagonal in the row and column of an empty genome |
| ComparisonMatrix.MatricesBounds | scripts/03_genome_comparison.py:180-203 | every k-mer cell is non-negative; every sequence and size cell lies in [0, 1] |
| ComparisonSummary.CreateCompositeMatrix | scripts/03_genome_comparison.py:219-235 | the new matrix is the cell-wise weighted sum 0.4 k-mer + 0.3 sequence + 0.2 GC + 0.1 size |
| ComparisonSummary.Weighted | scripts/03_genome_comparison.py:228-233 | the weighted sum of four scores in [0, 1] lies in [0, 1] |
| ComparisonSummary.WeightedConstant | scripts/03_genome_comparison.py:221-226 | the weights add up to 1: equal scores weigh that score |
| ComparisonSummary.CompositeShape | scripts/03_genome_comparison.py:219-235 | the composite of the comparison matrices is symmetric, has diagonal 1, and is 0 off the diagonal for an empty genome |
| ComparisonSummary.CreateComparisonSummary | scripts/03_genome_comparison.py:307-328 | row k is the line of the k-th pair of Pairs(n): the two names, the four scores and the composite of cell [i, j], and distance 1 - composite |
| ComparisonSummary.PairsComplete | scripts/03_genome_comparison.py:314-315 | the pairs listed are n(n-1)/2, exactly the pairs p < q < n, in row-major order |
| ComparisonSummary.PairsBeforeCount | scripts/03_genome_comparison.py:314-315 | the first r rows hold r(2n - r - 1)/2 pairs |
| ComparisonSummary.PairsBeforeMembers | scripts/03_genome_comparison.py:314-315 | the first r rows hold exactly the pairs p < q < n with p < r |
| ComparisonSummary.PairsBeforeOrdered | scripts/03_genome_comparison.py:314-315 | the first r rows are listed in row-major order |
| ComparisonSummary.RowPairsMembers | scripts/03_genome_comparison.py:315 | row i lists the pairs (i, j) for j in the range, each once, in increasing j |
| ComparisonSummary.RowScores | scripts/03_genome_comparison.py:316-325 | the line of a pair with an empty genome has distance 1; otherwise it reports the pair's four scores and distance 1 minus their weighted sum |
| ContigStatistics.CalculateN50 | scripts/02_sequence_analysis.py:38-50 | 0 for no contigs; otherwise one of the lengths, and the N50: the contigs at least that long make up at least half the total and the longer ones less than half (0 when every contig is empty); the final return 0 is unreachable |
| ContigStatistics.N50Found | scripts/02_sequence_analysis.py:42-49 | the length at which the running total over the sorted lengths first reaches half the total is an input length and the N50 |
| ContigStatistics.N50OfSorted | scripts/02_sequence_analysis.py:44-49 | on a descending list, the first length whose running total reaches half the total is the N50 |
| ContigStatistics.N50Unique | scripts/02_sequence_analysis.py:38-50 | the N50 is unique |
| ContigStatistics.SortedN50 | scripts/02_sequence_analysis.py:42-43 | sorting the lengths does not change their N50 |
| ContigStatistics.SortedTotal | scripts/02_sequence_analysis.py:42-43 | sorting the lengths does not change their total |
| ContigStatistics.SortedMember | scripts/02_sequence_analysis.py:42 | every sorted length is an input length |
| ContigStatistics.SortDescending | scripts/02_sequence_analysis.py:42 | sorting keeps the number of lengths; permutation and order are the two lemmas below |
| ContigStatistics.SortDescendingPermutes | scripts/02_sequence_analysis.py:42 | sorted(lengths, reverse=True) is a permutation of the lengths |
| ContigStatistics.SortDescendingOrders | scripts/02_sequence_analysis.py:42 | sorted(lengths, reverse=True) is in descending order |
| ContigStatistics.InsertPermutes | scripts/02_sequence_analysis.py:42 | inserting into the sorted list adds exactly that element |
| ContigStatistics.InsertDescending | scripts/02_sequence_analysis.py:42 | inserting into a descending list keeps it descending |
| ContigStatistics.SumAtLeastSorted | scripts/02_sequence_analysis.py:42-49 | sorting does not change the total length of the contigs reaching a threshold |
| ContigStatistics.SumAtLeastMonotone | scripts/02_sequence_analysis.py:44-49 | a higher threshold counts no more length |
| ContigStatistics.PrefixAtLeast | scripts/02_sequence_analysis.py:45-48 | the running total up to index k counts at the threshold of the length at k |
| ContigStatistics.PrefixLonger | scripts/02_sequence_analysis.py:45-48 | only lengths before index k can be longer than the one at k |
| ContigStatistics.AnalyzeContigs | scripts/02_sequence_analysis.py:52-104 | None for a file with no records; otherwise the statistics record: lengths and names record by record; total_length the length of the joined genome, equal to the sum of the lengths; longest and shortest the max and min of the lengths; n50 an input length and the N50 (0 when every contig is empty); gc_content the GC percentage of the joined genome; the five base counts its counts of A, T, G, C and N, within the total; at_content its AT percentage |
| ContigStatistics.JoinLength | scripts/02_sequence_analysis.py:78-88 | the length of ''.join(sequences) is the sum of the contig lengths |
| ContigStatistics.Join | scripts/02_sequence_analysis.py:78 | the joined genome is as long as the contigs together |
| ContigStatistics.GenomeOf | scripts/02_sequence_analysis.py:64-78 | the genome of a file is as long as its records together |
| ContigStatistics.Longest | scripts/02_sequence_analysis.py:89 | max(lengths) is one of the lengths and at least all of them |
| ContigStatistics.Shortest | scripts/02_sequence_analysis.py:90 | min(lengths) is one of the lengths and at most all of them |
| ContigStatistics.AtContent | scripts/02_sequence_analysis.py:102-104 | the AT percentage lies in [0, 100] and is 0 for an empty genome |
| ContigStatistics.NameSetSize | scripts/02_sequence_analysis.py:127 | there are at most as many distinct names as names, and at least one when there is a name |
| ContigStatistics.Complexity | scripts/02_sequence_analysis.py:127 | the ratio is non-negative, and times the number of contigs it gives the number of distinct names |
| ContigStatistics.ComplexityBounds | scripts/02_sequence_analysis.py:127 | the ratio is 0 without contigs, in (0, 1] otherwise, and 1 exactly when no name repeats |

## Left out

- FASTA parsing (`Bio.SeqIO`), file existence checks and exception handling are not modelled. They are I/O: genomes and contig lists are inputs. A strain whose file is missing or whose genome loads empty is left out of the run before the comparison. The model has no such strain, and an empty genome in its input follows the comparison's own guards.
- The upper-casing done while loading genomes for the comparison is not modelled. The model takes the sequences as given.
- Writing CSV, JSON and text, `os.makedirs`, `print_status`, `main` and its "at least 2 genomes" exit are not modelled. They are output and program plumbing.
- Plotting and HTML (matplotlib, seaborn, plotly and the visualisation script) are not modelled. They are display only.
- The hierarchical clustering (`squareform`, `linkage`, `dendrogram`) is not modelled. It is a foreign library call.
- The value of the Pearson correlation is not modelled. It is a library call on floating point, so it is a parameter.
- The value of the square root in `np.linalg.norm` is not modelled. It is a parameter.
- `np.mean` and `np.median` of the contig lengths in the statistics record are not modelled. They are library statistics on floats.
- The `round(...)` calls of the summary table are not modelled. They are display formatting.
- The other columns of the statistics summary table are not modelled. Only the `Complexite` ratio is.
- The `strain_name`, `file_path` and `analysis_date` fields of the statistics record are not modelled. They are I/O or the clock.
- Floating point is modelled as exact reals. Rounding, NaN and infinities are not modelled.
- The test `cumulative >= total / 2` of the N50 loop is modelled as `2 * cumulative >= total`. This is the same test on exact numbers.
- The NaN check of the GC score inside `create_comparison_matrix` is not modelled. NaN is already read as 0 where the correlation is taken (`None` from the parameter), so the model's GC score is never NaN.
- `str.upper()` is modelled for ASCII letters only.
- `KmerCosine.CosineNonNegative`: the cosine's upper bound of 1 (Cauchy–Schwarz) is not proved. Only non-negativity and the value 1 of a profile with itself are.
- `WindowSimilarity.ScoreWindows` and `GcCorrelation.GcWindows`: the loops advance a start position by one window at a time. The source computes `start = i * window_size` or uses a stepped `range`. `WindowScoresEntry` and `GcSeriesEntry` prove that window i starts at `i * window_size`.
- `KmerCosine.CompareKmerProfiles`: the order in which Python iterates over the k-mer set is arbitrary. The model picks any order and proves the result does not depend on it.
- `ComparisonSummary.CompositeShape` and `ComparisonSummary.WeightedConstant`: the diagonal value 1 and "equal scores weigh that score" hold on exact reals only. In IEEE doubles, `0.4 + 0.3 + 0.2 + 0.1` summed left to right is 0.9999999999999999. So the program's composite diagonal is just below 1.0, and its distance diagonal `1 - composite` is just above 0.0.
- `GcCorrelation.GcWindows` and the GC series functions require a window size other than 0. With 0, `range(0, n, 0)` raises `ValueError`. The model does not represent that exception. The only caller passes 1000.
