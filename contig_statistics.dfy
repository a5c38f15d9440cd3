/** Assembly statistics of one genome given as its list of contigs: the
    N50 of the contig lengths, the statistics record of analyze_fasta_file
    and the name-complexity ratio of the summary table. */
module ContigStatistics {
  import opened Optional
  import opened Sums
  import opened Nucleotides

  /** Each element is at least as large as the next. */
  predicate Descending(s: seq<nat>)
  {
    forall i, j :: 0 <= i < j < |s| ==> s[i] >= s[j]
  }

  /** Inserts `x` before the first element of `s` that is not larger. */
  function Insert(x: nat, s: seq<nat>): (r: seq<nat>)
    ensures |r| == |s| + 1
  {
    if s == [] || x >= s[0] then [x] + s else [s[0]] + Insert(x, s[1..])
  }

  /** sorted(lengths, reverse=True), as an insertion sort. */
  function SortDescending(xs: seq<nat>): (r: seq<nat>)
    ensures |r| == |xs|
  {
    if xs == [] then [] else Insert(xs[0], SortDescending(xs[1..]))
  }

  lemma {:induction false} InsertPermutes(x: nat, s: seq<nat>)
    ensures multiset(Insert(x, s)) == multiset{x} + multiset(s)
  {
    if s != [] && x < s[0] {
      InsertPermutes(x, s[1..]);
      assert s == [s[0]] + s[1..];
    }
  }

  lemma {:induction false} InsertDescending(x: nat, s: seq<nat>)
    requires Descending(s)
    ensures Descending(Insert(x, s))
  {
    if s != [] && x < s[0] {
      var r := Insert(x, s[1..]);
      InsertDescending(x, s[1..]);
      InsertBounded(x, s[1..], s[0]);
      assert Insert(x, s) == [s[0]] + r;
      PrependDescending(s[0], r);
    }
  }

  /** A bound on `x` and on every element of `s` bounds the insertion. */
  lemma {:induction false} InsertBounded(x: nat, s: seq<nat>, b: nat)
    requires x <= b && forall i :: 0 <= i < |s| ==> s[i] <= b
    ensures forall j :: 0 <= j < |Insert(x, s)| ==> Insert(x, s)[j] <= b
  {
    if s != [] && x < s[0] {
      InsertBounded(x, s[1..], b);
      assert Insert(x, s) == [s[0]] + Insert(x, s[1..]);
    }
  }

  lemma PrependDescending(b: nat, r: seq<nat>)
    requires Descending(r) && forall j :: 0 <= j < |r| ==> r[j] <= b
    ensures Descending([b] + r)
  {
  }


  /** The sort keeps every length ... */
  lemma {:induction false} SortDescendingPermutes(xs: seq<nat>)
    ensures multiset(SortDescending(xs)) == multiset(xs)
  {
    if xs != [] {
      SortDescendingPermutes(xs[1..]);
      InsertPermutes(xs[0], SortDescending(xs[1..]));
      assert xs == [xs[0]] + xs[1..];
    }
  }

  /** ... and orders them from longest to shortest. */
  lemma {:induction false} SortDescendingOrders(xs: seq<nat>)
    ensures Descending(SortDescending(xs))
  {
    if xs != [] {
      SortDescendingOrders(xs[1..]);
      InsertDescending(xs[0], SortDescending(xs[1..]));
    }
  }

  /** Each length of the sorted list is one of the input lengths. */
  lemma SortedMember(xs: seq<nat>, k: nat)
    requires k < |SortDescending(xs)|
    ensures SortDescending(xs)[k] in xs
  {
    SortDescendingPermutes(xs);
    assert SortDescending(xs)[k] in multiset(SortDescending(xs));
  }

  /** Total length of the contigs at least `t` long. */
  function SumAtLeast(xs: seq<nat>, t: nat): nat
  {
    if xs == [] then 0
    else SumAtLeast(xs[..|xs| - 1], t) + (if xs[|xs| - 1] >= t then xs[|xs| - 1] else 0)
  }

  lemma {:induction false} SumAtLeastAppend(xs: seq<nat>, ys: seq<nat>, t: nat)
    ensures SumAtLeast(xs + ys, t) == SumAtLeast(xs, t) + SumAtLeast(ys, t)
    decreases |ys|
  {
    if ys == [] {
      assert xs + ys == xs;
    } else {
      var zs := xs + ys;
      assert zs[..|zs| - 1] == xs + ys[..|ys| - 1];
      SumAtLeastAppend(xs, ys[..|ys| - 1], t);
    }
  }

  /** With threshold 0 every contig counts: the plain total. */
  lemma {:induction false} SumAtLeastZero(xs: seq<nat>)
    ensures SumAtLeast(xs, 0) == NatSum(xs)
  {
    if xs != [] {
      SumAtLeastZero(xs[..|xs| - 1]);
    }
  }

  /** The contigs reaching a threshold make up at most the total. */
  lemma {:induction false} SumAtLeastBounded(xs: seq<nat>, t: nat)
    ensures SumAtLeast(xs, t) <= NatSum(xs)
  {
    if xs != [] {
      SumAtLeastBounded(xs[..|xs| - 1], t);
    }
  }

  /** Contigs all at least `t` long all count. */
  lemma {:induction false} SumAtLeastAll(xs: seq<nat>, t: nat)
    requires forall i :: 0 <= i < |xs| ==> xs[i] >= t
    ensures SumAtLeast(xs, t) == NatSum(xs)
  {
    if xs != [] {
      SumAtLeastAll(xs[..|xs| - 1], t);
    }
  }

  /** Contigs all shorter than `t` count nothing. */
  lemma {:induction false} SumAtLeastNone(xs: seq<nat>, t: nat)
    requires forall i :: 0 <= i < |xs| ==> xs[i] < t
    ensures SumAtLeast(xs, t) == 0
  {
    if xs != [] {
      SumAtLeastNone(xs[..|xs| - 1], t);
    }
  }

  /** A higher threshold counts no more. */
  lemma {:induction false} SumAtLeastMonotone(xs: seq<nat>, a: nat, b: nat)
    requires a <= b
    ensures SumAtLeast(xs, b) <= SumAtLeast(xs, a)
  {
    if xs != [] {
      SumAtLeastMonotone(xs[..|xs| - 1], a, b);
    }
  }

  /** Sorting does not change which contigs reach a threshold. */
  lemma {:induction false} SumAtLeastSorted(xs: seq<nat>, t: nat)
    ensures SumAtLeast(SortDescending(xs), t) == SumAtLeast(xs, t)
  {
    if xs != [] {
      SumAtLeastSorted(xs[1..], t);
      InsertSum(xs[0], SortDescending(xs[1..]), t);
      assert xs == [xs[0]] + xs[1..];
      SumAtLeastAppend([xs[0]], xs[1..], t);
    }
  }

  lemma {:induction false} InsertSum(x: nat, s: seq<nat>, t: nat)
    ensures SumAtLeast(Insert(x, s), t) == SumAtLeast([x], t) + SumAtLeast(s, t)
  {
    if s == [] || x >= s[0] {
      SumAtLeastAppend([x], s, t);
    } else {
      InsertSum(x, s[1..], t);
      assert s == [s[0]] + s[1..];
      SumAtLeastAppend([s[0]], Insert(x, s[1..]), t);
      SumAtLeastAppend([s[0]], s[1..], t);
    }
  }

  /** `v` is an N50 of the lengths: the contigs at least `v` long make up at
      least half of the total, the contigs longer than `v` less than half. */
  predicate IsN50(xs: seq<nat>, v: nat)
  {
    2 * SumAtLeast(xs, v) >= NatSum(xs) && 2 * SumAtLeast(xs, v + 1) < NatSum(xs)
  }

  /** There is at most one N50. */
  lemma N50Unique(xs: seq<nat>, v: nat, w: nat)
    requires IsN50(xs, v) && IsN50(xs, w)
    ensures v == w
  {
    if v < w {
      SumAtLeastMonotone(xs, v + 1, w);
    } else if w < v {
      SumAtLeastMonotone(xs, w + 1, v);
    }
  }

  /** The contigs up to index k, all at least as long as the one at k,
      count at the threshold s[k] ... */
  lemma PrefixAtLeast(s: seq<nat>, k: nat)
    requires k < |s| && forall i :: 0 <= i <= k ==> s[k] <= s[i]
    ensures NatSum(s[..k + 1]) <= SumAtLeast(s, s[k])
  {
    var front, back := s[..k + 1], s[k + 1..];
    assert s == front + back;
    SumAtLeastAppend(front, back, s[k]);
    forall i | 0 <= i < |front|
      ensures front[i] >= s[k]
    {
      assert front[i] == s[i];
    }
    SumAtLeastAll(front, s[k]);
  }

  /** ... and when the contigs from k on are no longer than it, only those
      before k can be longer. */
  lemma PrefixLonger(s: seq<nat>, k: nat)
    requires k < |s| && forall i :: k <= i < |s| ==> s[i] <= s[k]
    ensures SumAtLeast(s, s[k] + 1) <= NatSum(s[..k])
  {
    var front, back := s[..k], s[k..];
    assert s == front + back;
    SumAtLeastAppend(front, back, s[k] + 1);
    SumAtLeastBounded(front, s[k] + 1);
    forall i | 0 <= i < |back|
      ensures back[i] < s[k] + 1
    {
      assert back[i] == s[k + i];
    }
    SumAtLeastNone(back, s[k] + 1);
  }

  /** The N50 of a descending list is the length at which its running
      total first reaches half of the total. */
  lemma N50OfSorted(s: seq<nat>, k: nat)
    requires Descending(s) && k < |s|
    requires 2 * NatSum(s[..k + 1]) >= NatSum(s) && (k == 0 || 2 * NatSum(s[..k]) < NatSum(s))
    ensures 0 < NatSum(s) ==> IsN50(s, s[k])
    ensures NatSum(s) == 0 ==> s[k] == 0
  {
    PrefixAtLeast(s, k);
    PrefixLonger(s, k);
    SumAtLeastBounded(s, s[k]);
    assert s[..k + 1][..k] == s[..k];
    assert NatSum(s[..k + 1]) == NatSum(s[..k]) + s[k];
    PrefixZero(s);
  }

  /** The step at which the loop of calculate_n50 returns: the prefix up to
      index k of the sorted lengths reaches half of the total and the prefix
      before it does not. The value returned is then one of the lengths and
      the N50 (or 0 when every contig is empty). */
  lemma N50Found(lengths: seq<nat>, k: nat)
    requires k < |SortDescending(lengths)|
    requires var s := SortDescending(lengths);
      2 * NatSum(s[..k + 1]) >= NatSum(s) && (k == 0 || 2 * NatSum(s[..k]) < NatSum(s))
    ensures SortDescending(lengths)[k] in lengths
    ensures 0 < NatSum(lengths) ==> IsN50(lengths, SortDescending(lengths)[k])
    ensures NatSum(lengths) == 0 ==> SortDescending(lengths)[k] == 0
  {
    var s := SortDescending(lengths);
    SortedMember(lengths, k);
    SortDescendingOrders(lengths);
    N50OfSorted(s, k);
    SortedTotal(lengths);
    if 0 < NatSum(lengths) {
      SortedN50(lengths, s[k]);
    }
  }

  /** Sorting keeps the total length. */
  lemma SortedTotal(xs: seq<nat>)
    ensures NatSum(SortDescending(xs)) == NatSum(xs)
  {
    SumAtLeastZero(SortDescending(xs));
    SumAtLeastZero(xs);
    SumAtLeastSorted(xs, 0);
  }

  /** Sorting keeps the N50. */
  lemma SortedN50(xs: seq<nat>, v: nat)
    requires IsN50(SortDescending(xs), v)
    ensures IsN50(xs, v)
  {
    SortedTotal(xs);
    SumAtLeastSorted(xs, v);
    SumAtLeastSorted(xs, v + 1);
  }

  lemma PrefixZero(s: seq<nat>)
    ensures NatSum(s[..0]) == 0
  {
    assert s[..0] == [];
  }

  /** calculate_n50: 0 for no contigs; otherwise walk the lengths from the
      longest down, adding them up, and return the first length at which
      the running total reaches half of the total. The comparison with the
      real half total is done as 2 * cumulative >= total. */
  method CalculateN50(lengths: seq<nat>) returns (n50: int)
    ensures lengths == [] ==> n50 == 0
    ensures lengths != [] ==> n50 in lengths
    ensures lengths != [] && 0 < NatSum(lengths) ==> IsN50(lengths, n50)
    ensures lengths != [] && NatSum(lengths) == 0 ==> n50 == 0
  {
    if lengths == [] {
      return 0;
    }
    var sorted := SortDescending(lengths);
    assert sorted != [] && sorted[..|sorted|] == sorted;
    var total := NatSum(sorted);
    var cumulative := 0;
    for i := 0 to |sorted|
      invariant cumulative == NatSum(sorted[..i])
      invariant i == 0 || 2 * cumulative < total
    {
      var length := sorted[i];
      assert sorted[..i + 1][..i] == sorted[..i];
      cumulative := cumulative + length;
      if 2 * cumulative >= total {
        N50Found(lengths, i);
        return length;
      }
    }
    assert false;
    n50 := 0;
  }

  /** ''.join(sequences). */
  function Join(parts: seq<seq<char>>): (g: seq<char>)
    ensures |g| == NatSum(seq(|parts|, i requires 0 <= i < |parts| => |parts[i]|))
  {
    if parts == [] then []
    else
      var init := parts[..|parts| - 1];
      assert seq(|init|, i requires 0 <= i < |init| => |init[i]|)
          == seq(|parts|, i requires 0 <= i < |parts| => |parts[i]|)[..|init|];
      Join(init) + parts[|parts| - 1]
  }

  /** The largest of a non-empty list of lengths. */
  function Longest(xs: seq<nat>): (m: nat)
    requires xs != []
    ensures m in xs && forall i :: 0 <= i < |xs| ==> xs[i] <= m
  {
    if |xs| == 1 then xs[0]
    else
      var m := Longest(xs[..|xs| - 1]);
      assert xs[..|xs| - 1][0] == xs[0];
      if xs[|xs| - 1] > m then xs[|xs| - 1] else m
  }

  /** The smallest of a non-empty list of lengths. */
  function Shortest(xs: seq<nat>): (m: nat)
    requires xs != []
    ensures m in xs && forall i :: 0 <= i < |xs| ==> m <= xs[i]
  {
    if |xs| == 1 then xs[0]
    else
      var m := Shortest(xs[..|xs| - 1]);
      assert xs[..|xs| - 1][0] == xs[0];
      if xs[|xs| - 1] < m then xs[|xs| - 1] else m
  }

  /** One FASTA record: its identifier and its bases. */
  datatype Contig = Contig(name: string, sequence: seq<char>)

  /** The statistics analyze_fasta_file records for a genome (the mean and
      median contig lengths are not part of this model). */
  datatype GenomeStats = GenomeStats(
    numContigs: nat, contigLengths: seq<nat>, contigNames: seq<string>,
    totalLength: nat, longestContig: nat, shortestContig: nat, n50: int,
    gcContent: real, aCount: nat, tCount: nat, gCount: nat, cCount: nat, nCount: nat,
    atContent: real)

  /** The share of A and T among all characters of the genome (upper case
      only, as counted), in percent; 0 for an empty genome. */
  function AtContent(genome: seq<char>): (r: real)
    ensures 0.0 <= r <= 100.0
    ensures genome == [] ==> r == 0.0
  {
    if genome == [] then 0.0
    else
      BaseCountsBounded(genome);
      ShareBounds(Count(genome, 'A') + Count(genome, 'T'), |genome|);
      (Count(genome, 'A') + Count(genome, 'T')) as real / |genome| as real * 100.0
  }

  lemma {:induction false} JoinLength(parts: seq<seq<char>>, lengths: seq<nat>)
    requires |lengths| == |parts|
    requires forall i :: 0 <= i < |parts| ==> lengths[i] == |parts[i]|
    ensures |Join(parts)| == NatSum(lengths)
  {
    if parts != [] {
      JoinLength(parts[..|parts| - 1], lengths[..|lengths| - 1]);
    }
  }

  /** The genome of a file: the bases of its records, concatenated in order. */
  function GenomeOf(records: seq<Contig>): (g: seq<char>)
    ensures |g| == NatSum(seq(|records|, i requires 0 <= i < |records| => |records[i].sequence|))
  {
    var parts := seq(|records|, i requires 0 <= i < |records| => records[i].sequence);
    JoinLength(parts, seq(|records|, i requires 0 <= i < |records| => |records[i].sequence|));
    Join(parts)
  }

  /** The statistics block of analyze_fasta_file for the records of one
      file: None when there are none; otherwise the lists of sequences,
      lengths and names are collected record by record, the sequences are
      concatenated, and the record is filled from them. */
  method AnalyzeContigs(records: seq<Contig>) returns (stats: Option<GenomeStats>)
    ensures records == [] <==> stats == None
    ensures stats.Some? ==>
      var st := stats.value;
      st.numContigs == |records| == |st.contigLengths| == |st.contigNames| &&
      (forall i :: 0 <= i < |records| ==>
         st.contigLengths[i] == |records[i].sequence| && st.contigNames[i] == records[i].name) &&
      st.totalLength == |GenomeOf(records)| == NatSum(st.contigLengths) &&
      st.longestContig == Longest(st.contigLengths) &&
      st.shortestContig == Shortest(st.contigLengths) &&
      st.n50 in st.contigLengths &&
      (0 < st.totalLength ==> IsN50(st.contigLengths, st.n50)) &&
      (st.totalLength == 0 ==> st.n50 == 0) &&
      st.gcContent == GcContent(GenomeOf(records)) &&
      st.aCount == Count(GenomeOf(records), 'A') && st.tCount == Count(GenomeOf(records), 'T') &&
      st.gCount == Count(GenomeOf(records), 'G') && st.cCount == Count(GenomeOf(records), 'C') &&
      st.nCount == Count(GenomeOf(records), 'N') &&
      st.aCount + st.tCount + st.gCount + st.cCount + st.nCount <= st.totalLength &&
      st.atContent == AtContent(GenomeOf(records))
  {
    var sequences: seq<seq<char>> := [];
    var lengths: seq<nat> := [];
    var names: seq<string> := [];
    for i := 0 to |records|
      invariant |sequences| == |lengths| == |names| == i
      invariant forall t :: 0 <= t < i ==>
        sequences[t] == records[t].sequence && lengths[t] == |records[t].sequence| && names[t] == records[t].name
    {
      sequences := sequences + [records[i].sequence];
      lengths := lengths + [|records[i].sequence|];
      names := names + [records[i].name];
    }
    if sequences == [] {
      return None;
    }
    assert sequences == seq(|records|, i requires 0 <= i < |records| => records[i].sequence);
    assert lengths == seq(|records|, i requires 0 <= i < |records| => |records[i].sequence|);
    var genome := Join(sequences);
    JoinLength(sequences, lengths);
    BaseCountsBounded(genome);
    var n50 := CalculateN50(lengths);
    stats := Some(GenomeStats(
      |sequences|, lengths, names, |genome|, Longest(lengths), Shortest(lengths), n50,
      GcContent(genome), Count(genome, 'A'), Count(genome, 'T'), Count(genome, 'G'),
      Count(genome, 'C'), Count(genome, 'N'), AtContent(genome)));
  }

  /** The distinct contig names. */
  function NameSet(names: seq<string>): set<string>
  {
    set i | 0 <= i < |names| :: names[i]
  }

  lemma {:induction false} NameSetSize(names: seq<string>)
    ensures |NameSet(names)| <= |names|
    ensures names != [] ==> 0 < |NameSet(names)|
  {
    if names != [] {
      var init := names[..|names| - 1];
      NameSetSize(init);
      assert NameSet(names) == NameSet(init) + {names[|names| - 1]} by {
        forall x
          ensures x in NameSet(names) <==> x in NameSet(init) || x == names[|names| - 1]
        {
          if x in NameSet(names) {
            var i :| 0 <= i < |names| && names[i] == x;
            if i < |names| - 1 {
              assert init[i] == x;
            }
          }
          if x in NameSet(init) {
            var i :| 0 <= i < |init| && init[i] == x;
            assert names[i] == x;
          }
        }
      }
    }
  }

  /** The Complexite column: distinct names over the number of contigs, 0
      for a genome without contigs. */
  function Complexity(numContigs: nat, names: seq<string>): (r: real)
    ensures 0.0 <= r
    ensures 0 < numContigs ==> r * numContigs as real == |NameSet(names)| as real
  {
    if numContigs > 0 then |NameSet(names)| as real / numContigs as real else 0.0
  }

  /** With one name per contig the ratio lies in (0, 1], and is 1 exactly
      when no name repeats. */
  lemma ComplexityBounds(names: seq<string>)
    ensures names == [] ==> Complexity(|names|, names) == 0.0
    ensures names != [] ==> 0.0 < Complexity(|names|, names) <= 1.0
    ensures names != [] ==> (Complexity(|names|, names) == 1.0 <==> |NameSet(names)| == |names|)
  {
    NameSetSize(names);
    if names != [] {
      var d, n := |NameSet(names)| as real, |names| as real;
      assert 0.0 < d <= n;
      if d == n {
        SelfQuotient(n);
      } else {
        BelowOne(d, n);
      }
    }
  }

  lemma BelowOne(d: real, n: real)
    requires 0.0 < d < n
    ensures 0.0 < d / n < 1.0
  {
    UnitQuotient(d, n);
    RatioBelowOne(d / n, n, d);
  }

  lemma RatioBelowOne(r: real, n: real, d: real)
    requires 0.0 < n && r == d / n && d < n
    ensures r < 1.0
  {
    assert r * n == d;
  }
}
