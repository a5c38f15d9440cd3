/** The tetranucleotide (k-mer) profile of one genome: every window of length
    k is counted unless it holds the ambiguity symbol 'N', and the counts are
    turned into relative frequencies. */
module KmerProfiles {
  import opened Sums

  type Kmer = seq<char>

  /** k-mer -> relative frequency, as the profile dictionary holds it. */
  type Profile = map<Kmer, real>

  /** The k-mer length the comparison uses. */
  const TetraK: nat := 4

  /** A window is counted only when it holds no 'N'. */
  predicate Countable(w: Kmer)
  {
    'N' !in w
  }

  /** dict.get(w, 0) on a profile. */
  function Get(p: Profile, w: Kmer): real
  {
    if w in p then p[w] else 0.0
  }

  /** The window of length k starting at position i: s[i:i+k]. */
  function Window(s: seq<char>, k: nat, i: nat): Kmer
    requires i + k <= |s|
  {
    s[i..i + k]
  }

  /** Counts of the countable windows that start at positions 0 .. n-1. */
  function KmerCounts(s: seq<char>, k: nat, n: nat): map<Kmer, nat>
    requires n + k <= |s| + 1
  {
    if n == 0 then map[]
    else
      var counts := KmerCounts(s, k, n - 1);
      var w := Window(s, k, n - 1);
      if Countable(w) then counts[w := (if w in counts then counts[w] else 0) + 1]
      else counts
  }

  /** Number of countable windows that start at positions 0 .. n-1. */
  function KmerTotal(s: seq<char>, k: nat, n: nat): nat
    requires n + k <= |s| + 1
  {
    if n == 0 then 0
    else KmerTotal(s, k, n - 1) + (if Countable(Window(s, k, n - 1)) then 1 else 0)
  }

  /** Each count divided by the total. */
  function Normalize(counts: map<Kmer, nat>, total: nat): (p: Profile)
    requires 0 < total
    ensures p.Keys == counts.Keys
  {
    map w | w in counts :: counts[w] as real / total as real
  }

  /** The profile of `s`: empty when `s` is shorter than `k` or has no
      countable window, the normalised window counts otherwise. */
  function ProfileOf(s: seq<char>, k: nat): Profile
  {
    if |s| < k then map[]
    else
      var n := |s| - k + 1;
      var total := KmerTotal(s, k, n);
      if total > 0 then Normalize(KmerCounts(s, k, n), total) else map[]
  }

  ghost function CountValue(m: map<Kmer, nat>): Kmer -> real
  {
    w => if w in m then m[w] as real else 0.0
  }

  /** Sum of all the counts of a counting dictionary. */
  ghost function CountMass(m: map<Kmer, nat>): real
  {
    Sum(m.Keys, CountValue(m))
  }

  ghost function FreqValue(p: Profile): Kmer -> real
  {
    w => Get(p, w)
  }

  /** Sum of all the frequencies of a profile. */
  ghost function FreqMass(p: Profile): real
  {
    Sum(p.Keys, FreqValue(p))
  }

  /** Every key is a countable window of length k with a positive count. */
  lemma {:induction false} KmerCountsKeys(s: seq<char>, k: nat, n: nat)
    requires n + k <= |s| + 1
    ensures forall w :: w in KmerCounts(s, k, n) ==>
              |w| == k && Countable(w) && 1 <= KmerCounts(s, k, n)[w]
  {
    if n > 0 {
      KmerCountsKeys(s, k, n - 1);
    }
  }

  /** Every key is a window of `s` that starts before n. */
  lemma {:induction false} KmerCountsOccur(s: seq<char>, k: nat, n: nat)
    requires n + k <= |s| + 1
    ensures forall w :: w in KmerCounts(s, k, n) ==>
              exists i :: 0 <= i < n && Window(s, k, i) == w
  {
    if n > 0 {
      KmerCountsOccur(s, k, n - 1);
      var prev := KmerCounts(s, k, n - 1);
      forall v | v in KmerCounts(s, k, n)
        ensures exists i :: 0 <= i < n && Window(s, k, i) == v
      {
        if v in prev {
          var i :| 0 <= i < n - 1 && Window(s, k, i) == v;
          assert 0 <= i < n;
        } else {
          assert Window(s, k, n - 1) == v;
        }
      }
    }
  }

  /** Every countable window that starts before n is a key. */
  lemma {:induction false} KmerCountsComplete(s: seq<char>, k: nat, n: nat)
    requires n + k <= |s| + 1
    ensures forall i :: 0 <= i < n && Countable(Window(s, k, i)) ==>
              Window(s, k, i) in KmerCounts(s, k, n)
  {
    if n > 0 {
      KmerCountsComplete(s, k, n - 1);
    }
  }

  /** At most one window per start position is counted, and nothing is
      counted exactly when the counting dictionary is empty. */
  lemma {:induction false} KmerTotalBounds(s: seq<char>, k: nat, n: nat)
    requires n + k <= |s| + 1
    ensures KmerTotal(s, k, n) <= n
    ensures KmerTotal(s, k, n) == 0 <==> KmerCounts(s, k, n) == map[]
  {
    if n > 0 {
      KmerTotalBounds(s, k, n - 1);
      var w := Window(s, k, n - 1);
      if Countable(w) {
        assert w in KmerCounts(s, k, n);
      }
    }
  }

  /** The counts add up to the number of countable windows. */
  lemma {:induction false} KmerCountsMass(s: seq<char>, k: nat, n: nat)
    requires n + k <= |s| + 1
    ensures CountMass(KmerCounts(s, k, n)) == KmerTotal(s, k, n) as real
  {
    if n > 0 {
      KmerCountsMass(s, k, n - 1);
      var prev := KmerCounts(s, k, n - 1);
      var next := KmerCounts(s, k, n);
      var w := Window(s, k, n - 1);
      if Countable(w) {
        if w in prev {
          assert next.Keys == prev.Keys;
          SumBump(prev.Keys, CountValue(prev), CountValue(next), w, 1.0);
        } else {
          assert next.Keys == prev.Keys + {w};
          SumInsert(prev.Keys, CountValue(next), w);
          SumCongruent(prev.Keys, CountValue(prev), CountValue(next));
        }
      }
    }
  }

  /** Frequencies obtained from counts whose sum is the total add up to one. */
  lemma NormalizeMass(counts: map<Kmer, nat>, total: nat)
    requires 0 < total
    requires CountMass(counts) == total as real
    ensures FreqMass(Normalize(counts, total)) == 1.0
  {
    var p := Normalize(counts, total);
    forall w | w in counts.Keys
      ensures FreqValue(p)(w) == CountValue(counts)(w) / total as real
    {
      assert w in p;
      assert p[w] == counts[w] as real / total as real;
    }
    SumDivide(counts.Keys, CountValue(counts), FreqValue(p), total as real);
    assert p.Keys == counts.Keys;
    SelfQuotient(total as real);
  }

  /** No single count exceeds the number of countable windows. */
  lemma CountAtMostTotal(s: seq<char>, k: nat, n: nat, w: Kmer)
    requires n + k <= |s| + 1
    requires w in KmerCounts(s, k, n)
    ensures KmerCounts(s, k, n)[w] <= KmerTotal(s, k, n)
  {
    var counts := KmerCounts(s, k, n);
    KmerCountsMass(s, k, n);
    KmerCountsKeys(s, k, n);
    SumRemove(counts.Keys, CountValue(counts), w);
    SumNonNegative(counts.Keys - {w}, CountValue(counts));
  }

  /** Every k-mer of a profile is a countable window of length k whose
      frequency lies in (0, 1]. */
  lemma ProfileShape(s: seq<char>, k: nat)
    ensures forall w :: w in ProfileOf(s, k) ==>
              |w| == k && Countable(w) && 0.0 < ProfileOf(s, k)[w] <= 1.0
  {
    if |s| >= k {
      var n := |s| - k + 1;
      var total := KmerTotal(s, k, n);
      KmerCountsKeys(s, k, n);
      if total > 0 {
        var counts := KmerCounts(s, k, n);
        var p := ProfileOf(s, k);
        assert p == Normalize(counts, total);
        forall w | w in p
          ensures 0.0 < p[w] <= 1.0
        {
          CountAtMostTotal(s, k, n, w);
          assert p[w] == counts[w] as real / total as real;
          UnitQuotient(counts[w] as real, total as real);
        }
      }
    }
  }

  /** A profile is empty exactly when the sequence is shorter than k or every
      window of length k holds an 'N'. */
  lemma ProfileEmpty(s: seq<char>, k: nat)
    ensures ProfileOf(s, k) == map[] <==>
              |s| < k || forall i :: 0 <= i <= |s| - k ==> !Countable(Window(s, k, i))
  {
    if |s| >= k {
      var n := |s| - k + 1;
      var counts := KmerCounts(s, k, n);
      KmerTotalBounds(s, k, n);
      KmerCountsOccur(s, k, n);
      KmerCountsComplete(s, k, n);
      if KmerTotal(s, k, n) > 0 {
        var w :| w in counts;
        var i :| 0 <= i < n && Window(s, k, i) == w;
        KmerCountsKeys(s, k, n);
        assert Countable(Window(s, k, i));
        assert ProfileOf(s, k).Keys == counts.Keys;
      } else {
        assert ProfileOf(s, k) == map[];
        forall i | 0 <= i <= |s| - k
          ensures !Countable(Window(s, k, i))
        {
        }
      }
    }
  }

  /** The frequencies of a non-empty profile add up to one. */
  lemma ProfileMass(s: seq<char>, k: nat)
    requires ProfileOf(s, k) != map[]
    ensures FreqMass(ProfileOf(s, k)) == 1.0
  {
    var n := |s| - k + 1;
    KmerCountsMass(s, k, n);
    NormalizeMass(KmerCounts(s, k, n), KmerTotal(s, k, n));
  }

  /** Builds the profile by sliding a window of length k over `s`. */
  method KmerProfile(s: seq<char>, k: nat) returns (freqs: Profile)
    ensures freqs == ProfileOf(s, k)
    ensures |s| < k ==> freqs == map[]
    ensures forall w :: w in freqs ==> |w| == k && Countable(w) && 0.0 < freqs[w] <= 1.0
    ensures freqs != map[] ==> FreqMass(freqs) == 1.0
    ensures freqs == map[] <==>
              |s| < k || forall i :: 0 <= i <= |s| - k ==> !Countable(Window(s, k, i))
  {
    if |s| < k {
      return map[];
    }
    var counts: map<Kmer, nat> := map[];
    var total: nat := 0;
    for i := 0 to |s| - k + 1
      invariant counts == KmerCounts(s, k, i)
      invariant total == KmerTotal(s, k, i)
    {
      var kmer := s[i..i + k];
      if 'N' !in kmer {
        counts := counts[kmer := (if kmer in counts then counts[kmer] else 0) + 1];
        total := total + 1;
      }
    }
    if total > 0 {
      freqs := map w | w in counts :: counts[w] as real / total as real;
    } else {
      freqs := map[];
    }
    ProfileShape(s, k);
    ProfileEmpty(s, k);
    if freqs != map[] {
      ProfileMass(s, k);
    }
  }
}
