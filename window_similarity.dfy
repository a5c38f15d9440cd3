/** The windowed sequence similarity: both sequences are cut into
    consecutive windows of one length over their common prefix, each window
    pair is scored by the share of positions holding the same symbol, and the
    scores are averaged. */
module WindowSimilarity {
  import opened Sums

  /** The window length the comparison asks for by default. */
  const DefaultWindow: int := 1000

  /** Windows shorter than this give no score at all. */
  const MinimumWindow: int := 10

  function Min(x: nat, y: nat): (m: nat)
    ensures m <= x && m <= y && (m == x || m == y)
  {
    if x < y then x else y
  }

  /** The window length actually used: half the shorter sequence when that
      sequence is shorter than the requested length. */
  function EffectiveWindow(minLen: nat, windowSize: int): int
  {
    if minLen < windowSize then minLen / 2 else windowSize
  }

  /** Number of positions i < min(|a|, |b|) with a[i] == b[i], as counting
      over zip(a, b) gives. */
  function Matches(a: seq<char>, b: seq<char>): (m: nat)
    ensures m <= |a| && m <= |b|
  {
    if a == [] || b == [] then 0
    else (if a[0] == b[0] then 1 else 0) + Matches(a[1..], b[1..])
  }

  /** Share of matching positions in two windows of the same length:
      matches / len(window1). */
  function WindowScore(a: seq<char>, b: seq<char>): real
    requires |a| == |b| > 0
  {
    Matches(a, b) as real / |a| as real
  }

  /** The scores of the consecutive windows of length w that fit in both
      sequences, starting at position `start`, first window first. */
  function WindowScoresFrom(a: seq<char>, b: seq<char>, w: nat, start: nat): seq<real>
    requires 0 < w && start <= Min(|a|, |b|)
    decreases Min(|a|, |b|) - start
  {
    if Min(|a|, |b|) - start < w then []
    else [WindowScore(a[start..start + w], b[start..start + w])] + WindowScoresFrom(a, b, w, start + w)
  }

  lemma MultipleAtLeast(k: int, w: int)
    requires 1 <= k && 0 < w
    ensures w <= k * w
  {
    assert k * w == w + (k - 1) * w;
  }

  /** Integer division is determined by any quotient and remainder. */
  lemma DivideUnique(m: int, w: int, q: int, r: int)
    requires 0 < w && 0 <= r < w && m == q * w + r
    ensures m / w == q
  {
    var q0, r0 := m / w, m % w;
    assert m == q0 * w + r0 && 0 <= r0 < w;
    assert (q - q0) * w == r0 - r;
    if q > q0 {
      MultipleAtLeast(q - q0, w);
    } else if q < q0 {
      MultipleAtLeast(q0 - q, w);
    }
  }

  /** Removing one window's worth of length removes one window. */
  lemma DivideStep(m: nat, w: nat)
    requires 0 < w <= m
    ensures (m - w) / w == m / w - 1
  {
    var q, r := m / w, m % w;
    assert m == q * w + r && 0 <= r < w;
    assert m - w == (q - 1) * w + r;
    DivideUnique(m - w, w, q - 1, r);
  }

  /** The first window from `start` on, followed by the rest. */
  lemma WindowScoresUnfold(a: seq<char>, b: seq<char>, w: nat, start: nat)
    requires 0 < w && start + w <= Min(|a|, |b|)
    ensures WindowScoresFrom(a, b, w, start)
            == [WindowScore(a[start..start + w], b[start..start + w])] + WindowScoresFrom(a, b, w, start + w)
  {
  }

  /** There are (min_len - start) // w windows from `start` on; from 0 that
      is num_windows. */
  lemma {:induction false} WindowCount(a: seq<char>, b: seq<char>, w: nat, start: nat)
    requires 0 < w && start <= Min(|a|, |b|)
    ensures |WindowScoresFrom(a, b, w, start)| == (Min(|a|, |b|) - start) / w
    decreases Min(|a|, |b|) - start
  {
    var m := Min(|a|, |b|) - start;
    if m < w {
      DivideUnique(m, w, 0, m);
    } else {
      WindowCount(a, b, w, start + w);
      WindowScoresUnfold(a, b, w, start);
      DivideStep(m, w);
    }
  }

  /** Entry i is the score of the windows [t, t + w) of both sequences,
      where t = start + i * w (i * w from 0), and they lie inside both. */
  lemma {:induction false} WindowScoresEntry(a: seq<char>, b: seq<char>, w: nat, start: nat, i: nat, t: nat)
    requires 0 < w && start <= Min(|a|, |b|)
    requires i < |WindowScoresFrom(a, b, w, start)| && t == start + i * w
    ensures t + w <= Min(|a|, |b|)
    ensures WindowScoresFrom(a, b, w, start)[i] == WindowScore(a[t..t + w], b[t..t + w])
    decreases i
  {
    WindowScoresUnfold(a, b, w, start);
    if i > 0 {
      NextWindowStart(start, w, i);
      WindowScoresEntry(a, b, w, start + w, i - 1, t);
    }
  }

  /** Window i - 1 after `start + w` starts where window i after `start` does. */
  lemma NextWindowStart(start: nat, w: nat, i: nat)
    requires 0 < i
    ensures start + w + (i - 1) * w == start + i * w
  {
  }

  /** The value calculate_sequence_similarity returns. */
  function Similarity(s1: seq<char>, s2: seq<char>, windowSize: int): real
  {
    var w := EffectiveWindow(Min(|s1|, |s2|), windowSize);
    if w < MinimumWindow then 0.0 else Mean(WindowScoresFrom(s1, s2, w, 0))
  }

  /** Picks the window length, then scores and averages the windows. */
  method SequenceSimilarity(seq1: seq<char>, seq2: seq<char>, windowSize: int) returns (sim: real)
    ensures sim == Similarity(seq1, seq2, windowSize)
  {
    var minLen := Min(|seq1|, |seq2|);
    var w := windowSize;
    if minLen < w {
      w := minLen / 2;
    }
    assert w == EffectiveWindow(minLen, windowSize);
    if w < MinimumWindow {
      return 0.0;
    }
    var scores := ScoreWindows(seq1, seq2, w);
    sim := if |scores| > 0 then Mean(scores) else 0.0;
  }

  /** Scores the min_len // w windows one after the other, window i covering
      positions i * w up to (i + 1) * w. */
  method ScoreWindows(seq1: seq<char>, seq2: seq<char>, w: nat) returns (scores: seq<real>)
    requires 0 < w
    ensures scores == WindowScoresFrom(seq1, seq2, w, 0)
  {
    var minLen := Min(|seq1|, |seq2|);
    scores := [];
    var numWindows := minLen / w;
    var start := 0;
    ghost var all := WindowScoresFrom(seq1, seq2, w, 0);
    WindowCount(seq1, seq2, w, 0);
    for i := 0 to numWindows
      invariant start <= minLen
      invariant scores + WindowScoresFrom(seq1, seq2, w, start) == all
      invariant |WindowScoresFrom(seq1, seq2, w, start)| == numWindows - i
    {
      ghost var rest := WindowScoresFrom(seq1, seq2, w, start);
      assert rest != [];
      var end := start + w;
      var window1 := seq1[start..end];
      var window2 := seq2[start..end];
      var score := WindowScore(window1, window2);
      WindowScoresUnfold(seq1, seq2, w, start);
      AppendAssociative(scores, score, WindowScoresFrom(seq1, seq2, w, end));
      scores := scores + [score];
      start := end;
    }
  }

  lemma AppendAssociative(xs: seq<real>, x: real, ys: seq<real>)
    ensures xs + ([x] + ys) == (xs + [x]) + ys
  {
  }

  /** Every window score lies in [0, 1]. */
  lemma {:induction false} WindowScoresUnit(a: seq<char>, b: seq<char>, w: nat, start: nat)
    requires 0 < w && start <= Min(|a|, |b|)
    ensures forall i :: 0 <= i < |WindowScoresFrom(a, b, w, start)| ==>
              0.0 <= WindowScoresFrom(a, b, w, start)[i] <= 1.0
    decreases Min(|a|, |b|) - start
  {
    if Min(|a|, |b|) - start >= w {
      WindowScoresUnit(a, b, w, start + w);
      ScoreUnit(a[start..start + w], b[start..start + w]);
    }
  }

  lemma ScoreUnit(a: seq<char>, b: seq<char>)
    requires |a| == |b| > 0
    ensures 0.0 <= WindowScore(a, b) <= 1.0
  {
    assert Matches(a, b) as real <= |a| as real;
  }

  /** The similarity is a share: it lies in [0, 1]. */
  lemma SimilarityUnitInterval(s1: seq<char>, s2: seq<char>, windowSize: int)
    ensures 0.0 <= Similarity(s1, s2, windowSize) <= 1.0
  {
    var w := EffectiveWindow(Min(|s1|, |s2|), windowSize);
    if w >= MinimumWindow {
      WindowScoresUnit(s1, s2, w, 0);
      MeanUnitInterval(WindowScoresFrom(s1, s2, w, 0));
    }
  }

  /** A window always matches itself completely. */
  lemma {:induction false} MatchesSelf(a: seq<char>)
    ensures Matches(a, a) == |a|
  {
    if a != [] {
      MatchesSelf(a[1..]);
    }
  }

  /** A window scored against itself scores 1. */
  lemma WindowScoreSelf(a: seq<char>)
    requires |a| > 0
    ensures WindowScore(a, a) == 1.0
  {
    MatchesSelf(a);
  }

  /** Every window of a sequence against itself scores 1. */
  lemma {:induction false} WindowScoresSelf(s: seq<char>, w: nat, start: nat)
    requires 0 < w && start <= |s|
    ensures forall i :: 0 <= i < |WindowScoresFrom(s, s, w, start)| ==>
              WindowScoresFrom(s, s, w, start)[i] == 1.0
    decreases |s| - start
  {
    if |s| - start >= w {
      WindowScoresSelf(s, w, start + w);
      WindowScoreSelf(s[start..start + w]);
      WindowScoresUnfold(s, s, w, start);
      var scores, rest := WindowScoresFrom(s, s, w, start), WindowScoresFrom(s, s, w, start + w);
      forall i | 0 <= i < |scores|
        ensures scores[i] == 1.0
      {
        if i > 0 {
          assert scores[i] == rest[i - 1];
        }
      }
    }
  }

  /** A sequence of at least 20 symbols compared with itself scores 1 for
      any requested window of at least 10, the default 1000 included. */
  lemma SimilaritySelf(s: seq<char>, windowSize: int)
    requires |s| >= 2 * MinimumWindow && windowSize >= MinimumWindow
    ensures Similarity(s, s, windowSize) == 1.0
  {
    var w := EffectiveWindow(|s|, windowSize);
    assert w >= MinimumWindow;
    WindowScoresSelf(s, w, 0);
    assert |WindowScoresFrom(s, s, w, 0)| > 0;
    MeanOfOnes(WindowScoresFrom(s, s, w, 0));
  }

  /** With a requested window of at least 20, a pair whose shorter sequence
      has fewer than 20 symbols scores 0: half of it is below 10. */
  lemma ShortSequencesScoreZero(s1: seq<char>, s2: seq<char>, windowSize: int)
    requires Min(|s1|, |s2|) < 2 * MinimumWindow <= windowSize
    ensures Similarity(s1, s2, windowSize) == 0.0
  {
  }

  /** With a requested window of at least 20, the window used falls below
      10 exactly when the shorter sequence has fewer than 20 symbols; a
      longer pair always has at least one window to score. */
  lemma ScoredExactlyWhenLongEnough(s1: seq<char>, s2: seq<char>, windowSize: int)
    requires 2 * MinimumWindow <= windowSize
    ensures EffectiveWindow(Min(|s1|, |s2|), windowSize) < MinimumWindow
            <==> Min(|s1|, |s2|) < 2 * MinimumWindow
    ensures Min(|s1|, |s2|) >= 2 * MinimumWindow ==>
              0 < |WindowScoresFrom(s1, s2, EffectiveWindow(Min(|s1|, |s2|), windowSize), 0)|
  {
    var m := Min(|s1|, |s2|);
    if m >= 2 * MinimumWindow {
      var w := EffectiveWindow(m, windowSize);
      assert MinimumWindow <= w <= m;
      WindowScoresUnfold(s1, s2, w, 0);
    }
  }

  lemma {:induction false} MatchesSymmetric(a: seq<char>, b: seq<char>)
    ensures Matches(a, b) == Matches(b, a)
  {
    if a != [] && b != [] {
      MatchesSymmetric(a[1..], b[1..]);
    }
  }

  lemma {:induction false} WindowScoresSymmetric(a: seq<char>, b: seq<char>, w: nat, start: nat)
    requires 0 < w && start <= Min(|a|, |b|)
    ensures WindowScoresFrom(a, b, w, start) == WindowScoresFrom(b, a, w, start)
    decreases Min(|a|, |b|) - start
  {
    assert Min(|b|, |a|) == Min(|a|, |b|);
    if Min(|a|, |b|) - start >= w {
      WindowScoresSymmetric(a, b, w, start + w);
      MatchesSymmetric(a[start..start + w], b[start..start + w]);
      WindowScoresUnfold(a, b, w, start);
      WindowScoresUnfold(b, a, w, start);
    }
  }

  /** Swapping the two sequences does not change the similarity. */
  lemma SimilaritySymmetric(s1: seq<char>, s2: seq<char>, windowSize: int)
    ensures Similarity(s1, s2, windowSize) == Similarity(s2, s1, windowSize)
  {
    assert Min(|s2|, |s1|) == Min(|s1|, |s2|);
    var w := EffectiveWindow(Min(|s1|, |s2|), windowSize);
    if w >= MinimumWindow {
      WindowScoresSymmetric(s1, s2, w, 0);
    }
  }
}
