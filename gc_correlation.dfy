/** The GC-correlation metric: each sequence is cut into consecutive windows,
    the GC percentage of every window forms a series, and the two series,
    cut to the same length, are handed to a Pearson correlation. The
    correlation itself is a parameter: it returns None where numpy would
    give NaN. */
module GcCorrelation {
  import opened Optional
  import opened Nucleotides
  import opened WindowSimilarity

  /** The values `f` takes on the consecutive windows of length ws from
      position `start` on, first window first. */
  function SeriesFrom(s: seq<char>, ws: nat, start: nat, f: seq<char> -> real): seq<real>
    requires 0 < ws && start <= |s|
    decreases |s| - start
  {
    if |s| - start < ws then []
    else [f(s[start..start + ws])] + SeriesFrom(s, ws, start + ws, f)
  }

  /** The GC percentages of the consecutive windows of length ws from
      position `start` on, first window first. */
  function GcSeriesFrom(s: seq<char>, ws: nat, start: nat): seq<real>
    requires 0 < ws && start <= |s|
  {
    SeriesFrom(s, ws, start, GcContent)
  }

  /** get_gc_windows: no window for a negative window length, the windows
      from position 0 on otherwise. A window length of 0 makes range raise,
      so it is excluded. */
  function GcSeries(s: seq<char>, windowSize: int): seq<real>
    requires windowSize != 0
  {
    if windowSize < 0 then [] else GcSeriesFrom(s, windowSize, 0)
  }

  lemma GcSeriesUnfold(s: seq<char>, ws: nat, start: nat)
    requires 0 < ws && start + ws <= |s|
    ensures GcSeriesFrom(s, ws, start) == [GcContent(s[start..start + ws])] + GcSeriesFrom(s, ws, start + ws)
  {
  }

  /** There are (len - start) // ws windows from `start` on, whatever is
      computed per window. */
  lemma {:induction false} SeriesCount(s: seq<char>, ws: nat, start: nat, f: seq<char> -> real)
    requires 0 < ws && start <= |s|
    ensures |SeriesFrom(s, ws, start, f)| == (|s| - start) / ws
    decreases |s| - start
  {
    var m := |s| - start;
    if m < ws {
      DivideUnique(m, ws, 0, m);
    } else {
      SeriesCount(s, ws, start + ws, f);
      assert |s| - (start + ws) == m - ws;
      DivideStep(m, ws);
    }
  }

  /** Entry j is the value of `f` on the window starting at
      t = start + j * ws, which lies inside the sequence. */
  lemma {:induction false} SeriesEntry(s: seq<char>, ws: nat, start: nat, f: seq<char> -> real, j: nat, t: nat)
    requires 0 < ws && start <= |s|
    requires j < |SeriesFrom(s, ws, start, f)| && t == start + j * ws
    ensures t + ws <= |s|
    ensures SeriesFrom(s, ws, start, f)[j] == f(s[t..t + ws])
    decreases j
  {
    if j > 0 {
      NextWindowStart(start, ws, j);
      SeriesEntry(s, ws, start + ws, f, j - 1, t);
    }
  }

  /** There are (len - start) // ws GC values from `start` on. */
  lemma GcSeriesCount(s: seq<char>, ws: nat, start: nat)
    requires 0 < ws && start <= |s|
    ensures |GcSeriesFrom(s, ws, start)| == (|s| - start) / ws
  {
    SeriesCount(s, ws, start, GcContent);
  }

  /** GC value j is the GC content of the window starting at
      t = start + j * ws, which lies inside the sequence. */
  lemma GcSeriesEntry(s: seq<char>, ws: nat, start: nat, j: nat, t: nat)
    requires 0 < ws && start <= |s|
    requires j < |GcSeriesFrom(s, ws, start)| && t == start + j * ws
    ensures t + ws <= |s|
    ensures GcSeriesFrom(s, ws, start)[j] == GcContent(s[t..t + ws])
  {
    SeriesEntry(s, ws, start, GcContent, j, t);
  }

  /** Every entry is a percentage. */
  lemma {:induction false} GcSeriesBounds(s: seq<char>, ws: nat, start: nat)
    requires 0 < ws && start <= |s|
    ensures forall i :: 0 <= i < |GcSeriesFrom(s, ws, start)| ==>
              0.0 <= GcSeriesFrom(s, ws, start)[i] <= 100.0
    decreases |s| - start
  {
    if |s| - start >= ws {
      GcSeriesBounds(s, ws, start + ws);
      GcSeriesUnfold(s, ws, start);
    }
  }

  /** Steps through the window starts 0, ws, 2 * ws, ... while a whole
      window still fits, appending the GC content of each window. */
  method GcWindows(sequence: seq<char>, windowSize: int) returns (gcValues: seq<real>)
    requires windowSize != 0
    ensures gcValues == GcSeries(sequence, windowSize)
    ensures windowSize > 0 ==> |gcValues| == |sequence| / windowSize
    ensures forall i :: 0 <= i < |gcValues| ==> 0.0 <= gcValues[i] <= 100.0
  {
    gcValues := [];
    if windowSize < 0 {
      return;
    }
    ghost var all := GcSeriesFrom(sequence, windowSize, 0);
    var i := 0;
    while i < |sequence| - windowSize + 1
      invariant i <= |sequence|
      invariant gcValues + GcSeriesFrom(sequence, windowSize, i) == all
      decreases |sequence| - i
    {
      var window := sequence[i..i + windowSize];
      if |window| == windowSize {
        GcStep(gcValues, sequence, windowSize, i, all);
        gcValues := gcValues + [GcContent(window)];
      }
      i := i + windowSize;
    }
    GcSeriesCount(sequence, windowSize, 0);
    GcSeriesBounds(sequence, windowSize, 0);
  }

  /** Appending the window at `start` moves it from the series still to
      come to the values collected so far. */
  lemma GcStep(done: seq<real>, s: seq<char>, ws: nat, start: nat, all: seq<real>)
    requires 0 < ws && start + ws <= |s|
    requires done + GcSeriesFrom(s, ws, start) == all
    ensures (done + [GcContent(s[start..start + ws])]) + GcSeriesFrom(s, ws, start + ws) == all
  {
    GcSeriesUnfold(s, ws, start);
    AppendAssociative(done, GcContent(s[start..start + ws]), GcSeriesFrom(s, ws, start + ws));
  }

  /** analyze_gc_content_similarity: 0 when either series is empty or the
      shorter one has a single window; otherwise the correlation of the two
      series cut to the shorter length, with NaN read as 0. */
  function GcSimilarity(s1: seq<char>, s2: seq<char>, windowSize: int,
                        pearson: (seq<real>, seq<real>) -> Option<real>): real
    requires windowSize != 0
  {
    var gc1, gc2 := GcSeries(s1, windowSize), GcSeries(s2, windowSize);
    if gc1 == [] || gc2 == [] then 0.0
    else
      var minWindows := Min(|gc1|, |gc2|);
      if minWindows > 1 then
        match pearson(gc1[..minWindows], gc2[..minWindows])
        case Some(r) => r
        case None => 0.0
      else 0.0
  }

  method AnalyzeGcSimilarity(seq1: seq<char>, seq2: seq<char>, windowSize: int,
                             pearson: (seq<real>, seq<real>) -> Option<real>) returns (r: real)
    requires windowSize != 0
    ensures r == GcSimilarity(seq1, seq2, windowSize, pearson)
  {
    var gc1 := GcWindows(seq1, windowSize);
    var gc2 := GcWindows(seq2, windowSize);
    if gc1 == [] || gc2 == [] {
      return 0.0;
    }
    var minWindows := Min(|gc1|, |gc2|);
    gc1, gc2 := gc1[..minWindows], gc2[..minWindows];
    if |gc1| > 1 {
      var correlation := pearson(gc1, gc2);
      r := if correlation.Some? then correlation.value else 0.0;
    } else {
      r := 0.0;
    }
  }

  /** Without two whole windows in the shorter sequence there is nothing to
      correlate, and the metric is 0. */
  lemma ShortSequencesNoCorrelation(s1: seq<char>, s2: seq<char>, windowSize: int,
                                    pearson: (seq<real>, seq<real>) -> Option<real>)
    requires 0 < windowSize
    requires Min(|s1|, |s2|) < 2 * windowSize
    ensures GcSimilarity(s1, s2, windowSize, pearson) == 0.0
  {
    GcSeriesCount(s1, windowSize, 0);
    GcSeriesCount(s2, windowSize, 0);
    var m := Min(|s1|, |s2|);
    DivideBelow(m, windowSize);
  }

  /** With two whole windows in both sequences the metric is the
      correlation of the leading Min(len1, len2) // ws windows, or 0 for NaN. */
  lemma LongSequencesCorrelate(s1: seq<char>, s2: seq<char>, windowSize: int,
                               pearson: (seq<real>, seq<real>) -> Option<real>)
    requires 0 < windowSize
    requires 2 * windowSize <= Min(|s1|, |s2|)
    ensures var n := Min(|s1|, |s2|) / windowSize;
            var gc1, gc2 := GcSeries(s1, windowSize), GcSeries(s2, windowSize);
            n <= |gc1| && n <= |gc2| &&
            GcSimilarity(s1, s2, windowSize, pearson)
              == (match pearson(gc1[..n], gc2[..n]) case Some(r) => r case None => 0.0)
  {
    var gc1, gc2 := GcSeries(s1, windowSize), GcSeries(s2, windowSize);
    GcSeriesCount(s1, windowSize, 0);
    GcSeriesCount(s2, windowSize, 0);
    assert |gc1| == |s1| / windowSize && |gc2| == |s2| / windowSize;
    ShorterWindows(|s1|, |s2|, windowSize);
  }

  /** The shorter sequence has the fewer windows, and at least two of them. */
  lemma ShorterWindows(l1: nat, l2: nat, w: nat)
    requires 0 < w && 2 * w <= Min(l1, l2)
    ensures Min(l1, l2) / w == Min(l1 / w, l2 / w) && 1 < Min(l1, l2) / w
  {
    DivideAtLeastTwo(Min(l1, l2), w);
    DivideMonotone(Min(l1, l2), l1, w);
    DivideMonotone(Min(l1, l2), l2, w);
  }

  /** If the correlation does not depend on the order of its arguments,
      neither does the metric. */
  lemma GcSimilaritySymmetric(s1: seq<char>, s2: seq<char>, windowSize: int,
                              pearson: (seq<real>, seq<real>) -> Option<real>)
    requires windowSize != 0
    requires forall x, y :: pearson(x, y) == pearson(y, x)
    ensures GcSimilarity(s1, s2, windowSize, pearson) == GcSimilarity(s2, s1, windowSize, pearson)
  {
    var gc1, gc2 := GcSeries(s1, windowSize), GcSeries(s2, windowSize);
    if gc1 != [] && gc2 != [] {
      var m := Min(|gc1|, |gc2|);
      assert Min(|gc2|, |gc1|) == m;
      assert pearson(gc1[..m], gc2[..m]) == pearson(gc2[..m], gc1[..m]);
    }
  }

  lemma DivideBelow(m: nat, w: nat)
    requires 0 < w && m < 2 * w
    ensures m / w <= 1
  {
    if m < w {
      DivideUnique(m, w, 0, m);
    } else {
      DivideUnique(m, w, 1, m - w);
    }
  }

  lemma DivideAtLeastTwo(m: nat, w: nat)
    requires 0 < w && 2 * w <= m
    ensures 2 <= m / w
  {
    DivideStep(m, w);
    DivideStep(m - w, w);
  }

  lemma {:induction false} DivideMonotone(m: nat, n: nat, w: nat)
    requires 0 < w && m <= n
    ensures m / w <= n / w
    decreases n - m
  {
    if m < n {
      DivideMonotone(m, n - 1, w);
      var q, r := (n - 1) / w, (n - 1) % w;
      if r + 1 < w {
        DivideUnique(n, w, q, r + 1);
      } else {
        assert n == (q + 1) * w;
        DivideUnique(n, w, q + 1, 0);
      }
    }
  }
}
