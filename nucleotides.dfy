/** Base counting over nucleotide strings and the GC percentage that both
    analysis scripts compute the same way. Sequences are plain character
    strings: the source does not reject symbols outside A, C, G, T, N. */
module Nucleotides {
  import opened Sums

  /** str.upper() on one character, for the ASCII letters. */
  function Upper(c: char): char
  {
    if 'a' <= c <= 'z' then (c as int - 32) as char else c
  }

  /** str.upper() on a whole string, character by character: no lower-case
      letter remains, and every other character is kept. */
  function UpperCase(s: seq<char>): (u: seq<char>)
    ensures |u| == |s|
    ensures forall i :: 0 <= i < |u| ==> !('a' <= u[i] <= 'z')
    ensures forall i :: 0 <= i < |s| && !('a' <= s[i] <= 'z') ==> u[i] == s[i]
  {
    seq(|s|, i requires 0 <= i < |s| => Upper(s[i]))
  }

  /** After upper-casing, an upper-case letter is counted together with its
      lower-case form: this is how 'g' and 'c' enter the GC percentage. */
  lemma {:induction false} UpperCaseCount(s: seq<char>, c: char)
    requires 'A' <= c <= 'Z'
    ensures Count(UpperCase(s), c) == Count(s, c) + Count(s, (c as int + 32) as char)
  {
    if s != [] {
      assert UpperCase(s)[1..] == UpperCase(s[1..]);
      UpperCaseCount(s[1..], c);
    }
  }

  /** str.count(c) for a single character `c`. */
  function Count(s: seq<char>, c: char): (n: nat)
    ensures n <= |s|
  {
    if s == [] then 0 else (if s[0] == c then 1 else 0) + Count(s[1..], c)
  }

  /** One of the four unambiguous bases, as `base in 'ATGC'` tests it. */
  predicate IsAcgt(c: char)
  {
    c == 'A' || c == 'T' || c == 'G' || c == 'C'
  }

  /** Number of unambiguous bases: len([b for b in s if b in 'ATGC']). */
  function CountAcgt(s: seq<char>): (n: nat)
    ensures n <= |s|
  {
    if s == [] then 0 else (if IsAcgt(s[0]) then 1 else 0) + CountAcgt(s[1..])
  }

  /** Counting distributes over concatenation (`''.join` of contigs). */
  lemma {:induction false} CountAppend(a: seq<char>, b: seq<char>, c: char)
    ensures Count(a + b, c) == Count(a, c) + Count(b, c)
  {
    if a == [] {
      assert a + b == b;
    } else {
      assert (a + b)[1..] == a[1..] + b;
      CountAppend(a[1..], b, c);
    }
  }

  /** The unambiguous bases are exactly the A, C, G and T occurrences. */
  lemma {:induction false} AcgtPartition(s: seq<char>)
    ensures Count(s, 'A') + Count(s, 'C') + Count(s, 'G') + Count(s, 'T') == CountAcgt(s)
  {
    if s != [] {
      AcgtPartition(s[1..]);
    }
  }

  /** The five base counts never exceed the length: each position is at most one base. */
  lemma {:induction false} BaseCountsBounded(s: seq<char>)
    ensures Count(s, 'A') + Count(s, 'T') + Count(s, 'G') + Count(s, 'C') + Count(s, 'N') <= |s|
  {
    if s != [] {
      BaseCountsBounded(s[1..]);
    }
  }

  /** Percentage of G and C among the unambiguous bases of the upper-cased
      sequence; 0 for an empty sequence or one without any A, C, G or T. */
  function GcContent(s: seq<char>): (r: real)
    ensures 0.0 <= r <= 100.0
    ensures s == [] || CountAcgt(UpperCase(s)) == 0 ==> r == 0.0
  {
    if s == [] then 0.0
    else
      var u := UpperCase(s);
      var gc := Count(u, 'G') + Count(u, 'C');
      var total := CountAcgt(u);
      if total == 0 then 0.0
      else
        AcgtPartition(u);
        ShareBounds(gc, total);
        gc as real / total as real * 100.0
  }

  /** GC and AT shares of the unambiguous bases add up to 100 percent. */
  lemma GcContentComplement(s: seq<char>)
    requires CountAcgt(UpperCase(s)) > 0
    ensures GcContent(s) + 100.0 * (Count(UpperCase(s), 'A') + Count(UpperCase(s), 'T')) as real
                                 / CountAcgt(UpperCase(s)) as real == 100.0
  {
    var u := UpperCase(s);
    AcgtPartition(u);
    var t := CountAcgt(u) as real;
    var gc := (Count(u, 'G') + Count(u, 'C')) as real;
    var at := (Count(u, 'A') + Count(u, 'T')) as real;
    assert GcContent(s) == gc / t * 100.0;
    SharesAddUp(gc, at, t);
  }

  lemma SharesAddUp(x: real, y: real, t: real)
    requires 0.0 < t && x + y == t
    ensures x / t * 100.0 + 100.0 * y / t == 100.0
  {
    assert x / t + y / t == 1.0;
  }
}
