/** The GC-content score of a fetched reference window
    (`calculate_gc_content`). */
module GcContent {
  import opened Vcf

  /** A base counts towards GC content exactly when it is G or C, in upper
      or lower case; no other symbol (not even the IUPAC code S) counts. */
  predicate IsGc(c: char) {
    c == 'G' || c == 'C' || c == 'g' || c == 'c'
  }

  /** The number of GC bases in `s`, counted front to back. */
  function GcCount(s: seq<char>): (n: nat)
    ensures n <= |s|
  {
    if s == [] then 0
    else GcCount(s[..|s| - 1]) + (if IsGc(s[|s| - 1]) then 1 else 0)
  }

  /** The GC score of a non-empty window as an exact fraction. */
  function GcFraction(s: seq<char>): (r: real)
    requires |s| > 0
    ensures 0.0 <= r <= 1.0
  {
    GcCount(s) as real / |s| as real
  }

  /** The value the C function returns for a window: the fraction, or NaN
      for an empty window, since the division is not guarded. */
  function GcScore(s: seq<char>): (v: Float)
    ensures v.NaN? <==> |s| == 0
    ensures v.Finite? ==> 0.0 <= v.value <= 1.0
  {
    if |s| == 0 then NaN else Finite(GcFraction(s))
  }

  /** `calculate_gc_content(sequence, length)`: scans the first `length`
      bases, counting the GC ones, then divides the count by `length`.
      The C caller passes the length the fetch reported, so `length` is
      never negative and never beyond the buffer. */
  method CalculateGcContent(sequence: seq<char>, length: int) returns (gc: Float)
    requires 0 <= length <= |sequence|
    ensures gc == GcScore(sequence[..length])
    ensures length == 0 <==> gc.NaN?
  {
    var gcCount := 0;
    var i := 0;
    while i < length
      invariant 0 <= i <= length
      invariant gcCount == GcCount(sequence[..i])
    {
      assert sequence[..i + 1][..i] == sequence[..i];
      if sequence[i] == 'G' || sequence[i] == 'C' || sequence[i] == 'g' || sequence[i] == 'c' {
        gcCount := gcCount + 1;
      }
      i := i + 1;
    }
    if length == 0 {
      gc := NaN;
    } else {
      gc := Finite(gcCount as real / length as real);
    }
  }

  /** The count is the number of positions holding a GC base. */
  lemma {:induction false} GcCountIsNumberOfGcPositions(s: seq<char>)
    ensures GcCount(s) == |set i | 0 <= i < |s| && IsGc(s[i])|
  {
    if s != [] {
      var n := |s| - 1;
      var p := s[..n];
      GcCountIsNumberOfGcPositions(p);
      var before := set i | 0 <= i < |p| && IsGc(p[i]);
      var after := set i | 0 <= i < |s| && IsGc(s[i]);
      if IsGc(s[n]) {
        assert after == before + {n};
      } else {
        assert after == before;
      }
    }
  }

  /** Every base is G or C exactly when the count reaches the length. */
  lemma {:induction false} GcCountFullIff(s: seq<char>)
    ensures GcCount(s) == |s| <==> forall i :: 0 <= i < |s| ==> IsGc(s[i])
  {
    if s != [] {
      var n := |s| - 1;
      var p := s[..n];
      GcCountFullIff(p);
      assert forall i :: 0 <= i < n ==> p[i] == s[i];
    }
  }

  /** No base is G or C exactly when the count is zero. */
  lemma {:induction false} GcCountZeroIff(s: seq<char>)
    ensures GcCount(s) == 0 <==> forall i :: 0 <= i < |s| ==> !IsGc(s[i])
  {
    if s != [] {
      var n := |s| - 1;
      var p := s[..n];
      GcCountZeroIff(p);
      assert forall i :: 0 <= i < n ==> p[i] == s[i];
    }
  }

  /** A window made only of G, C, g and c scores 1, and no other window
      does; a window with none of them scores 0, and no other window does. */
  lemma GcFractionExtremes(s: seq<char>)
    requires |s| > 0
    ensures GcFraction(s) == 1.0 <==> forall i :: 0 <= i < |s| ==> IsGc(s[i])
    ensures GcFraction(s) == 0.0 <==> forall i :: 0 <= i < |s| ==> !IsGc(s[i])
  {
    GcCountFullIff(s);
    GcCountZeroIff(s);
    var c, l := GcCount(s) as real, |s| as real;
    assert GcFraction(s) * l == c;
  }

  /** ASCII upper-casing, as `toupper` does in the C locale. */
  function UpperAscii(c: char): char {
    if 'a' <= c <= 'z' then (c as int - 32) as char else c
  }

  /** The match is case-insensitive: upper-casing a window leaves its count
      unchanged. */
  lemma {:induction false} GcCountIgnoresCase(s: seq<char>)
    ensures GcCount(seq(|s|, i requires 0 <= i < |s| => UpperAscii(s[i]))) == GcCount(s)
  {
    var u := seq(|s|, i requires 0 <= i < |s| => UpperAscii(s[i]));
    if s != [] {
      var n := |s| - 1;
      GcCountIgnoresCase(s[..n]);
      assert u[..n] == seq(n, i requires 0 <= i < n => UpperAscii(s[..n][i]));
      assert IsGc(u[n]) == IsGc(s[n]);
    }
  }
}
