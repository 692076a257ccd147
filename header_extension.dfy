/** The INFO line declaring the GC field and its addition to the header
    (`main`, lines 50-56). */
module HeaderExtension {
  import opened Vcf

  /** `%d` of a non-negative number: its decimal digits, no leading zero. */
  function DecimalString(n: nat): (s: string)
    ensures |s| > 0
    ensures forall i :: 0 <= i < |s| ==> '0' <= s[i] <= '9'
    ensures n > 0 ==> s[0] != '0'
  {
    if n < 10 then [('0' as int + n) as char]
    else DecimalString(n / 10) + [('0' as int + n % 10) as char]
  }

  /** The number a string of decimal digits spells. */
  function DecimalValue(s: string): nat
    requires forall i :: 0 <= i < |s| ==> '0' <= s[i] <= '9'
  {
    if s == [] then 0
    else DecimalValue(s[..|s| - 1]) * 10 + (s[|s| - 1] as int - '0' as int)
  }

  /** The decimal rendering loses nothing: reading it back gives `n`. */
  lemma {:induction false} DecimalRoundTrip(n: nat)
    ensures DecimalValue(DecimalString(n)) == n
  {
    var s := DecimalString(n);
    if n >= 10 {
      DecimalRoundTrip(n / 10);
      assert s[..|s| - 1] == DecimalString(n / 10);
    }
  }

  /** Every line declaring the GC INFO field begins with this. */
  const GcDeclarationPrefix := "##INFO=<ID=GC,"
  const DescriptionHead := GcDeclarationPrefix + "Number=1,Type=Float,Description=\"GC content in "
  const DescriptionTail := " base pair window around the variant\">"

  /** The line the program formats with `sprintf` and hands to
      `bcf_hdr_append` (without its newline). */
  function GcInfoLine(windowSize: int): (line: string)
    requires windowSize > 0
    ensures DeclaresGc(line)
  {
    DescriptionHead + DecimalString(windowSize) + DescriptionTail
  }

  /** The window size the description of a GC line mentions. */
  lemma GcInfoLineEmbedsWindowSize(windowSize: int)
    requires windowSize > 0
    ensures var line := GcInfoLine(windowSize);
      |DescriptionHead| <= |line| - |DescriptionTail|
      && line[|DescriptionHead|..|line| - |DescriptionTail|] == DecimalString(windowSize)
  {
  }

  /** Different window sizes give different INFO lines. */
  lemma GcInfoLineInjective(w1: int, w2: int)
    requires w1 > 0 && w2 > 0
    ensures GcInfoLine(w1) == GcInfoLine(w2) <==> w1 == w2
  {
    if GcInfoLine(w1) == GcInfoLine(w2) {
      GcInfoLineEmbedsWindowSize(w1);
      GcInfoLineEmbedsWindowSize(w2);
      DecimalRoundTrip(w1);
      DecimalRoundTrip(w2);
    }
  }

  predicate DeclaresGc(line: string) {
    GcDeclarationPrefix <= line
  }

  /** How many of `lines` declare the GC INFO field. */
  function GcDeclarationCount(lines: seq<string>): (n: nat)
    ensures n <= |lines|
  {
    if lines == [] then 0
    else GcDeclarationCount(lines[..|lines| - 1]) + (if DeclaresGc(lines[|lines| - 1]) then 1 else 0)
  }

  /** `bcf_hdr_append(hdr, hdr_str)`: the GC line joins the meta lines
      after all existing ones (htslib writes the column line last). */
  function ExtendHeader(header: Header, windowSize: int): (extended: Header)
    requires windowSize > 0
    ensures extended.columns == header.columns
    ensures |extended.meta| == |header.meta| + 1
    ensures extended.meta[..|header.meta|] == header.meta
    ensures extended.meta[|header.meta|] == GcInfoLine(windowSize)
    ensures GcDeclarationCount(extended.meta) == GcDeclarationCount(header.meta) + 1
  {
    var meta := header.meta + [GcInfoLine(windowSize)];
    assert meta[..|meta| - 1] == header.meta;
    Header(meta, header.columns)
  }
}
