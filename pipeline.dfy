/** The program itself (`main`): argument checks, header extension, and
    the loop that annotates each record or drops it. */
module Pipeline {
  import opened Vcf
  import opened GcContent
  import opened WindowBounds
  import opened HeaderExtension

  /** `faidx_fetch_seq(fai, chrom, start, end, &len)` on a loaded index:
      the bases of the region, or None where htslib returns NULL. */
  type Fetch = (string, int, int) -> Option<seq<char>>

  /** What opening and reading the input VCF yields: it cannot be opened,
      its header cannot be read, or a header and the records `bcf_read`
      delivers before it stops returning 0. */
  datatype InputVcf =
    | CannotOpen
    | NoHeader
    | Readable(header: Header, records: seq<Record>)

  datatype Failure =
    | BadArgumentCount
    | BadWindowSize
    | InputOpenFailed
    | HeaderReadFailed
    | ReferenceLoadFailed

  datatype ExitStatus = ExitSuccess | ExitFailure(reason: Failure)

  /** The exit status of a run and everything it did to files, in order. */
  datatype Run = Run(status: ExitStatus, effects: seq<Effect>)

  const GcKey := "GC"

  /** `bcf_update_info_float(hdr, rec, "GC", &gc_content, 1)`: sets the GC
      field, replacing any earlier value, and touches nothing else. */
  function Annotate(rec: Record, gc: Float): (annotated: Record)
    ensures annotated.chrom == rec.chrom && annotated.pos == rec.pos
    ensures annotated.info.Keys == rec.info.Keys + {GcKey}
    ensures annotated.info[GcKey] == FloatValue(gc)
    ensures forall k :: k in rec.info && k != GcKey ==> annotated.info[k] == rec.info[k]
  {
    rec.(info := rec.info[GcKey := FloatValue(gc)])
  }

  /** The bases fetched for `rec`: its window around `rec->pos`, looked up
      on its own chromosome. */
  function WindowBases(rec: Record, windowSize: int, fetch: Fetch): Option<seq<char>>
    requires windowSize > 0
  {
    var w := WindowAround(rec.pos, windowSize);
    fetch(rec.chrom, w.start, w.end)
  }

  predicate Fetched(rec: Record, windowSize: int, fetch: Fetch)
    requires windowSize > 0
  {
    WindowBases(rec, windowSize, fetch).Some?
  }

  /** The outcome of one loop iteration for `rec`: the annotated record
      to write, or None when the fetch fails and the record is skipped. */
  function ProcessRecord(rec: Record, windowSize: int, fetch: Fetch): Option<Record>
    requires windowSize > 0
  {
    match WindowBases(rec, windowSize, fetch)
    case None => None
    case Some(bases) => Some(Annotate(rec, GcScore(bases)))
  }

  /** The records the loop writes, in order, for the records read. */
  function AnnotateAll(records: seq<Record>, windowSize: int, fetch: Fetch): (out: seq<Record>)
    requires windowSize > 0
    ensures |out| <= |records|
  {
    if records == [] then []
    else
      var n := |records| - 1;
      AnnotateAll(records[..n], windowSize, fetch) + Emitted(records[n], windowSize, fetch)
  }

  /** What the loop writes for one record: nothing, or its annotated copy. */
  function Emitted(rec: Record, windowSize: int, fetch: Fetch): seq<Record>
    requires windowSize > 0
  {
    match ProcessRecord(rec, windowSize, fetch)
    case None => []
    case Some(annotated) => [annotated]
  }

  /** The positions of the records whose fetch succeeds, in increasing order. */
  function KeptPositions(records: seq<Record>, windowSize: int, fetch: Fetch): seq<nat>
    requires windowSize > 0
  {
    if records == [] then []
    else
      var n := |records| - 1;
      KeptPositions(records[..n], windowSize, fetch)
      + if Fetched(records[n], windowSize, fetch) then [n] else []
  }

  /** The output is exactly the input records whose fetch succeeded, in
      input order, each annotated with the GC score of its own window. */
  lemma {:induction false} OutputIsFetchedRecordsInOrder(records: seq<Record>, windowSize: int, fetch: Fetch)
    requires windowSize > 0
    ensures |KeptPositions(records, windowSize, fetch)| == |AnnotateAll(records, windowSize, fetch)|
    ensures forall j :: 0 <= j < |KeptPositions(records, windowSize, fetch)| ==>
      KeptPositions(records, windowSize, fetch)[j] < |records|
    ensures forall j :: 0 <= j < |KeptPositions(records, windowSize, fetch)| ==>
      var rec := records[KeptPositions(records, windowSize, fetch)[j]];
      Fetched(rec, windowSize, fetch)
      && AnnotateAll(records, windowSize, fetch)[j]
         == Annotate(rec, GcScore(WindowBases(rec, windowSize, fetch).value))
    ensures forall j, k :: 0 <= j < k < |KeptPositions(records, windowSize, fetch)| ==>
      KeptPositions(records, windowSize, fetch)[j] < KeptPositions(records, windowSize, fetch)[k]
    ensures forall i :: 0 <= i < |records| ==>
      (Fetched(records[i], windowSize, fetch) <==> i in KeptPositions(records, windowSize, fetch))
  {
    if records != [] {
      var n := |records| - 1;
      var prefix := records[..n];
      OutputIsFetchedRecordsInOrder(prefix, windowSize, fetch);
      var ks := KeptPositions(prefix, windowSize, fetch);
      var out := AnnotateAll(prefix, windowSize, fetch);
      assert forall i :: 0 <= i < n ==> records[i] == prefix[i];
      if Fetched(records[n], windowSize, fetch) {
        assert KeptPositions(records, windowSize, fetch) == ks + [n];
        assert AnnotateAll(records, windowSize, fetch) == out + [ProcessRecord(records[n], windowSize, fetch).value];
      } else {
        assert KeptPositions(records, windowSize, fetch) == ks;
        assert AnnotateAll(records, windowSize, fetch) == out;
      }
    }
  }

  /** Every record the loop writes declares GC as a float that is NaN
      (an empty window) or lies between 0 and 1. */
  predicate CarriesGc(rec: Record) {
    GcKey in rec.info && rec.info[GcKey].FloatValue?
    && (rec.info[GcKey].x.Finite? ==> 0.0 <= rec.info[GcKey].x.value <= 1.0)
  }

  lemma {:induction false} OutputRecordsCarryGc(records: seq<Record>, windowSize: int, fetch: Fetch)
    requires windowSize > 0
    ensures forall r :: r in AnnotateAll(records, windowSize, fetch) ==> CarriesGc(r)
  {
    if records != [] {
      var n := |records| - 1;
      OutputRecordsCarryGc(records[..n], windowSize, fetch);
    }
  }

  /** Splitting the input splits the output: each record is handled on
      its own, whatever came before it. */
  lemma {:induction false} AnnotateAllAppend(a: seq<Record>, b: seq<Record>, windowSize: int, fetch: Fetch)
    requires windowSize > 0
    ensures AnnotateAll(a + b, windowSize, fetch)
         == AnnotateAll(a, windowSize, fetch) + AnnotateAll(b, windowSize, fetch)
  {
    if b == [] {
      assert a + b == a;
    } else {
      var n := |b| - 1;
      var ab := a + b;
      var last := Emitted(b[n], windowSize, fetch);
      calc {
        AnnotateAll(ab, windowSize, fetch);
        == { assert ab[..|ab| - 1] == a + b[..n]; assert ab[|ab| - 1] == b[n]; }
        AnnotateAll(a + b[..n], windowSize, fetch) + last;
        == { AnnotateAllAppend(a, b[..n], windowSize, fetch); }
        AnnotateAll(a, windowSize, fetch) + AnnotateAll(b[..n], windowSize, fetch) + last;
        AnnotateAll(a, windowSize, fetch) + AnnotateAll(b, windowSize, fetch);
      }
    }
  }

  /** A failed fetch is not fatal: the record is left out and the records
      after it are processed as if it had never been read. */
  lemma FailedFetchSkipsOnlyThatRecord(records: seq<Record>, i: nat, windowSize: int, fetch: Fetch)
    requires windowSize > 0
    requires i < |records|
    requires !Fetched(records[i], windowSize, fetch)
    ensures AnnotateAll(records, windowSize, fetch)
         == AnnotateAll(records[..i], windowSize, fetch) + AnnotateAll(records[i + 1..], windowSize, fetch)
  {
    var before, r, after := records[..i], records[i], records[i + 1..];
    assert AnnotateAll([r], windowSize, fetch) == [] by {
      assert [r][..0] == [];
      assert Emitted(r, windowSize, fetch) == [];
    }
    calc {
      AnnotateAll(records, windowSize, fetch);
      == { assert records == (before + [r]) + after; }
      AnnotateAll((before + [r]) + after, windowSize, fetch);
      == { AnnotateAllAppend(before + [r], after, windowSize, fetch); }
      AnnotateAll(before + [r], windowSize, fetch) + AnnotateAll(after, windowSize, fetch);
      == { AnnotateAllAppend(before, [r], windowSize, fetch); }
      AnnotateAll(before, windowSize, fetch) + AnnotateAll(after, windowSize, fetch);
    }
  }

  /** The writes of a sequence of records, one per record, in order. */
  function RecordWrites(records: seq<Record>): (effects: seq<Effect>)
    ensures |effects| == |records|
    ensures forall i :: 0 <= i < |records| ==> effects[i] == WriteRecord(records[i])
  {
    if records == [] then []
    else RecordWrites(records[..|records| - 1]) + [WriteRecord(records[|records| - 1])]
  }

  /** What a run does up to the record loop once the arguments are good
      and the input header has been read. */
  function Prologue(vcfFile: string, outputFile: string, fastaFile: string, header: Header, windowSize: int): seq<Effect>
    requires windowSize > 0
  {
    [OpenInput(vcfFile), OpenOutput(outputFile), WriteHeader(ExtendHeader(header, windowSize)), LoadReference(fastaFile)]
  }

  function HeaderWriteCount(effects: seq<Effect>): nat {
    if effects == [] then 0
    else HeaderWriteCount(effects[..|effects| - 1]) + (if effects[|effects| - 1].WriteHeader? then 1 else 0)
  }

  lemma {:induction false} RecordWritesWriteNoHeader(records: seq<Record>)
    ensures HeaderWriteCount(RecordWrites(records)) == 0
  {
    if records != [] {
      var n := |records| - 1;
      RecordWritesWriteNoHeader(records[..n]);
      assert RecordWrites(records)[..n] == RecordWrites(records[..n]);
    }
  }

  lemma {:induction false} HeaderWriteCountAppend(a: seq<Effect>, b: seq<Effect>)
    ensures HeaderWriteCount(a + b) == HeaderWriteCount(a) + HeaderWriteCount(b)
  {
    if b == [] {
      assert a + b == a;
    } else {
      var n := |b| - 1;
      HeaderWriteCountAppend(a, b[..n]);
      assert (a + b)[..|a + b| - 1] == a + b[..n];
    }
  }

  /** In a run that gets to the record loop, the extended header is written
      exactly once, and no header is written after any record. */
  lemma HeaderWrittenOnceBeforeRecords(vcfFile: string, outputFile: string, fastaFile: string,
                                       header: Header, windowSize: int, records: seq<Record>)
    requires windowSize > 0
    ensures var effects := Prologue(vcfFile, outputFile, fastaFile, header, windowSize) + RecordWrites(records);
      HeaderWriteCount(effects) == 1
      && (forall i, j :: 0 <= i < j < |effects| && effects[i].WriteRecord? ==> !effects[j].WriteHeader?)
  {
    var prologue := Prologue(vcfFile, outputFile, fastaFile, header, windowSize);
    HeaderWriteCountAppend(prologue, RecordWrites(records));
    RecordWritesWriteNoHeader(records);
    assert HeaderWriteCount(prologue[..1]) == 0 by { assert prologue[..1][..0] == []; }
    assert HeaderWriteCount(prologue[..2]) == 0 by { assert prologue[..2][..1] == prologue[..1]; }
    assert HeaderWriteCount(prologue[..3]) == 1 by { assert prologue[..3][..2] == prologue[..2]; }
    assert prologue[..|prologue| - 1] == prologue[..3];
  }

  /** The `while (bcf_read(...) == 0)` loop of `main`: each record read
      into the reused buffer `rec` gets its window fetched; on NULL it is
      skipped, otherwise it is annotated and written. */
  method AnnotateRecords(records: seq<Record>, windowSize: int, fetch: Fetch) returns (writes: seq<Effect>)
    requires windowSize > 0
    ensures writes == RecordWrites(AnnotateAll(records, windowSize, fetch))
  {
    writes := [];
    var rec: Record;
    var i := 0;
    while i < |records|
      invariant 0 <= i <= |records|
      invariant writes == RecordWrites(AnnotateAll(records[..i], windowSize, fetch))
    {
      ghost var written := AnnotateAll(records[..i], windowSize, fetch);
      assert records[..i + 1][..i] == records[..i];
      rec := records[i];
      i := i + 1;
      var window := WindowAround(rec.pos, windowSize);
      var bases := fetch(rec.chrom, window.start, window.end);
      if bases.None? {
        assert AnnotateAll(records[..i], windowSize, fetch) == written;
        continue;
      }
      var gcContent := CalculateGcContent(bases.value, |bases.value|);
      assert bases.value[..|bases.value|] == bases.value;
      rec := Annotate(rec, gcContent);
      assert AnnotateAll(records[..i], windowSize, fetch) == written + [rec];
      assert (written + [rec])[..|written|] == written;
      writes := writes + [WriteRecord(rec)];
    }
    assert records[..i] == records;
  }

  /** `main(argc, argv)`. `atoi` is the C library's conversion of the
      window-size argument; `input` and `reference` are what opening the
      VCF and loading the FASTA index yield. */
  method AnnotateGcContent(argv: seq<string>, atoi: string -> int, input: InputVcf, reference: Option<Fetch>)
    returns (run: Run)
    ensures |argv| != 5 ==> run == Run(ExitFailure(BadArgumentCount), [])
    ensures |argv| == 5 && atoi(argv[1]) <= 0 ==> run == Run(ExitFailure(BadWindowSize), [])
    ensures |argv| == 5 && atoi(argv[1]) > 0 && input.CannotOpen? ==>
      run == Run(ExitFailure(InputOpenFailed), [OpenInput(argv[3])])
    ensures |argv| == 5 && atoi(argv[1]) > 0 && input.NoHeader? ==>
      run == Run(ExitFailure(HeaderReadFailed), [OpenInput(argv[3])])
    ensures |argv| == 5 && atoi(argv[1]) > 0 && input.Readable? && reference.None? ==>
      run == Run(ExitFailure(ReferenceLoadFailed),
                 Prologue(argv[3], argv[4], argv[2], input.header, atoi(argv[1])))
    ensures |argv| == 5 && atoi(argv[1]) > 0 && input.Readable? && reference.Some? ==>
      run == Run(ExitSuccess,
                 Prologue(argv[3], argv[4], argv[2], input.header, atoi(argv[1]))
                 + RecordWrites(AnnotateAll(input.records, atoi(argv[1]), reference.value)))
  {
    if |argv| != 5 {
      return Run(ExitFailure(BadArgumentCount), []);
    }
    var windowSize := atoi(argv[1]);
    var fastaFile, vcfFile, outputFile := argv[2], argv[3], argv[4];
    if windowSize <= 0 {
      return Run(ExitFailure(BadWindowSize), []);
    }

    var effects := [OpenInput(vcfFile)];
    if input.CannotOpen? {
      return Run(ExitFailure(InputOpenFailed), effects);
    }
    if input.NoHeader? {
      return Run(ExitFailure(HeaderReadFailed), effects);
    }

    var hdr := input.header;
    hdr := ExtendHeader(hdr, windowSize);
    effects := effects + [OpenOutput(outputFile), WriteHeader(hdr)];

    effects := effects + [LoadReference(fastaFile)];
    if reference.None? {
      return Run(ExitFailure(ReferenceLoadFailed), effects);
    }
    var fetch := reference.value;

    assert effects == Prologue(vcfFile, outputFile, fastaFile, input.header, windowSize);
    var writes := AnnotateRecords(input.records, windowSize, fetch);
    effects := effects + writes;
    return Run(ExitSuccess, effects);
  }
}
