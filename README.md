# annotate_gc_content in Dafny

A model of `annotate_gc_content`, a small C program that adds a `GC` INFO
field to every record of a VCF file. For each variant it fetches a window of
reference bases centred on the variant from an indexed FASTA file. It then
stores the fraction of G/C bases in that window as the record's `GC` value.

The model has five modules:

- `Vcf` (vcf.dfy): the values the program handles. These are records
  (chromosome, 0-based position, INFO fields), the header (meta lines plus
  the `#CHROM` column line), the float stored in `GC` (finite or NaN), and
  the effects a run has on files (opening, writing a header, writing a
  record).
- `GcContent` (gc_content.dfy): `calculate_gc_content`. This is a loop
  that counts G, C, g and c and divides by the window length. A recursive
  `GcCount` specifies it. The score is an exact `real`.
- `WindowBounds` (window_bounds.dfy): the bounds `start = max(0, pos - w/2)`
  and `end = pos + w/2` handed to the fetch, where `/` is C's truncating
  division (`CDiv`).
- `HeaderExtension` (header_extension.dfy): the
  `##INFO=<ID=GC,Number=1,Type=Float,Description="GC content in <w> base pair window around the variant">`
  line and its addition to the header.
- `Pipeline` (pipeline.dfy): `main`. It checks the arguments, extends and
  writes the header, loads the reference, and then runs the record loop.
  The loop annotates and writes a record whose fetch succeeds. It drops a
  record whose fetch returns NULL and goes on with the next one.

`main` is modelled as a method that returns a `Run`: the exit status, plus
every file effect in the order it happens. What the outside world supplies
becomes a parameter:

- the argument vector and `atoi`;
- what opening and reading the input VCF gives (`InputVcf`);
- the loaded FASTA index, as a fetch function
  `(chrom, start, end) -> Option<seq<char>>`, or `None` when `fai_load` fails.

Behaviour the model keeps from the code:

- The argument-count check and the window-size check come before any file
  is opened. A failing check leaves the effect trace empty.
- The extended header is written before the FASTA index is loaded. A run
  whose index fails to load therefore exits with failure after it has
  already written the header to the output.
- `calculate_gc_content` divides without a guard. A fetch that returns an
  empty window therefore stores NaN in `GC`.
- The record loop stops as soon as `bcf_read` returns anything other than
  0. A read error in the middle of the file ends the run as successfully as
  end of file does. `InputVcf.records` is the list of records read before
  that point.

## Model

| member | source | states |
|---|---|---|
| `GcContent.GcCount` | annotate_gc_content.c:10-15 | the GC count of a window never exceeds its length |
| `GcContent.CalculateGcContent` | annotate_gc_content.c:9-18 | the loop's result is the exact GC score of the first `length` bases: NaN when `length` is 0, `GcCount/length` otherwise |
| `GcContent.GcFraction` | annotate_gc_content.c:17 | for a non-empty window the score `count/length` lies in [0, 1] |
| `GcContent.GcScore` | annotate_gc_content.c:17 | the returned value is NaN exactly when the window is empty, otherwise a value in [0, 1] |
| `GcContent.GcCountIsNumberOfGcPositions` | annotate_gc_content.c:10-15 | the count equals the number of indices holding G, C, g or c |
| `GcContent.GcCountFullIff` | annotate_gc_content.c:11-15 | the count equals the length if and only if every base is G, C, g or c |
| `GcContent.GcCountZeroIff` | annotate_gc_content.c:11-15 | the count is 0 if and only if no base is G, C, g or c |
| `GcContent.GcFractionExtremes` | annotate_gc_content.c:12-17 | the score is 1 exactly for all-GC windows and 0 exactly for windows without G/C |
| `GcContent.GcCountIgnoresCase` | annotate_gc_content.c:12 | upper-casing a window does not change its count: the match is case-insensitive |
| `WindowBounds.CDiv` | annotate_gc_content.c:76-77 | C division truncates toward zero and agrees with Euclidean division for a non-negative dividend |
| `WindowBounds.WindowAround` | annotate_gc_content.c:76-78 | the lower bound of the window is never negative |
| `WindowBounds.WindowAroundBounds` | annotate_gc_content.c:76-78 | `end = pos + w/2` is never clamped; `start` is `pos - w/2` or 0; `start <= pos <= end` for `pos >= 0`; `end - start <= 2*(w/2) <= w`, with equality exactly when `pos >= w/2` |
| `HeaderExtension.DecimalString` | annotate_gc_content.c:53 | `%d` of a positive window size is a non-empty string of decimal digits without a leading zero |
| `HeaderExtension.DecimalRoundTrip` | annotate_gc_content.c:53 | reading the rendered digits back gives the window size |
| `HeaderExtension.GcInfoLine` | annotate_gc_content.c:50-53 | the formatted line declares the INFO field `GC` |
| `HeaderExtension.GcInfoLineEmbedsWindowSize` | annotate_gc_content.c:53 | the description text carries the window size's digits between its fixed head and tail |
| `HeaderExtension.GcInfoLineInjective` | annotate_gc_content.c:50-53 | two window sizes give the same INFO line if and only if they are equal |
| `HeaderExtension.ExtendHeader` | annotate_gc_content.c:54 | the extended header has the original meta lines unchanged, then the GC line, and the same column line; the number of GC declarations grows by exactly one |
| `Pipeline.Annotate` | annotate_gc_content.c:93 | setting GC keeps chromosome and position, adds or replaces only the `GC` key, and leaves every other INFO field as it was |
| `Pipeline.AnnotateAll` | annotate_gc_content.c:71-97 | the loop never writes more records than it reads |
| `Pipeline.OutputIsFetchedRecordsInOrder` | annotate_gc_content.c:82-94 | the written records are exactly the input records whose fetch succeeded, in input order, each annotated with the GC score of its own window |
| `Pipeline.OutputRecordsCarryGc` | annotate_gc_content.c:89-94 | every written record has a float `GC` field that is NaN or lies in [0, 1] |
| `Pipeline.AnnotateAllAppend` | annotate_gc_content.c:71-97 | the output for two consecutive runs of input is the concatenation of their outputs: each record is handled independently |
| `Pipeline.FailedFetchSkipsOnlyThatRecord` | annotate_gc_content.c:84-87 | a failed fetch drops only that record; the records after it are processed as if it had not been read |
| `Pipeline.RecordWrites` | annotate_gc_content.c:94 | the loop's writes are one record write per output record, in order |
| `Pipeline.HeaderWrittenOnceBeforeRecords` | annotate_gc_content.c:54-94 | a run that reaches the loop writes the header exactly once and never writes a header after a record |
| `Pipeline.AnnotateRecords` | annotate_gc_content.c:70-97 | the loop writes exactly `AnnotateAll` of the records read, in order |
| `Pipeline.AnnotateGcContent` | annotate_gc_content.c:20-106 | wrong argument count or window size `<= 0` fail with no file touched; an unopenable input or unreadable header fails after the input open only; a failed index load fails after the header was written; otherwise the run succeeds with open, open, extended header, index load, then the annotated records |

## Left out

- htslib's VCF reading and writing (`bcf_open`, `bcf_hdr_read`, `bcf_read`, `bcf_write`, `bcf_hdr_write`, `bcf_seqname`) are foreign calls. Records and headers are plain values, and their outcomes are parameters.
- `fai_load` and the inside of `faidx_fetch_seq` are not modelled. The fetch is a function parameter. Whether `end` is inclusive, and how the window is clamped to the contig length, are the index's business.
- `atoi` is a function parameter.
- `snprintf`/`malloc`/`free` buffer sizing and freeing the fetched sequence have no behavioural content once strings are values.
- The usage and error messages written to `stderr` are not modelled.
- Resource teardown at lines 99-103 is not modelled. Neither is the missing `bcf_close(out_vcf)` on the FASTA-failure path.
- Lines 55-56 do not check whether the output file opened. The model assumes it did.
- `HeaderExtension.ExtendHeader`: modelled as a plain append of the GC line. htslib's handling of an input header that already declares `INFO/GC` is not modelled.
- `GcContent.CalculateGcContent`: returns the exact quotient `count/length` as a real, not the rounded single-precision value of `(float)gc_count / length`. It also requires `0 <= length`, because its only caller passes the length the fetch reported.
- `WindowBounds.WindowAround`: uses unbounded integers, so the C `int` overflow of `pos + window_size / 2` near `INT_MAX` is not modelled.
- `Pipeline.AnnotateRecords`: assumes every record position fits in a C `int`. The narrowing of `rec->pos` into `int pos` at line 72, and of the bounds into `int start` and `int end` at lines 76-77, is not modelled, so an out-of-range position is fetched at its true coordinate.
