/** Plain values standing for the htslib objects the annotator handles:
    variant records, the VCF header, the float stored in an INFO field,
    and the effects the program has on the files it opens. */
module Vcf {

  datatype Option<+T> = None | Some(value: T)

  /** A single-precision value as C produces it for `(float)count / length`:
      a finite number (kept as an exact real, rounding is not modelled) or
      the NaN that `0.0f / 0` gives. */
  datatype Float = Finite(value: real) | NaN

  /** The value of one INFO field of a record. The annotator only ever
      writes float fields; the fields a record already carries are kept
      as their raw text. */
  datatype InfoValue = FloatValue(x: Float) | Raw(text: string)

  /** A variant record: its chromosome name (what `bcf_seqname` gives),
      its 0-based position (`rec->pos`) and its INFO fields by name. */
  datatype Record = Record(chrom: string, pos: int, info: map<string, InfoValue>)

  /** A VCF header: the `##` meta-information lines in order, and the
      `#CHROM ...` column line that always comes last. Lines are kept
      without their terminating newline. */
  datatype Header = Header(meta: seq<string>, columns: string)

  /** The observable effects of one run, in the order they happen. */
  datatype Effect =
    | OpenInput(path: string)
    | OpenOutput(path: string)
    | WriteHeader(header: Header)
    | LoadReference(path: string)
    | WriteRecord(record: Record)
}
