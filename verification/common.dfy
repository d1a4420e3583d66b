/**
  Types shared by every part of the alignment workflow model: the dataset
  classification reported by the record store, the fatal configuration errors
  the workflow stops on, and a failure-compatible result type standing in for
  the process exits and exceptions of the workflow.
 */
module Common {

  /** Classification of a dataset or BAM file, as reported by the record store.
      `OtherType` stands for every classification the workflow does not name. */
  datatype DataSetType =
    | Subread
    | ConsensusRead
    | Alignment
    | ConsensusAlignment
    | Barcode
    | Reference
    | OtherType

  /** The read containers the aligner accepts as input. */
  predicate IsReadSet(t: DataSetType) {
    t == Subread || t == ConsensusRead
  }

  /** Every way the workflow gives up before producing output. */
  datatype Failure =
    | TooFewArguments
    | InputMissing(inputPath: string)
    | UnsupportedInput(inputPath: string, inputType: DataSetType)
    | ReferenceMissing(referencePath: string)
    | UnsupportedReference(referencePath: string, referenceType: DataSetType)
    | NotOneReferenceFasta(referencePath: string, fastaCount: nat)
    | UnknownOutputExtension(outputPath: string)
    | UnsupportedInputType(dataSetType: DataSetType)

  /** Either the value a step computed or the fatal error it stopped on. */
  datatype Result<+T> = Ok(value: T) | Fatal(failure: Failure) {

    predicate IsFailure() {
      Fatal?
    }

    function PropagateFailure<U>(): Result<U>
      requires Fatal?
    {
      Fatal(failure)
    }

    function Extract(): T
      requires Ok?
    {
      value
    }
  }

  datatype Option<+T> = None | Some(value: T)
}
