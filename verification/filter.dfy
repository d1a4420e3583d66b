/**
  Aligned records as the writer sees them, and the quality filter the
  workflow hands to the aligner: a record survives when it covers a positive
  stretch of the reference, at least the minimum alignment length, with at
  least the minimum accuracy.
 */
module Filter {

  /** The fields of an aligned BAM record that the workflow reads; `name`
      stands for the rest of the record, which it passes through untouched. */
  datatype AlignedRecord = AlignedRecord(
    name: string,
    referenceStart: int,
    referenceEnd: int,
    deletedBases: nat,
    insertedBases: nat,
    mismatches: nat)

  /** Reference-coordinate length the record covers. */
  function Span(a: AlignedRecord): int {
    a.referenceEnd - a.referenceStart
  }

  /** Deletions, insertions and mismatches together. */
  function NumErrors(a: AlignedRecord): nat {
    a.deletedBases + a.insertedBases + a.mismatches
  }

  /** The settings the filter reads. */
  datatype FilterSettings = FilterSettings(minAlignmentLength: int, minAccuracy: real)

  /** The filter lambda of the workflow: reject a non-positive span, reject a
      span below the minimum length, reject an accuracy `1 - nErr / span`
      below the minimum accuracy, and keep everything else. */
  predicate Keep(settings: FilterSettings, a: AlignedRecord) {
    var span := Span(a);
    if span <= 0 || span < settings.minAlignmentLength then false
    else if 1.0 - (NumErrors(a) as real) / (span as real) < settings.minAccuracy then false
    else true
  }

  /** Accuracy of a record, defined only where the span is non-zero. */
  function Concordance(a: AlignedRecord): real
    requires Span(a) != 0
  {
    1.0 - (NumErrors(a) as real) / (Span(a) as real)
  }

  /** Division-free reading of the filter: a record is kept exactly when its
      span is positive and at least the minimum length, and the bases that are
      not errors make up at least the minimum accuracy of the span. */
  lemma KeepIffThresholds(settings: FilterSettings, a: AlignedRecord)
    ensures Keep(settings, a) <==>
      && Span(a) > 0
      && Span(a) >= settings.minAlignmentLength
      && (Span(a) - NumErrors(a)) as real >= settings.minAccuracy * (Span(a) as real)
  {
    var span := Span(a);
    if span > 0 {
      var s := span as real;
      var acc := 1.0 - (NumErrors(a) as real) / s;
      assert acc * s == (span - NumErrors(a)) as real;
      ScaleByPositive(acc, settings.minAccuracy, s);
    }
  }

  /** Multiplying both sides by a positive number keeps `>=`, in both directions. */
  lemma ScaleByPositive(x: real, y: real, s: real)
    requires s > 0.0
    ensures x >= y <==> x * s >= y * s
  {
    if x >= y {
      assert (x - y) * s >= 0.0;
    } else {
      assert (y - x) * s > 0.0;
    }
  }

  /** Both thresholds are inclusive: a record whose span is exactly the
      minimum length and whose accuracy is exactly the minimum accuracy is kept. */
  lemma KeepAtThresholds(settings: FilterSettings, a: AlignedRecord)
    requires Span(a) > 0
    requires settings.minAlignmentLength == Span(a)
    requires settings.minAccuracy == Concordance(a)
    ensures Keep(settings, a)
  {
  }

  /** A kept record covers at least one reference base and at least the
      minimum length, and its accuracy lies between the minimum and 1. */
  lemma KeptRecordBounds(settings: FilterSettings, a: AlignedRecord)
    requires Keep(settings, a)
    ensures Span(a) >= 1 && Span(a) >= settings.minAlignmentLength
    ensures settings.minAccuracy <= Concordance(a) <= 1.0
  {
    assert (NumErrors(a) as real) / (Span(a) as real) >= 0.0;
  }
}
