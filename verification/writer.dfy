/**
  The writer stage: every batch result taken from the work queue, in queue
  order, is appended to the output file, counted into the run summary and the
  running count of aligned records, and a progress message is logged each
  time that running count reaches a multiple of 1000.
 */
module Writer {
  import opened Common
  import opened Filter

  /** How often, in written records, a progress message is logged. */
  const ProgressInterval: nat := 1000

  /** Counters kept over the run. */
  datatype Summary = Summary(numAlns: int, bases: int)

  /** Everything the writer changes: the records written so far, the summary,
      the running record count and the counts it logged as progress. */
  datatype WriterState = WriterState(
    written: seq<AlignedRecord>,
    summary: Summary,
    alignedRecords: int,
    progress: seq<int>)

  /** The state before the first batch. */
  function Start(): WriterState {
    WriterState([], Summary(0, 0), 0, [])
  }

  /** Sum of the spans of `alns`. */
  function SumSpans(alns: seq<AlignedRecord>): int {
    if alns == [] then 0 else SumSpans(alns[..|alns| - 1]) + Span(alns[|alns| - 1])
  }

  /** The running counts in `(lo, hi]` at which a progress message is
      logged, counting up one record at a time. */
  function ProgressMarks(lo: int, hi: int): seq<int>
    decreases hi - lo
  {
    if hi <= lo then []
    else ProgressMarks(lo, hi - 1) + (if hi % ProgressInterval == 0 then [hi] else [])
  }

  /** The progress marks of `(lo, hi]` are exactly the multiples of the
      interval in that range, each once, in increasing order. */
  lemma {:induction false} ProgressMarksExact(lo: int, hi: int)
    decreases hi - lo
    ensures forall k :: 0 <= k < |ProgressMarks(lo, hi)| ==>
      lo < ProgressMarks(lo, hi)[k] <= hi && ProgressMarks(lo, hi)[k] % ProgressInterval == 0
    ensures forall m :: lo < m <= hi && m % ProgressInterval == 0 ==> m in ProgressMarks(lo, hi)
    ensures forall k, l :: 0 <= k < l < |ProgressMarks(lo, hi)| ==>
      ProgressMarks(lo, hi)[k] < ProgressMarks(lo, hi)[l]
  {
    if hi > lo {
      ProgressMarksExact(lo, hi - 1);
    }
  }

  /** One iteration of the loop over a batch result. */
  function WriteOne(st: WriterState, aln: AlignedRecord): WriterState {
    var count := st.alignedRecords + 1;
    WriterState(
      st.written + [aln],
      Summary(st.summary.numAlns + 1, st.summary.bases + Span(aln)),
      count,
      st.progress + (if count % ProgressInterval == 0 then [count] else []))
  }

  /** The loop over the records of one batch result, in their order. */
  function WriteAll(st: WriterState, alns: seq<AlignedRecord>): (r: WriterState)
    ensures r.written == st.written + alns
    ensures r.summary.numAlns == st.summary.numAlns + |alns|
    ensures r.alignedRecords == st.alignedRecords + |alns|
    ensures r.summary.bases == st.summary.bases + SumSpans(alns)
    ensures r.progress == st.progress + ProgressMarks(st.alignedRecords, st.alignedRecords + |alns|)
  {
    if alns == [] then st
    else
      var init := alns[..|alns| - 1];
      assert alns == init + [alns[|alns| - 1]];
      WriteOne(WriteAll(st, init), alns[|alns| - 1])
  }

  /** `WriteRecords`: a missing result leaves the writer as it was; otherwise
      every record of the result is written in order, the summary and the
      running count both grow by the number of records, the bases by their
      spans, and progress is logged at each multiple of 1000 passed. */
  function WriteRecords(st: WriterState, results: Option<seq<AlignedRecord>>): (r: WriterState)
    ensures results.None? ==> r == st
    ensures results.Some? ==> r.written == st.written + results.value
    ensures results.Some? ==> r.summary.numAlns == st.summary.numAlns + |results.value|
    ensures results.Some? ==> r.alignedRecords == st.alignedRecords + |results.value|
    ensures results.Some? ==> r.summary.bases == st.summary.bases + SumSpans(results.value)
    ensures results.Some? ==>
      r.progress == st.progress + ProgressMarks(st.alignedRecords, st.alignedRecords + |results.value|)
    ensures st.summary.numAlns == st.alignedRecords ==> r.summary.numAlns == r.alignedRecords
  {
    match results
    case None => st
    case Some(alns) => WriteAll(st, alns)
  }

  /** All records of the present results, in queue order. */
  function Concat(results: seq<Option<seq<AlignedRecord>>>): seq<AlignedRecord> {
    if results == [] then []
    else
      var last := results[|results| - 1];
      Concat(results[..|results| - 1]) + (if last.Some? then last.value else [])
  }

  /** The writer thread's loop: consume every batch result in queue order. */
  function Drain(st: WriterState, results: seq<Option<seq<AlignedRecord>>>): WriterState {
    if results == [] then st
    else WriteRecords(Drain(st, results[..|results| - 1]), results[|results| - 1])
  }

  /** The progress marks of two adjacent ranges join into those of the whole range. */
  lemma {:induction false} ProgressMarksSplit(lo: int, mid: int, hi: int)
    requires lo <= mid <= hi
    ensures ProgressMarks(lo, mid) + ProgressMarks(mid, hi) == ProgressMarks(lo, hi)
    decreases hi - mid
  {
    if hi == mid {
      assert ProgressMarks(mid, hi) == [];
    } else {
      ProgressMarksSplit(lo, mid, hi - 1);
      var tail := if hi % ProgressInterval == 0 then [hi] else [];
      assert ProgressMarks(mid, hi) == ProgressMarks(mid, hi - 1) + tail;
      assert ProgressMarks(lo, hi) == ProgressMarks(lo, hi - 1) + tail;
    }
  }

  /** The spans of two adjacent pieces add up. */
  lemma {:induction false} SumSpansAppend(a: seq<AlignedRecord>, b: seq<AlignedRecord>)
    ensures SumSpans(a + b) == SumSpans(a) + SumSpans(b)
    decreases |b|
  {
    if b == [] {
      assert a + b == a;
    } else {
      var b' := b[..|b| - 1];
      assert (a + b)[..|a + b| - 1] == a + b';
      SumSpansAppend(a, b');
    }
  }

  /** Batch boundaries do not matter to the writer: writing one result after
      another is writing their concatenation, progress included, because the
      running count is global rather than per batch. */
  lemma {:induction false} WriteAllAppend(st: WriterState, a: seq<AlignedRecord>, b: seq<AlignedRecord>)
    ensures WriteAll(WriteAll(st, a), b) == WriteAll(st, a + b)
  {
    var x := WriteAll(WriteAll(st, a), b);
    var y := WriteAll(st, a + b);
    WriteAllAppendFields(st, a, b);
    SameFields(x, y);
  }

  lemma WriteAllAppendFields(st: WriterState, a: seq<AlignedRecord>, b: seq<AlignedRecord>)
    ensures WriteAll(WriteAll(st, a), b).written == WriteAll(st, a + b).written
    ensures WriteAll(WriteAll(st, a), b).summary == WriteAll(st, a + b).summary
    ensures WriteAll(WriteAll(st, a), b).alignedRecords == WriteAll(st, a + b).alignedRecords
    ensures WriteAll(WriteAll(st, a), b).progress == WriteAll(st, a + b).progress
  {
    WriteAllAppendSummary(st, a, b);
    WriteAllAppendProgress(st, a, b);
  }

  lemma WriteAllAppendSummary(st: WriterState, a: seq<AlignedRecord>, b: seq<AlignedRecord>)
    ensures WriteAll(WriteAll(st, a), b).summary == WriteAll(st, a + b).summary
  {
    SumSpansAppend(a, b);
  }

  lemma WriteAllAppendProgress(st: WriterState, a: seq<AlignedRecord>, b: seq<AlignedRecord>)
    ensures WriteAll(WriteAll(st, a), b).progress == WriteAll(st, a + b).progress
  {
    assert |a + b| == |a| + |b|;
    ProgressCompose(st.progress, st.alignedRecords, |a|, |b|,
      WriteAll(st, a).progress, WriteAll(WriteAll(st, a), b).progress, WriteAll(st, a + b).progress);
  }

  /** Progress logged over `la` records and then `lb` more is the progress
      logged over `la + lb` records in one go. */
  lemma ProgressCompose(p: seq<int>, n: int, la: nat, lb: nat, mid: seq<int>, last: seq<int>, whole: seq<int>)
    requires mid == p + ProgressMarks(n, n + la)
    requires last == mid + ProgressMarks(n + la, n + la + lb)
    requires whole == p + ProgressMarks(n, n + la + lb)
    ensures last == whole
  {
    ProgressMarksSplit(n, n + la, n + la + lb);
  }

  lemma SameFields(x: WriterState, y: WriterState)
    requires x.written == y.written && x.summary == y.summary
    requires x.alignedRecords == y.alignedRecords && x.progress == y.progress
    ensures x == y
  {
  }

  /** Draining the queue writes exactly the records of the present results,
      in queue order, with the same counters, bases and progress as writing
      them all as one batch. */
  lemma {:induction false} DrainWritesConcat(st: WriterState, results: seq<Option<seq<AlignedRecord>>>)
    ensures Drain(st, results) == WriteAll(st, Concat(results))
  {
    if results != [] {
      var init := results[..|results| - 1];
      var last := results[|results| - 1];
      DrainWritesConcat(st, init);
      match last
      case None =>
        assert Concat(results) == Concat(init) + [] == Concat(init);
        assert Drain(st, results) == Drain(st, init);
      case Some(alns) =>
        WriteAllAppend(st, Concat(init), alns);
    }
  }

  /** A whole run of the writer from the start: it has written exactly the
      records of the present results in queue order, the summary's alignment
      count equals the running count equals the number written, the bases are
      their total span, and progress was logged at every multiple of 1000 up
      to that count and nowhere else. */
  lemma WriterRun(results: seq<Option<seq<AlignedRecord>>>)
    ensures Drain(Start(), results).written == Concat(results)
    ensures Drain(Start(), results).summary.numAlns == |Concat(results)|
    ensures Drain(Start(), results).alignedRecords == |Concat(results)|
    ensures Drain(Start(), results).summary.bases == SumSpans(Concat(results))
    ensures Drain(Start(), results).progress == ProgressMarks(0, |Concat(results)|)
  {
    DrainWritesConcat(Start(), results);
  }

  /** Every record in `alns` passes the filter. */
  predicate AllKept(settings: FilterSettings, alns: seq<AlignedRecord>) {
    forall i :: 0 <= i < |alns| ==> Keep(settings, alns[i])
  }

  /** Records that passed the filter contribute at least one base each and
      at least the minimum alignment length each to the bases counter. */
  lemma {:induction false} KeptBasesBound(settings: FilterSettings, alns: seq<AlignedRecord>)
    requires AllKept(settings, alns)
    ensures SumSpans(alns) >= |alns|
    ensures SumSpans(alns) >= |alns| * settings.minAlignmentLength
  {
    if alns != [] {
      var init := alns[..|alns| - 1];
      KeptRecordBounds(settings, alns[|alns| - 1]);
      assert AllKept(settings, init) by {
        forall i | 0 <= i < |init| ensures Keep(settings, init[i]) {
          assert init[i] == alns[i];
        }
      }
      KeptBasesBound(settings, init);
    }
  }

  /** The similarity accumulator, over exact reals, for records of non-zero span. */
  function SimilaritySum(alns: seq<AlignedRecord>): real
    requires forall i :: 0 <= i < |alns| ==> Span(alns[i]) != 0
  {
    if alns == [] then 0.0
    else SimilaritySum(alns[..|alns| - 1]) + Concordance(alns[|alns| - 1])
  }

  /** For filtered records the similarity sum lies between the minimum
      accuracy and 1 per record, so for a non-empty run the exact mean
      `SimilaritySum(alns) / |alns|` lies between the minimum accuracy and 1.
      The rounded value printed at the end of the run is not covered. */
  lemma {:induction false} KeptSimilarityBound(settings: FilterSettings, alns: seq<AlignedRecord>)
    requires AllKept(settings, alns)
    ensures forall i :: 0 <= i < |alns| ==> Span(alns[i]) != 0
    ensures |alns| as real * settings.minAccuracy <= SimilaritySum(alns) <= |alns| as real
  {
    forall i | 0 <= i < |alns| ensures Span(alns[i]) != 0 {
      KeptRecordBounds(settings, alns[i]);
    }
    if alns != [] {
      var init := alns[..|alns| - 1];
      KeptRecordBounds(settings, alns[|alns| - 1]);
      assert AllKept(settings, init) by {
        forall i | 0 <= i < |init| ensures Keep(settings, init[i]) {
          assert init[i] == alns[i];
        }
      }
      KeptSimilarityBound(settings, init);
    }
  }
}
