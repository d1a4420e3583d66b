/**
  The chunked producer: input records are read one at a time, in container
  order, into a batch of 100 pre-allocated slots; a full batch is submitted
  and a fresh one started. The read position is advanced on every call of
  the reader, including the final call that finds no record, so the batch
  submitted at the end always has one slot more than the records read into
  it: a slot the failed read left as it was allocated.
 */
module Chunking {

  /** Records per batch. */
  const ChunkSize: nat := 100

  /** A batch slot: filled by a successful read, or still as allocated. */
  datatype Slot<T> = Filled(record: T) | Unfilled

  type Batch<T> = seq<Slot<T>>

  /** Slots holding `records`, in order. */
  function Fill<T>(records: seq<T>): (slots: Batch<T>)
    ensures |slots| == |records|
    ensures forall k :: 0 <= k < |records| ==> slots[k] == Filled(records[k])
  {
    seq(|records|, k requires 0 <= k < |records| => Filled(records[k]))
  }

  /** A freshly allocated batch. */
  function FreshBatch<T>(): (b: Batch<T>)
    ensures |b| == ChunkSize && forall k :: 0 <= k < |b| ==> b[k] == Unfilled
  {
    seq(ChunkSize, _ => Unfilled)
  }

  /** All slots of the batches, in submission order. */
  function Flatten<T>(batches: seq<Batch<T>>): seq<Slot<T>> {
    if batches == [] then [] else batches[0] + Flatten(batches[1..])
  }

  /** The sizes of the batches, in submission order. */
  function Sizes<T>(batches: seq<Batch<T>>): (sizes: seq<nat>)
    ensures |sizes| == |batches|
    ensures forall k :: 0 <= k < |batches| ==> sizes[k] == |batches[k]|
  {
    if batches == [] then [] else [|batches[0]|] + Sizes(batches[1..])
  }

  /** The batches the producer submits for `input`, as the loop is written:
      full batches while at least 100 records remain, then the remaining
      records followed by the slot the failed read was given. */
  function Chunks<T>(input: seq<T>): seq<Batch<T>>
    decreases |input|
  {
    if |input| < ChunkSize then [Fill(input) + [Unfilled]]
    else [Fill(input[..ChunkSize])] + Chunks(input[ChunkSize..])
  }

  /** One call of the reader's `GetNext` at read position `pos`. */
  function GetNext<T>(input: seq<T>, pos: nat): (r: Slot<T>)
    ensures r.Filled? <==> pos < |input|
    ensures r.Filled? ==> r.record == input[pos]
  {
    if pos < |input| then Filled(input[pos]) else Unfilled
  }

  /** The producer loop of the workflow: read into slot `i` and advance `i`
      whether or not the read succeeded; submit and restart when `i` reaches
      100; after the last read submit the first `i` slots if `i > 0`. */
  method Produce<T>(input: seq<T>) returns (batches: seq<Batch<T>>)
    ensures batches == Chunks(input)
    ensures |batches| == |input| / ChunkSize + 1
    ensures forall k :: 0 <= k < |batches| - 1 ==> |batches[k]| == ChunkSize
    ensures |batches[|batches| - 1]| == |input| % ChunkSize + 1
    ensures batches[|batches| - 1][|batches[|batches| - 1]| - 1] == Unfilled
    ensures Flatten(batches) == Fill(input) + [Unfilled]
  {
    batches := [];
    var records: Batch<T> := FreshBatch();
    var i: nat := 0;
    var pos: nat := 0;
    ghost var start: nat := 0;
    ghost var before := records;
    while true
      invariant start + i == pos <= |input|
      invariant i < ChunkSize && |records| == ChunkSize
      invariant records[..i] == Fill(input[start..pos])
      invariant batches + Chunks(input[start..]) == Chunks(input)
      decreases |input| - pos
    {
      var slot := GetNext(input, pos);
      before := records;
      records := records[i := slot];
      i := i + 1;
      if slot.Unfilled? {
        break;
      }
      ReadStep(before, i - 1, input, start, pos);
      pos := pos + 1;
      if i >= ChunkSize {
        assert records == records[..i];
        SubmitFull(batches, records, input, start, pos);
        batches := batches + [records];
        records := FreshBatch();
        i := 0;
        start := pos;
      }
    }
    // The failed read was given slot i - 1 and left it unfilled, so the
    // guard on submitting the terminal records always holds.
    assert i > 0;
    if i > 0 {
      FailStep(batches, before, i - 1, input, start, pos);
      batches := batches + [records[..i]];
    }
    ChunksShape(input);
  }

  /** A successful read into slot `i` extends the filled prefix by the record read. */
  lemma ReadStep<T>(before: Batch<T>, i: nat, input: seq<T>, start: nat, pos: nat)
    requires i < |before| && start + i == pos < |input|
    requires before[..i] == Fill(input[start..pos])
    ensures before[i := Filled(input[pos])][..i + 1] == Fill(input[start..pos + 1])
  {
    var after := before[i := Filled(input[pos])];
    assert after[..i] == before[..i];
    FillStep(after, i + 1, input, start, pos + 1);
  }

  /** The failed read into slot `i` closes the last batch: its first `i + 1`
      slots complete the batches. */
  lemma FailStep<T>(batches: seq<Batch<T>>, before: Batch<T>, i: nat, input: seq<T>, start: nat, pos: nat)
    requires i < |before| == ChunkSize && start + i == pos == |input|
    requires before[..i] == Fill(input[start..pos])
    requires batches + Chunks(input[start..]) == Chunks(input)
    ensures batches + [before[i := Unfilled][..i + 1]] == Chunks(input)
  {
    var after := before[i := Unfilled];
    assert after[..i] == before[..i];
    assert input[start..pos] == input[start..];
    SubmitLast(batches, after, i + 1, input, start);
  }

  /** A successful read into slot `i - 1` extends the filled prefix by the record read. */
  lemma FillStep<T>(records: Batch<T>, i: nat, input: seq<T>, start: nat, pos: nat)
    requires 0 < i <= |records| && start + i == pos <= |input|
    requires records[..i - 1] == Fill(input[start..pos - 1])
    requires records[i - 1] == Filled(input[pos - 1])
    ensures records[..i] == Fill(input[start..pos])
  {
    assert records[..i] == records[..i - 1] + [records[i - 1]];
    assert input[start..pos] == input[start..pos - 1] + [input[pos - 1]];
    FillConcat(input[start..pos - 1], [input[pos - 1]]);
  }

  /** Submitting the full batch read from `start` keeps the batches on course. */
  lemma SubmitFull<T>(batches: seq<Batch<T>>, records: Batch<T>, input: seq<T>, start: nat, pos: nat)
    requires start + ChunkSize == pos <= |input|
    requires records == Fill(input[start..pos])
    requires batches + Chunks(input[start..]) == Chunks(input)
    ensures (batches + [records]) + Chunks(input[pos..]) == Chunks(input)
  {
    SplitRest(input, start, pos);
    ChunksUnfold(input[start..]);
  }

  /** The remaining input from `start` begins with the records up to `pos`
      and continues with the input from `pos`. */
  lemma SplitRest<T>(input: seq<T>, start: nat, pos: nat)
    requires start + ChunkSize == pos <= |input|
    ensures input[start..][..ChunkSize] == input[start..pos]
    ensures input[start..][ChunkSize..] == input[pos..]
  {
  }

  /** At least 100 records make a full batch followed by the batches of the rest. */
  lemma ChunksUnfold<T>(rest: seq<T>)
    requires |rest| >= ChunkSize
    ensures Chunks(rest) == [Fill(rest[..ChunkSize])] + Chunks(rest[ChunkSize..])
  {
  }

  /** Submitting the first `i` slots after the failed read completes the batches. */
  lemma SubmitLast<T>(batches: seq<Batch<T>>, records: Batch<T>, i: nat, input: seq<T>, start: nat)
    requires 0 < i <= ChunkSize && |records| == ChunkSize && start + i - 1 == |input|
    requires records[..i - 1] == Fill(input[start..]) && records[i - 1] == Unfilled
    requires batches + Chunks(input[start..]) == Chunks(input)
    ensures batches + [records[..i]] == Chunks(input)
  {
    var last := input[start..];
    LastSlots(records, i, last);
    LastChunk(last);
  }

  /** The first `i` slots are the records read followed by the failed read's slot. */
  lemma LastSlots<T>(records: Batch<T>, i: nat, last: seq<T>)
    requires 0 < i <= |records| && |last| == i - 1
    requires records[..i - 1] == Fill(last) && records[i - 1] == Unfilled
    ensures records[..i] == Fill(last) + [Unfilled]
  {
    assert records[..i] == records[..i - 1] + [records[i - 1]];
  }

  /** Fewer than 100 remaining records form the last batch, with one unfilled slot. */
  lemma LastChunk<T>(last: seq<T>)
    requires |last| < ChunkSize
    ensures Chunks(last) == [Fill(last) + [Unfilled]]
  {
  }

  lemma FillConcat<T>(a: seq<T>, b: seq<T>)
    ensures Fill(a + b) == Fill(a) + Fill(b)
  {
  }

  lemma FlattenCons<T>(b: Batch<T>, rest: seq<Batch<T>>)
    ensures Flatten([b] + rest) == b + Flatten(rest)
  {
    assert ([b] + rest)[1..] == rest;
  }

  lemma DropChunk(n: nat)
    requires n >= ChunkSize
    ensures (n - ChunkSize) / ChunkSize == n / ChunkSize - 1
    ensures (n - ChunkSize) % ChunkSize == n % ChunkSize
  {
  }

  /** The producer submits `n / 100 + 1` batches: all but the last hold
      exactly 100 slots, the last `n % 100 + 1` and ends with the slot the
      failed read was given; all slots together are the input, in order,
      followed by that one unfilled slot. */
  lemma {:induction false} ChunksShape<T>(input: seq<T>)
    ensures |Chunks(input)| == |input| / ChunkSize + 1
    ensures forall k :: 0 <= k < |Chunks(input)| - 1 ==> |Chunks(input)[k]| == ChunkSize
    ensures |Chunks(input)[|Chunks(input)| - 1]| == |input| % ChunkSize + 1
    ensures Chunks(input)[|Chunks(input)| - 1][|input| % ChunkSize] == Unfilled
    ensures Flatten(Chunks(input)) == Fill(input) + [Unfilled]
  {
    ChunksSizes(input);
    ChunksEndUnfilled(input);
    ChunksFlatten(input);
  }

  lemma {:induction false} ChunksSizes<T>(input: seq<T>)
    decreases |input|
    ensures |Chunks(input)| == |input| / ChunkSize + 1
    ensures forall k :: 0 <= k < |Chunks(input)| - 1 ==> |Chunks(input)[k]| == ChunkSize
    ensures |Chunks(input)[|Chunks(input)| - 1]| == |input| % ChunkSize + 1
  {
    if |input| >= ChunkSize {
      ChunksSizes(input[ChunkSize..]);
      DropChunk(|input|);
      ChunksUnfold(input);
    }
  }

  lemma {:induction false} ChunksEndUnfilled<T>(input: seq<T>)
    decreases |input|
    ensures |Chunks(input)| > 0
    ensures var last := Chunks(input)[|Chunks(input)| - 1]; |last| > 0 && last[|last| - 1] == Unfilled
  {
    if |input| >= ChunkSize {
      ChunksEndUnfilled(input[ChunkSize..]);
      ChunksUnfold(input);
    }
  }

  lemma {:induction false} ChunksFlatten<T>(input: seq<T>)
    decreases |input|
    ensures Flatten(Chunks(input)) == Fill(input) + [Unfilled]
  {
    if |input| < ChunkSize {
      FlattenCons(Fill(input) + [Unfilled], []);
    } else {
      var rest := input[ChunkSize..];
      ChunksFlatten(rest);
      ChunksUnfold(input);
      FlattenCons(Fill(input[..ChunkSize]), Chunks(rest));
      FillConcat(input[..ChunkSize], rest);
      assert input[..ChunkSize] + rest == input;
    }
  }

  /** 250 records are submitted as batches of 100, 100 and 51 slots. */
  lemma SizesFor250<T>(input: seq<T>)
    requires |input| == 250
    ensures Sizes(Chunks(input)) == [100, 100, 51]
  {
    ChunksShape(input);
    var sizes := Sizes(Chunks(input));
    assert |sizes| == 3;
    assert sizes[0] == 100 && sizes[1] == 100 && sizes[2] == 51;
  }

  /** 100 records are submitted as a full batch followed by a batch holding
      only the slot of the failed read. */
  lemma {:induction false} SizesFor100<T>(input: seq<T>)
    requires |input| == 100
    ensures Sizes(Chunks(input)) == [100, 1]
    ensures Chunks(input)[1] == [Unfilled]
  {
    ChunksShape(input);
  }

  /** The batching the loop's closing comment describes ("terminal records,
      if they exist"): the records left after the last full batch, if there
      are any, submitted as a batch of exactly their number. */
  function TrimmedChunks<T>(input: seq<T>): seq<Batch<T>>
    decreases |input|
  {
    if |input| < ChunkSize then (if input == [] then [] else [Fill(input)])
    else [Fill(input[..ChunkSize])] + TrimmedChunks(input[ChunkSize..])
  }

  /** The producer loop with the read position advanced only after a
      successful read. */
  method ProduceTrimmed<T>(input: seq<T>) returns (batches: seq<Batch<T>>)
    ensures batches == TrimmedChunks(input)
    ensures |batches| == (|input| + ChunkSize - 1) / ChunkSize
    ensures forall k :: 0 <= k < |batches| ==> 0 < |batches[k]| <= ChunkSize
    ensures forall k :: 0 <= k < |batches| - 1 ==> |batches[k]| == ChunkSize
    ensures Flatten(batches) == Fill(input)
  {
    batches := [];
    var records: Batch<T> := FreshBatch();
    var i: nat := 0;
    var pos: nat := 0;
    ghost var start: nat := 0;
    while true
      invariant start + i == pos <= |input|
      invariant i < ChunkSize && |records| == ChunkSize
      invariant records[..i] == Fill(input[start..pos])
      invariant batches + TrimmedChunks(input[start..]) == TrimmedChunks(input)
      decreases |input| - pos
    {
      var slot := GetNext(input, pos);
      if slot.Unfilled? {
        break;
      }
      records := records[i := slot];
      i := i + 1;
      pos := pos + 1;
      FillStep(records, i, input, start, pos);
      if i >= ChunkSize {
        assert records == records[..i];
        SubmitFullTrimmed(batches, records, input, start, pos);
        batches := batches + [records];
        records := FreshBatch();
        i := 0;
        start := pos;
      }
    }
    assert input[start..pos] == input[start..];
    if i > 0 {
      batches := batches + [records[..i]];
    }
    TrimmedChunksShape(input);
  }

  lemma SubmitFullTrimmed<T>(batches: seq<Batch<T>>, records: Batch<T>, input: seq<T>, start: nat, pos: nat)
    requires start + ChunkSize == pos <= |input|
    requires records == Fill(input[start..pos])
    requires batches + TrimmedChunks(input[start..]) == TrimmedChunks(input)
    ensures (batches + [records]) + TrimmedChunks(input[pos..]) == TrimmedChunks(input)
  {
    SplitRest(input, start, pos);
    TrimmedChunksUnfold(input[start..]);
  }

  /** At least 100 records make a full batch followed by the batches of the rest. */
  lemma TrimmedChunksUnfold<T>(rest: seq<T>)
    requires |rest| >= ChunkSize
    ensures TrimmedChunks(rest) == [Fill(rest[..ChunkSize])] + TrimmedChunks(rest[ChunkSize..])
  {
  }

  /** The intended batching: `ceil(n / 100)` batches, none empty, none over
      100 slots, all but the last exactly 100, and together exactly the input
      records in order with no extra slot. */
  lemma {:induction false} TrimmedChunksShape<T>(input: seq<T>)
    decreases |input|
    ensures |TrimmedChunks(input)| == (|input| + ChunkSize - 1) / ChunkSize
    ensures forall k :: 0 <= k < |TrimmedChunks(input)| ==> 0 < |TrimmedChunks(input)[k]| <= ChunkSize
    ensures forall k :: 0 <= k < |TrimmedChunks(input)| - 1 ==> |TrimmedChunks(input)[k]| == ChunkSize
    ensures Flatten(TrimmedChunks(input)) == Fill(input)
  {
    var c := TrimmedChunks(input);
    if |input| < ChunkSize {
      if input != [] {
        FlattenCons(c[0], []);
      }
    } else {
      var rest := input[ChunkSize..];
      TrimmedChunksShape(rest);
      DropChunk(|input|);
      var cr := TrimmedChunks(rest);
      assert c == [Fill(input[..ChunkSize])] + cr;
      FlattenCons(Fill(input[..ChunkSize]), cr);
      FillConcat(input[..ChunkSize], rest);
      assert input[..ChunkSize] + rest == input;
    }
  }

  /** What the loop as written submits beyond the intended batching: when the
      input is a multiple of 100 records, one extra batch holding only the
      unfilled slot; otherwise the unfilled slot appended to the last batch.
      Either way exactly one unfilled slot reaches the aligner. */
  lemma {:induction false} ChunksVersusTrimmed<T>(input: seq<T>)
    decreases |input|
    ensures |input| % ChunkSize == 0 ==> Chunks(input) == TrimmedChunks(input) + [[Unfilled]]
    ensures |input| % ChunkSize != 0 ==>
      && |Chunks(input)| == |TrimmedChunks(input)|
      && Chunks(input)[..|Chunks(input)| - 1] == TrimmedChunks(input)[..|Chunks(input)| - 1]
      && Chunks(input)[|Chunks(input)| - 1] == TrimmedChunks(input)[|Chunks(input)| - 1] + [Unfilled]
  {
    if |input| >= ChunkSize {
      var rest := input[ChunkSize..];
      ChunksVersusTrimmed(rest);
      DropChunk(|input|);
      var head := [Fill(input[..ChunkSize])];
      assert Chunks(input) == head + Chunks(rest);
      assert TrimmedChunks(input) == head + TrimmedChunks(rest);
      if |input| % ChunkSize != 0 {
        ChunksShape(rest);
        var n := |Chunks(rest)|;
        assert (head + Chunks(rest))[..n] == head + Chunks(rest)[..n - 1];
        assert (head + TrimmedChunks(rest))[..n] == head + TrimmedChunks(rest)[..n - 1];
      }
    } else if input == [] {
      assert Fill(input) + [Unfilled] == [Unfilled];
    }
  }
}
