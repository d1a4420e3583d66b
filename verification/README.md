# pbmm2 alignment workflow — a Dafny model

This project models the sequential decision and bookkeeping logic of pbmm2's
alignment workflow (`src/AlignWorkflow.cpp`), the driver that aligns PacBio
subread or consensus-read datasets with minimap2 and writes an aligned BAM,
optionally with a PBI index and an XML dataset descriptor. It covers:

- **Filter** — the quality filter handed to the aligner: span, error count,
  minimum alignment length and minimum accuracy.
- **Writer** — `WriteRecords` and the writer thread's loop: records appended
  in queue order, the `Summary` counters, the running record count, and the
  progress message every 1000 records.
- **Chunking** — the producer loop that cuts the input into batches of 100,
  exactly as written (one extra slot at the end), beside the corrected batching.
- **Arguments** — `CheckPositionalArgs`: input, reference and output
  resolution, with every `std::exit` turned into a `Fatal` result.
- **OutputNaming** — `OutputFilePrefix`, the choice of the BAM path and of
  XML output in the runner, and the naming and typing in `CreateDataSet`.
- **HeaderAssembly** — the output header: merged input headers, sample-name
  override, reference sequences, and the `pbmm2` program record.
- **Strings** and **Common** — the string operations the naming relies on,
  the dataset types, the fatal failures and the `Result` type.

File existence, dataset classification and a reference set's FASTA list are
fields of `Arguments.Environment`, given as inputs. The header merge of the
record store is a `merge` parameter. The descriptor's timestamp is a parameter.
All `.dfy` files verify together with `dafny verify`.

The comment on the producer's last step (src/AlignWorkflow.cpp:315, "terminal
records, if they exist") describes a trailing partial batch holding only the
records read, and no batch when none remain. The code behaves differently. The
model follows the code and reports the difference under Findings.

## Model

| member | source | states |
|---|---|---|
| Filter.KeepIffThresholds | src/AlignWorkflow.cpp:263-269 | Filter.Keep, the filter predicate, holds iff the span is positive, the span is at least the minimum length, and the non-error bases are at least minAccuracy times the span. This division-free form matches the filter's `1 - nErr/span` test in both directions. |
| Filter.KeepAtThresholds | src/AlignWorkflow.cpp:266-267 | Both thresholds are inclusive: a span equal to the minimum length with accuracy equal to the minimum accuracy is kept. |
| Filter.KeptRecordBounds | src/AlignWorkflow.cpp:263-269 | A kept record has span at least 1 and at least the minimum length. Its accuracy lies between the minimum accuracy and 1. |
| Writer.ProgressMarksExact | src/AlignWorkflow.cpp:53-55 | The counts at which progress is logged, counting up one record at a time through (lo, hi], are exactly the multiples of 1000 in that range, each once, in increasing order. |
| Writer.WriteAll | src/AlignWorkflow.cpp:46-56 | Writing a result appends its records in order. NumAlns and the running count both grow by the number of records, Bases grows by their total span, and progress is logged at exactly the multiples of 1000 passed. |
| Writer.WriteRecords | src/AlignWorkflow.cpp:43-57 | A null result changes nothing. Otherwise the output becomes out + results with the counters, bases and progress as for WriteAll. If NumAlns equals the running count before, it still does after. |
| Writer.WriteAllAppend | src/AlignWorkflow.cpp:53 | Writing two results one after the other is the same as writing their concatenation, progress messages included: the progress counter is global, not per batch. |
| Writer.DrainWritesConcat | src/AlignWorkflow.cpp:59-64 | Consuming a sequence of batch results in queue order is the same as writing all records of the non-null results as one batch. |
| Writer.WriterRun | src/AlignWorkflow.cpp:59-66 | After a run from the initial state: the output is exactly the records of the non-null results in queue order, NumAlns and the running count both equal their number, Bases is their total span, and progress was logged at every multiple of 1000 up to that number. |
| Writer.KeptBasesBound | src/AlignWorkflow.cpp:49 | If every written record passed the filter, Bases is at least NumAlns and at least NumAlns times the minimum alignment length. |
| Writer.KeptSimilarityBound | src/AlignWorkflow.cpp:50 | If every written record passed the filter, every span is non-zero and the similarity sum lies between NumAlns times the minimum accuracy and NumAlns. So for a non-empty run the exact mean SimilaritySum / NumAlns is at least the minimum accuracy. The printed concordance (line 68) is this mean rounded in `double` arithmetic and is not covered. |
| Chunking.Produce | src/AlignWorkflow.cpp:300-319 | The producer loop as written submits n/100 + 1 batches. All but the last hold exactly 100 slots. The last holds n mod 100 + 1 slots and ends with the slot the failed read was given. All slots in order are the input records followed by that one unfilled slot. |
| Chunking.ChunksShape | src/AlignWorkflow.cpp:308-319 | The batching as written has the shape above for every input: a trailing batch is always submitted. |
| Chunking.SizesFor250 | src/AlignWorkflow.cpp:308-319 | 250 records give batches of 100, 100 and 51 slots. |
| Chunking.SizesFor100 | src/AlignWorkflow.cpp:308-319 | 100 records give batches of 100 and 1 slots. The second batch holds only the unfilled slot. |
| Chunking.ChunksVersusTrimmed | src/AlignWorkflow.cpp:315-319 | Compared with the intended batching, the loop as written adds exactly one unfilled slot. When n is a multiple of 100 it is an extra batch of its own. Otherwise it is appended to the last batch. |
| Chunking.ProduceTrimmed | src/AlignWorkflow.cpp:308-319 | The corrected loop submits ceil(n/100) batches. None is empty or over 100 slots, and all but the last hold exactly 100. Together they are exactly the input records in order. |
| Chunking.TrimmedChunksShape | src/AlignWorkflow.cpp:315-319 | The corrected batching has the shape above for every input. |
| Arguments.CheckPositionalArgs | src/AlignWorkflow.cpp:71-138 | Succeeds iff: there are at least 2 args, the input exists and is a subread or consensus-read set, and the reference is valid. Each failed check gives its own fatal error, in check order; a reference failure is exactly the one ResolveReference reports. The input is args[0]. The output is args[2] iff there are exactly 3 args, otherwise "-". |
| Arguments.ResolveReference | src/AlignWorkflow.cpp:100-129 | The reference must exist. A path ending in ".mmi" (case-sensitive) is returned unchanged. Otherwise it must be a reference set with exactly one FASTA file, and that file is returned. A missing path, a wrong type, or zero or several FASTA files is a reference failure. |
| OutputNaming.OutputFilePrefix | src/AlignWorkflow.cpp:199-215 | Succeeds iff the extension is "xml" or "bam"; any other extension is an unknown-extension failure for that path. The prefix is never longer than the path. |
| OutputNaming.OutputFilePrefixOfConventionalNames | src/AlignWorkflow.cpp:199-215 | Pins the prefix for every stem that meets the condition below. stem.subreads.bam always gives back the stem. Every BAM name stem.bam gives the stem with its last ".subreads" (ignoring case) erased, so it gives back the stem iff the stem does not contain ".subreads". stem.consensusalignmentset.xml gives it back iff the stem does not contain ".alignmentset.xml". stem.alignmentset.xml gives it back iff the stem does not contain ".consensusalignmentset.xml". All comparisons ignore case. When the condition fails, the prefix is something other than the stem. |
| OutputNaming.PrefixWithoutEndings | src/AlignWorkflow.cpp:202-206 | An XML name that contains neither ".alignmentset.xml" nor ".consensusalignmentset.xml" (ignoring case), such as "out.xml", is its own prefix, so its BAM goes to "out.xml.bam". |
| OutputNaming.PlanOutput | src/AlignWorkflow.cpp:243-256 | "-" gives BAM "-" with no XML and no prefix. Another path fails iff its prefix fails. The BAM path is "-" iff the output is "-". XML output holds iff the extension is "xml", and then the BAM is prefix + ".bam". Otherwise the BAM is the output path itself. For any other path than "-", the prefix is OutputFilePrefix of the output. |
| OutputNaming.MismatchedXmlOutput | src/AlignWorkflow.cpp:247-256 | For output p.alignmentset.xml with consensus-read input, or p.consensusalignmentset.xml with subread input (p not containing the other ending): the BAM still goes to p.bam, but the descriptor path differs from the path asked for, which is never written. |
| OutputNaming.XmlOutputWritesSeparateBam | src/AlignWorkflow.cpp:252-253 | With XML output, the BAM path differs from the XML path. |
| OutputNaming.KindOf | src/AlignWorkflow.cpp:157-169 | Subread maps to AlignmentBamFile and ".alignmentset.xml". ConsensusRead maps to ConsensusAlignmentBamFile and ".consensusalignmentset.xml". Any other type is an unsupported-input-type failure. The contract also fixes the declared dataset type: Alignment for subread input, ConsensusAlignment for consensus-read input. This is the corrected declared type that CreateDataSet uses (see Findings). |
| OutputNaming.Describe | src/AlignWorkflow.cpp:178-195 | The name is the basename of the output (see Strings.BaseName). It has exactly one resource named name + ".bam", with a PBI index name + ".bam.pbi" iff indexing is on. The timestamped name is name + "-" + timestamp. The path is output + "." + outputType + ".xml". |
| OutputNaming.CreateDataSet | src/AlignWorkflow.cpp:151-197 | Succeeds iff the input is a read set. It creates one resource, and a PBI index iff indexing is on. The name is the basename. For subread input: an alignment-set descriptor at output + ".alignmentset.xml"; for consensus-read input: a consensus-alignment-set descriptor at output + ".consensusalignmentset.xml". The declared type is corrected; the code as written is OutputNaming.CreateDataSetAsWritten (see Findings). |
| OutputNaming.CreateDataSetAsWritten | src/AlignWorkflow.cpp:157-170 | The descriptor as constructed: the same fields as CreateDataSet, but declared with the input's own dataset type. |
| OutputNaming.AsWrittenDescriptorIsReadSet | src/AlignWorkflow.cpp:170 | With subread input, the constructed descriptor is declared a subread set, although it is saved as ".alignmentset.xml". |
| OutputNaming.DescriptorForResolvedInput | src/AlignWorkflow.cpp:167-168 | Once argument resolution has succeeded, descriptor creation cannot reach the unsupported-type branch. |
| OutputNaming.XmlOutputRoundTrip | src/AlignWorkflow.cpp:247-256 | For output p.alignmentset.xml (subread input) or p.consensusalignmentset.xml (consensus input), where p does not contain the other XML ending (ignoring case; true whenever p has no '.', by OutputNaming.DotFreeKeepsStem): the BAM goes to p.bam, the descriptor is written back to the path asked for, and its resource names the BAM by its basename. |
| Strings.EraseLast | src/AlignWorkflow.cpp:204-209 | Case-insensitive "replace last with nothing": with no occurrence the text is unchanged. Otherwise exactly the right-most occurrence is cut out. The result is never longer. |
| Strings.EraseLastIdentity | src/AlignWorkflow.cpp:204-209 | Erasing a non-empty pattern leaves the text unchanged iff the pattern does not occur in it, ignoring case. |
| Strings.BaseName | src/AlignWorkflow.cpp:178-183 | The text after the last '/': it contains no '/', it is a suffix of the path, and it is the whole path or is preceded by a '/'. |
| Strings.FileExtension | src/AlignWorkflow.cpp:202 | The text after the last '.', or "" when there is none. It contains no '.' and is a suffix of the path. |
| HeaderAssembly.MergeHeaders | src/AlignWorkflow.cpp:276-279 | A single BAM file's header is used as is. Later headers are folded in with the record store's merge. |
| HeaderAssembly.OverrideSample | src/AlignWorkflow.cpp:282-287 | The same number of read groups in the same order, each with the new sample and its id, movie and read type unchanged. |
| HeaderAssembly.OverrideSampleKeepsIds | src/AlignWorkflow.cpp:281-288 | The override keeps the read-group id list exactly, and applying it twice with one sample is the same as applying it once. |
| HeaderAssembly.ApplySampleName | src/AlignWorkflow.cpp:281-288 | An empty sample name leaves the header as it is. Otherwise every read group gets that sample, with count and order kept. Sequences and programs are untouched. |
| HeaderAssembly.AssembleHeader | src/AlignWorkflow.cpp:276-294 | Read groups are as merged, or overridden position by position when a sample name is set. The reference sequences follow the merged ones in the index's order. Exactly one program record is added after the existing ones: id and name "pbmm2", version V + " (commit " + sha + ")", and the command line. |

## Left out

- The work queue, the writer thread and `join` (lines 59-69, 296-322) are concurrency in a library outside this model. The writer's consumption is modelled as a sequential drain in queue order (`Writer.Drain`).
- `MM2Helper::Align` and the reference index are the external aligner. Where it applies the filter is not visible, so the writer lemmas about filtered records take "every record passed the filter" as a hypothesis.
- BAM reading and writing, `BamQuery` (lines 140-149), `PbiFile::CreateFrom` (lines 325-330), the XML namespace attributes (lines 171-176), descriptor serialisation, and `CurrentTimestamp` are record-store calls. The timestamp is a parameter.
- Logger setup, signal handlers, `Utility::FileExists` and the overwrite warnings (lines 220-236, 257-260) are process-wide I/O. File existence is `Arguments.Environment.fileExists`.
- The record store's `DataSet` constructor is taken to classify every path (`Environment.dataSetType`). Its exceptions on unreadable files are not modelled.
- The final log lines and the mean-concordance print (lines 65-68) are not modelled: floating-point rounding, and NaN when no alignment was written.
- Writer.WriteRecords: the `double` Similarity accumulator of `Summary` is not part of the state. `Writer.SimilaritySum` models it separately, over exact reals, for records of non-zero span only.
- Filter.KeepIffThresholds: accuracy is compared in exact reals, not in `double` rounding.
- The int32/int64 widths of the counters, the span and the error count are not modelled. All are unbounded integers.
- OutputNaming.OutputFilePrefix: an XML name that contains an XML ending somewhere other than at its end (for example "a.alignmentset.xml.b.xml") has no lemma of its own. Its prefix is the composition of two erasures, each described by the contract of Strings.EraseLast.
- HeaderAssembly.MergeHeaders: the record store's header `+=` is not visible. It is a parameter, so the contract only covers the single-file case.
- HeaderAssembly.MergeHeaders and HeaderAssembly.AssembleHeader require at least one header. An input dataset with no BAM files is excluded: line 277 reads `bamFiles.front()` of an empty list, which is undefined behaviour in C++ and has no defined result to model.
- HeaderAssembly.AssembleHeader: `AddReadGroup`, `AddSequence` and `AddProgram` are taken to append. Any keying or de-duplication by id inside the record store is not visible.
- Strings.FileExtension: `Utility::FileExtension` is not part of this model. It is taken to return the text after the last '.', case preserved.
- Strings.EraseLast: case-insensitive comparison folds ASCII letters only.
- `AlignSettings` option parsing and `Workflow.h`, a declaration only.
- The runner's overall sequencing is not composed into a single function: arguments, output plan, header, producer, index, descriptor (line 331 passes the prefix as the descriptor's output path).

## Findings

| source | as written | input that shows it | evidently intended | confidence | as-written member | corrected member |
|---|---|---|---|---|---|---|
| src/AlignWorkflow.cpp:308-319 | `GetNext((*records)[i++])` advances `i` on the failing read too. So `i > 0` always holds after the loop, and the last batch gets one slot more than the records read. | 100 input records: batches of 100 and 1 slots. The second holds only a default-constructed record. | Submit a trailing batch only when records remain ("terminal records, if they exist"), sized to those records. | medium; not executed | Chunking.SizesFor100 | Chunking.ProduceTrimmed |
| src/AlignWorkflow.cpp:157-170 | The descriptor is constructed as `DataSet ds(type)` with the input's type. | Subread input with output `movie.alignmentset.xml`: the descriptor is declared a subread set, yet saved as an alignment set with AlignmentBamFile resources. | An alignment set for subread input, a consensus-alignment set for consensus-read input. | medium; not executed | OutputNaming.AsWrittenDescriptorIsReadSet | OutputNaming.CreateDataSet |
