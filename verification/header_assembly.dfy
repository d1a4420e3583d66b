/**
  Assembly of the output BAM header: the headers of the input's BAM files
  merged in order, the sample of every read group optionally overridden,
  then the reference sequences of the loaded index appended, and finally one
  program record for the aligner itself.
 */
module HeaderAssembly {

  datatype ReadGroup = ReadGroup(id: string, movieName: string, readType: string, sample: string)

  datatype SequenceInfo = SequenceInfo(name: string, length: nat)

  datatype ProgramInfo = ProgramInfo(id: string, name: string, version: string, commandLine: string)

  datatype Header = Header(readGroups: seq<ReadGroup>, sequences: seq<SequenceInfo>, programs: seq<ProgramInfo>)

  const ProgramName: string := "pbmm2"

  /** The header of the first BAM file, with each later one merged into it in
      turn by the record store's `+=`, which is passed in as `merge`. */
  function MergeHeaders(headers: seq<Header>, merge: (Header, Header) -> Header): (r: Header)
    requires |headers| >= 1
    ensures |headers| == 1 ==> r == headers[0]
  {
    if |headers| == 1 then headers[0]
    else merge(MergeHeaders(headers[..|headers| - 1], merge), headers[|headers| - 1])
  }

  /** Every read group with its sample replaced, in the same order. */
  function OverrideSample(readGroups: seq<ReadGroup>, sample: string): (r: seq<ReadGroup>)
    ensures |r| == |readGroups|
    ensures forall i :: 0 <= i < |r| ==> r[i].sample == sample
    ensures forall i :: 0 <= i < |r| ==>
      r[i].id == readGroups[i].id && r[i].movieName == readGroups[i].movieName
      && r[i].readType == readGroups[i].readType
  {
    if readGroups == [] then []
    else [readGroups[0].(sample := sample)] + OverrideSample(readGroups[1..], sample)
  }

  /** The read-group identifiers, in order. */
  function Ids(readGroups: seq<ReadGroup>): (ids: seq<string>)
    ensures |ids| == |readGroups|
  {
    if readGroups == [] then [] else [readGroups[0].id] + Ids(readGroups[1..])
  }

  /** Overriding the sample keeps the read groups' identifiers, their number
      and their order, and overriding twice with one sample is overriding once. */
  lemma {:induction false} OverrideSampleKeepsIds(readGroups: seq<ReadGroup>, sample: string)
    ensures Ids(OverrideSample(readGroups, sample)) == Ids(readGroups)
    ensures OverrideSample(OverrideSample(readGroups, sample), sample) == OverrideSample(readGroups, sample)
  {
    if readGroups != [] {
      OverrideSampleKeepsIds(readGroups[1..], sample);
      var r := OverrideSample(readGroups, sample);
      assert r[1..] == OverrideSample(readGroups[1..], sample);
    }
  }

  /** The sample-name option: an empty name leaves the read groups alone,
      any other name is written into every one of them. */
  function ApplySampleName(hdr: Header, sampleName: string): (r: Header)
    ensures sampleName == [] ==> r == hdr
    ensures sampleName != [] ==>
      && |r.readGroups| == |hdr.readGroups|
      && forall i :: 0 <= i < |r.readGroups| ==> r.readGroups[i] == hdr.readGroups[i].(sample := sampleName)
    ensures r.sequences == hdr.sequences && r.programs == hdr.programs
  {
    if sampleName == [] then hdr
    else hdr.(readGroups := OverrideSample(hdr.readGroups, sampleName))
  }

  /** The version string of the program record. */
  function VersionString(version: string, gitSha: string): string {
    version + " (commit " + gitSha + ")"
  }

  /** The output header: merged input headers, sample override, the
      reference sequences appended in the index's order, then one program
      record for the aligner. */
  function AssembleHeader(
    headers: seq<Header>,
    merge: (Header, Header) -> Header,
    sampleName: string,
    sequenceInfos: seq<SequenceInfo>,
    version: string,
    gitSha: string,
    commandLine: string): (r: Header)
    requires |headers| >= 1
    ensures var merged := MergeHeaders(headers, merge);
      && (sampleName == [] ==> r.readGroups == merged.readGroups)
      && |r.readGroups| == |merged.readGroups|
      && (sampleName != [] ==> forall i :: 0 <= i < |r.readGroups| ==>
            r.readGroups[i] == merged.readGroups[i].(sample := sampleName))
      && r.sequences == merged.sequences + sequenceInfos
      && |r.programs| == |merged.programs| + 1
      && r.programs[..|merged.programs|] == merged.programs
      && r.programs[|merged.programs|] ==
           ProgramInfo(ProgramName, ProgramName, version + " (commit " + gitSha + ")", commandLine)
  {
    var merged := MergeHeaders(headers, merge);
    var hdr := ApplySampleName(merged, sampleName);
    var program := ProgramInfo(ProgramName, ProgramName, VersionString(version, gitSha), commandLine);
    Header(hdr.readGroups, hdr.sequences + sequenceInfos, hdr.programs + [program])
  }
}
