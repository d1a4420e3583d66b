/**
  Naming of the workflow's outputs: the prefix left when the known dataset
  or BAM endings are taken off the output path, the choice of the BAM file
  actually written, and the dataset descriptor written next to it when the
  output path names an XML dataset.
 */
module OutputNaming {
  import opened Common
  import opened Strings
  import Arguments

  const XmlExtension: string := "xml"
  const BamExtension: string := "bam"
  const ConsensusAlignmentSetSuffix: string := ".consensusalignmentset.xml"
  const AlignmentSetSuffix: string := ".alignmentset.xml"
  const BamSuffix: string := ".bam"
  const SubreadsSuffix: string := ".subreads"
  const PbiSuffix: string := ".pbi"

  /** `OutputFilePrefix`: for an `xml` output take off the last
      ".consensusalignmentset.xml" and then the last ".alignmentset.xml"; for
      a `bam` output the last ".bam" and then the last ".subreads" (all
      ignoring case); any other extension is fatal. */
  function OutputFilePrefix(outputFile: string): (r: Result<string>)
    ensures r.Ok? <==> FileExtension(outputFile) == XmlExtension || FileExtension(outputFile) == BamExtension
    ensures r.Fatal? ==> r.failure == UnknownOutputExtension(outputFile)
    ensures r.Ok? ==> |r.value| <= |outputFile|
  {
    var ext := FileExtension(outputFile);
    if ext == XmlExtension then
      Ok(EraseLast(EraseLast(outputFile, ConsensusAlignmentSetSuffix), AlignmentSetSuffix))
    else if ext == BamExtension then
      Ok(EraseLast(EraseLast(outputFile, BamSuffix), SubreadsSuffix))
    else
      Fatal(UnknownOutputExtension(outputFile))
  }

  /** The four conventional output names give back the stem they were made
      from: "stem.subreads.bam" always, and each of the other three exactly
      when the stem does not contain (ignoring case) the ending taken off
      after the one appended. */
  lemma OutputFilePrefixOfConventionalNames(stem: string)
    ensures OutputFilePrefix(stem + SubreadsSuffix + BamSuffix) == Ok(stem)
    ensures OutputFilePrefix(stem + BamSuffix) == Ok(EraseLast(stem, SubreadsSuffix))
    ensures OutputFilePrefix(stem + BamSuffix) == Ok(stem) <==> !Occurs(stem, SubreadsSuffix)
    ensures OutputFilePrefix(stem + ConsensusAlignmentSetSuffix) == Ok(stem)
      <==> !Occurs(stem, AlignmentSetSuffix)
    ensures OutputFilePrefix(stem + AlignmentSetSuffix) == Ok(stem)
      <==> !Occurs(stem, ConsensusAlignmentSetSuffix)
  {
    PrefixOfSubreadsBam(stem);
    PrefixOfBam(stem);
    PrefixOfConsensusAlignmentSet(stem);
    PrefixOfAlignmentSet(stem);
  }

  lemma PrefixOfSubreadsBam(stem: string)
    ensures OutputFilePrefix(stem + SubreadsSuffix + BamSuffix) == Ok(stem)
  {
    var out := stem + SubreadsSuffix + BamSuffix;
    FileExtensionOf(stem + SubreadsSuffix, BamExtension);
    assert stem + SubreadsSuffix + "." + BamExtension == out;
    EraseLastOfSuffix(stem + SubreadsSuffix, BamSuffix);
    assert EraseLast(out, BamSuffix) == stem + SubreadsSuffix;
    EraseLastOfSuffix(stem, SubreadsSuffix);
  }

  lemma PrefixOfBam(stem: string)
    ensures OutputFilePrefix(stem + BamSuffix) == Ok(EraseLast(stem, SubreadsSuffix))
    ensures OutputFilePrefix(stem + BamSuffix) == Ok(stem) <==> !Occurs(stem, SubreadsSuffix)
  {
    var out := stem + BamSuffix;
    FileExtensionOf(stem, BamExtension);
    assert stem + "." + BamExtension == out;
    EraseLastOfSuffix(stem, BamSuffix);
    assert OutputFilePrefix(out) == Ok(EraseLast(stem, SubreadsSuffix));
    EraseLastIdentity(stem, SubreadsSuffix);
  }

  /** An XML name that contains neither XML ending, such as "out.xml", is its
      own prefix: the BAM then goes to "out.xml.bam". */
  lemma PrefixWithoutEndings(o: string)
    requires FileExtension(o) == XmlExtension
    requires !Occurs(o, ConsensusAlignmentSetSuffix) && !Occurs(o, AlignmentSetSuffix)
    ensures OutputFilePrefix(o) == Ok(o)
  {
    EraseLastIdentity(o, ConsensusAlignmentSetSuffix);
    EraseLastIdentity(o, AlignmentSetSuffix);
  }

  lemma PrefixOfConsensusAlignmentSet(stem: string)
    ensures OutputFilePrefix(stem + ConsensusAlignmentSetSuffix) == Ok(stem)
      <==> !Occurs(stem, AlignmentSetSuffix)
  {
    var out := stem + ConsensusAlignmentSetSuffix;
    FileExtensionOf(stem + ".consensusalignmentset", XmlExtension);
    assert stem + ".consensusalignmentset" + "." + XmlExtension == out;
    EraseLastOfSuffix(stem, ConsensusAlignmentSetSuffix);
    assert OutputFilePrefix(out) == Ok(EraseLast(stem, AlignmentSetSuffix));
    EraseLastIdentity(stem, AlignmentSetSuffix);
  }

  lemma PrefixOfAlignmentSet(stem: string)
    ensures OutputFilePrefix(stem + AlignmentSetSuffix) == Ok(stem)
      <==> !Occurs(stem, ConsensusAlignmentSetSuffix)
  {
    var out := stem + AlignmentSetSuffix;
    FileExtensionOf(stem + ".alignmentset", XmlExtension);
    assert stem + ".alignmentset" + "." + XmlExtension == out;
    assert OutputFilePrefix(out)
      == Ok(EraseLast(EraseLast(out, ConsensusAlignmentSetSuffix), AlignmentSetSuffix));
    if Occurs(stem, ConsensusAlignmentSetSuffix) {
      ErasuresShortenStem(stem);
    } else {
      ErasuresGiveStem(stem);
    }
  }

  /** With ".consensusalignmentset.xml" in the stem, both erasures together
      take off more than the appended ending. */
  lemma ErasuresShortenStem(stem: string)
    requires Occurs(stem, ConsensusAlignmentSetSuffix)
    ensures |EraseLast(EraseLast(stem + AlignmentSetSuffix, ConsensusAlignmentSetSuffix), AlignmentSetSuffix)| < |stem|
  {
    OccursExtends(stem, AlignmentSetSuffix, ConsensusAlignmentSetSuffix);
    EraseLastShortens(stem + AlignmentSetSuffix, ConsensusAlignmentSetSuffix);
  }

  /** Without it, the first erasure does nothing and the second takes off
      exactly the appended ending. */
  lemma ErasuresGiveStem(stem: string)
    requires !Occurs(stem, ConsensusAlignmentSetSuffix)
    ensures EraseLast(EraseLast(stem + AlignmentSetSuffix, ConsensusAlignmentSetSuffix), AlignmentSetSuffix) == stem
  {
    ConsensusEndingNotAcross(stem);
    EraseLastIdentity(stem + AlignmentSetSuffix, ConsensusAlignmentSetSuffix);
    EraseLastOfSuffix(stem, AlignmentSetSuffix);
  }

  /** ".consensusalignmentset.xml" cannot occur in "stem.alignmentset.xml"
      unless it occurs in the stem: no occurrence can reach across the '.'
      that starts the appended ending. */
  lemma ConsensusEndingNotAcross(stem: string)
    requires !Occurs(stem, ConsensusAlignmentSetSuffix)
    ensures !Occurs(stem + AlignmentSetSuffix, ConsensusAlignmentSetSuffix)
  {
    var out := stem + AlignmentSetSuffix;
    forall k | 0 <= k <= |out|
      ensures !MatchesAt(out, ConsensusAlignmentSetSuffix, k)
    {
      if k + |ConsensusAlignmentSetSuffix| <= |stem| {
        if MatchesAt(out, ConsensusAlignmentSetSuffix, k) {
          OccursInPrefix(stem, AlignmentSetSuffix, ConsensusAlignmentSetSuffix, k);
        }
      } else if k + |ConsensusAlignmentSetSuffix| <= |out| {
        AcrossMismatch(stem, k);
      }
    }
  }

  /** An occurrence starting in the stem and ending in the appended
      ".alignmentset.xml" would have to match that ending's '.' and the
      letter after it. */
  lemma AcrossMismatch(stem: string, k: int)
    requires 0 <= k && |stem| < k + |ConsensusAlignmentSetSuffix| <= |stem| + |AlignmentSetSuffix|
    ensures !MatchesAt(stem + AlignmentSetSuffix, ConsensusAlignmentSetSuffix, k)
  {
    var out := stem + AlignmentSetSuffix;
    var j := |stem| - k;
    if MatchesAt(out, ConsensusAlignmentSetSuffix, k) {
      assert out[k + j] == '.' && out[k + j + 1] == 'a';
      MatchedChar(out, ConsensusAlignmentSetSuffix, k, j);
      DotsOfConsensusEnding(j);
      MatchedChar(out, ConsensusAlignmentSetSuffix, k, j + 1);
    }
  }

  /** The only characters of ".consensusalignmentset.xml" that fold to '.'. */
  lemma DotsOfConsensusEnding(j: int)
    requires 0 <= j < |ConsensusAlignmentSetSuffix| && LowerChar(ConsensusAlignmentSetSuffix[j]) == '.'
    ensures j == 0 || j == 22
  {
  }

  /** What the workflow writes: the BAM path, whether a dataset descriptor
      follows, and the prefix the descriptor is named after. */
  datatype OutputPlan = OutputPlan(alnFile: string, outputIsXml: bool, prefix: string)

  /** The output selection of the workflow's runner: standard output writes
      the BAM to standard output and nothing else; an XML output writes the
      BAM to `prefix + ".bam"` and a descriptor afterwards; a BAM output
      writes to the given path. */
  function PlanOutput(outFile: string): (r: Result<OutputPlan>)
    ensures outFile == Arguments.StandardOutput ==> r == Ok(OutputPlan(Arguments.StandardOutput, false, []))
    ensures r.Fatal? <==> outFile != Arguments.StandardOutput && OutputFilePrefix(outFile).Fatal?
    ensures r.Ok? ==> (r.value.alnFile == Arguments.StandardOutput <==> outFile == Arguments.StandardOutput)
    ensures r.Ok? ==> (r.value.outputIsXml <==>
      outFile != Arguments.StandardOutput && FileExtension(outFile) == XmlExtension)
    ensures r.Ok? && r.value.outputIsXml ==> r.value.alnFile == r.value.prefix + BamSuffix
    ensures r.Ok? && !r.value.outputIsXml ==> r.value.alnFile == outFile
    ensures r.Ok? && outFile != Arguments.StandardOutput ==> r.value.prefix == OutputFilePrefix(outFile).value
  {
    if outFile == Arguments.StandardOutput then Ok(OutputPlan(Arguments.StandardOutput, false, []))
    else
      var prefix :- OutputFilePrefix(outFile);
      var outputIsXml := FileExtension(outFile) == XmlExtension;
      var alnFile := if outputIsXml then prefix + BamSuffix else outFile;
      Ok(OutputPlan(alnFile, outputIsXml, prefix))
  }

  /** With an XML output the BAM is never written over the XML path. */
  lemma XmlOutputWritesSeparateBam(outFile: string)
    requires PlanOutput(outFile).Ok? && PlanOutput(outFile).value.outputIsXml
    ensures PlanOutput(outFile).value.alnFile != outFile
  {
    var plan := PlanOutput(outFile).value;
    FileExtensionOf(plan.prefix, BamExtension);
    assert plan.prefix + "." + BamExtension == plan.alnFile;
  }

  /** A file index attached to a resource. */
  datatype FileIndex = FileIndex(metaType: string, resourceId: string)

  /** A file the descriptor refers to, with its indices. */
  datatype ExternalResource = ExternalResource(metaType: string, resourceId: string, fileIndices: seq<FileIndex>)

  /** The fields of the dataset descriptor the workflow chooses, and the path
      it is written to. */
  datatype DataSetDescriptor = DataSetDescriptor(
    dataSetType: DataSetType,
    name: string,
    timeStampedName: string,
    resources: seq<ExternalResource>,
    path: string)

  const AlignmentBamFileMetaType: string := "PacBio.AlignmentFile.AlignmentBamFile"
  const ConsensusAlignmentBamFileMetaType: string := "PacBio.AlignmentFile.ConsensusAlignmentBamFile"
  const PbiMetaType: string := "PacBio.Index.PacBioIndex"

  /** What each accepted input type turns into: the resource meta type, the
      descriptor's file-name infix, and the dataset type that goes with them. */
  datatype DescriptorKind = DescriptorKind(metaType: string, outputType: string, dataSetType: DataSetType)

  function KindOf(inputType: DataSetType): (r: Result<DescriptorKind>)
    ensures r.Ok? <==> IsReadSet(inputType)
    ensures r.Fatal? ==> r.failure == UnsupportedInputType(inputType)
    ensures inputType == Subread ==>
      && r.Ok? && r.value.dataSetType == Alignment
      && r.value.metaType == AlignmentBamFileMetaType
      && "." + r.value.outputType + "." + XmlExtension == AlignmentSetSuffix
    ensures inputType == ConsensusRead ==>
      && r.Ok? && r.value.dataSetType == ConsensusAlignment
      && r.value.metaType == ConsensusAlignmentBamFileMetaType
      && "." + r.value.outputType + "." + XmlExtension == ConsensusAlignmentSetSuffix
  {
    match inputType
    case Subread => Ok(DescriptorKind(AlignmentBamFileMetaType, "alignmentset", Alignment))
    case ConsensusRead =>
      Ok(DescriptorKind(ConsensusAlignmentBamFileMetaType, "consensusalignmentset", ConsensusAlignment))
    case _ => Fatal(UnsupportedInputType(inputType))
  }

  /** The descriptor of a given kind for the BAM at `outputFile + ".bam"`. */
  function Describe(kind: DescriptorKind, outputFile: string, pbi: bool, timestamp: string): (d: DataSetDescriptor)
    ensures d.dataSetType == kind.dataSetType
    ensures d.path == outputFile + ("." + kind.outputType + "." + XmlExtension)
    ensures d.name == BaseName(outputFile)
    ensures d.timeStampedName == d.name + "-" + timestamp
    ensures |d.resources| == 1 && d.resources[0].resourceId == d.name + BamSuffix
    ensures d.resources[0].metaType == kind.metaType
    ensures |d.resources[0].fileIndices| == (if pbi then 1 else 0)
    ensures forall i :: 0 <= i < |d.resources[0].fileIndices| ==>
      d.resources[0].fileIndices[i] == FileIndex(PbiMetaType, d.name + BamSuffix + PbiSuffix)
  {
    var fileName := BaseName(outputFile);
    var indices := if pbi then [FileIndex(PbiMetaType, fileName + BamSuffix + PbiSuffix)] else [];
    var resource := ExternalResource(kind.metaType, fileName + BamSuffix, indices);
    var path := outputFile + "." + kind.outputType + "." + XmlExtension;
    assert path == outputFile + ("." + kind.outputType + "." + XmlExtension);
    DataSetDescriptor(kind.dataSetType, fileName, fileName + "-" + timestamp, [resource], path)
  }

  /** `CreateDataSet`: the dataset descriptor for the BAM written at
      `outputFile + ".bam"`: one resource named after the basename of
      `outputFile`, with a PBI index exactly when indexing is on, declared
      with the alignment dataset type that matches the input, and written to
      `outputFile + "." + outputType + ".xml"`; any input other than a read
      set is fatal. */
  function CreateDataSet(inputType: DataSetType, outputFile: string, pbi: bool, timestamp: string)
    : (r: Result<DataSetDescriptor>)
    ensures r.Ok? <==> IsReadSet(inputType)
    ensures r.Fatal? ==> r.failure == UnsupportedInputType(inputType)
    ensures r.Ok? ==> |r.value.resources| == 1 && r.value.resources[0].resourceId == r.value.name + BamSuffix
    ensures r.Ok? && inputType == Subread ==>
      && r.value.dataSetType == Alignment
      && r.value.path == outputFile + AlignmentSetSuffix
      && r.value.resources[0].metaType == AlignmentBamFileMetaType
    ensures r.Ok? && inputType == ConsensusRead ==>
      && r.value.dataSetType == ConsensusAlignment
      && r.value.path == outputFile + ConsensusAlignmentSetSuffix
      && r.value.resources[0].metaType == ConsensusAlignmentBamFileMetaType
    ensures r.Ok? ==> r.value.name == BaseName(outputFile)
    ensures r.Ok? ==> r.value.timeStampedName == r.value.name + "-" + timestamp
    ensures r.Ok? ==> |r.value.resources[0].fileIndices| == (if pbi then 1 else 0)
    ensures r.Ok? ==> forall i :: 0 <= i < |r.value.resources[0].fileIndices| ==>
      r.value.resources[0].fileIndices[i] == FileIndex(PbiMetaType, r.value.name + BamSuffix + PbiSuffix)
  {
    var kind :- KindOf(inputType);
    Ok(Describe(kind, outputFile, pbi, timestamp))
  }

  /** The descriptor as the workflow constructs it: the same fields, but
      declared with the input's own dataset type. */
  function CreateDataSetAsWritten(inputType: DataSetType, outputFile: string, pbi: bool, timestamp: string)
    : (r: Result<DataSetDescriptor>)
    ensures r.Ok? <==> IsReadSet(inputType)
    ensures r.Ok? ==> r.value.dataSetType == inputType
    ensures r.Ok? ==> r == Ok(CreateDataSet(inputType, outputFile, pbi, timestamp).value.(dataSetType := inputType))
  {
    var ds :- CreateDataSet(inputType, outputFile, pbi, timestamp);
    Ok(ds.(dataSetType := inputType))
  }

  /** A subread input with an XML output gets, as written, a descriptor that
      is declared a subread set although it is saved as an alignment set of
      aligned BAM resources. */
  lemma AsWrittenDescriptorIsReadSet(outputFile: string, pbi: bool, timestamp: string)
    ensures CreateDataSetAsWritten(Subread, outputFile, pbi, timestamp).value.dataSetType == Subread
    ensures CreateDataSetAsWritten(Subread, outputFile, pbi, timestamp).value.path == outputFile + AlignmentSetSuffix
    ensures CreateDataSet(Subread, outputFile, pbi, timestamp).value.dataSetType == Alignment
  {
  }

  /** Argument resolution only lets read sets through, so the descriptor can
      always be made for an input it accepted. */
  lemma DescriptorForResolvedInput(env: Arguments.Environment, args: seq<string>, prefix: string, pbi: bool, timestamp: string)
    requires Arguments.CheckPositionalArgs(env, args).Ok?
    ensures CreateDataSet(env.dataSetType(Arguments.CheckPositionalArgs(env, args).value.input), prefix, pbi, timestamp).Ok?
  {
  }

  /** The stem does not contain the other XML ending, so taking the endings
      off an XML output name leaves exactly the stem. */
  predicate KeepsStem(p: string, suffix: string) {
    && (suffix == AlignmentSetSuffix ==> !Occurs(p, ConsensusAlignmentSetSuffix))
    && (suffix == ConsensusAlignmentSetSuffix ==> !Occurs(p, AlignmentSetSuffix))
  }

  /** A stem without any '.' keeps its shape under either XML ending. */
  lemma DotFreeKeepsStem(p: string, suffix: string)
    requires '.' !in p
    ensures KeepsStem(p, suffix)
  {
    NoDottedPatternIn(p, ConsensusAlignmentSetSuffix);
    NoDottedPatternIn(p, AlignmentSetSuffix);
  }

  /** End to end: for an output named `p.alignmentset.xml` (subread input) or
      `p.consensusalignmentset.xml` (consensus-read input), where `p` does not
      contain the other XML ending, the BAM goes to `p.bam`, the descriptor is written back to the
      very path asked for, and its one resource names the BAM by its basename. */
  lemma XmlOutputRoundTrip(p: string, inputType: DataSetType, suffix: string, pbi: bool, timestamp: string)
    requires KeepsStem(p, suffix)
    requires (inputType == Subread && suffix == AlignmentSetSuffix)
          || (inputType == ConsensusRead && suffix == ConsensusAlignmentSetSuffix)
    ensures PlanOutput(p + suffix) == Ok(OutputPlan(p + BamSuffix, true, p))
    ensures CreateDataSet(inputType, p, pbi, timestamp).Ok?
    ensures CreateDataSet(inputType, p, pbi, timestamp).value.path == p + suffix
    ensures CreateDataSet(inputType, p, pbi, timestamp).value.resources[0].resourceId == BaseName(p + BamSuffix)
  {
    PlanOfDatasetName(p, suffix);
    DescriptorOfPrefix(p, inputType, suffix, pbi, timestamp);
  }

  /** An XML output whose ending does not match the input: the BAM still goes
      to `p.bam`, but the descriptor is written to the path of the other
      ending, so the path asked for is never written. */
  lemma MismatchedXmlOutput(p: string, inputType: DataSetType, suffix: string, pbi: bool, timestamp: string)
    requires KeepsStem(p, suffix)
    requires (inputType == ConsensusRead && suffix == AlignmentSetSuffix)
          || (inputType == Subread && suffix == ConsensusAlignmentSetSuffix)
    ensures PlanOutput(p + suffix) == Ok(OutputPlan(p + BamSuffix, true, p))
    ensures CreateDataSet(inputType, p, pbi, timestamp).Ok?
    ensures CreateDataSet(inputType, p, pbi, timestamp).value.path != p + suffix
  {
    PlanOfDatasetName(p, suffix);
    var other := if suffix == AlignmentSetSuffix then ConsensusAlignmentSetSuffix else AlignmentSetSuffix;
    DescriptorOfPrefix(p, inputType, other, pbi, timestamp);
    assert |p + other| != |p + suffix|;
  }

  /** The descriptor half of the round trip. */
  lemma DescriptorOfPrefix(p: string, inputType: DataSetType, suffix: string, pbi: bool, timestamp: string)
    requires (inputType == Subread && suffix == AlignmentSetSuffix)
          || (inputType == ConsensusRead && suffix == ConsensusAlignmentSetSuffix)
    ensures CreateDataSet(inputType, p, pbi, timestamp).Ok?
    ensures CreateDataSet(inputType, p, pbi, timestamp).value.path == p + suffix
    ensures CreateDataSet(inputType, p, pbi, timestamp).value.resources[0].resourceId == BaseName(p + BamSuffix)
  {
    BaseNameOfBam(p);
  }

  /** The basename of `p.bam` is the basename of `p` followed by ".bam". */
  lemma BaseNameOfBam(p: string)
    ensures BaseName(p + BamSuffix) == BaseName(p) + BamSuffix
  {
    if '/' in p {
      BaseNameAppend(p, BamSuffix);
    } else {
      assert '/' !in p + BamSuffix;
    }
  }

  lemma PlanOfDatasetName(p: string, suffix: string)
    requires suffix == AlignmentSetSuffix || suffix == ConsensusAlignmentSetSuffix
    requires KeepsStem(p, suffix)
    ensures PlanOutput(p + suffix) == Ok(OutputPlan(p + BamSuffix, true, p))
  {
    var out := p + suffix;
    assert out != Arguments.StandardOutput by {
      assert |out| > 1;
    }
    var middle := suffix[..|suffix| - 4];
    assert '.' !in XmlExtension;
    FileExtensionOf(p + middle, XmlExtension);
    assert p + middle + "." + XmlExtension == out;
    if suffix == AlignmentSetSuffix {
      PrefixOfAlignmentSet(p);
    } else {
      PrefixOfConsensusAlignmentSet(p);
    }
  }
}
