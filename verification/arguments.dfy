/**
  Resolution of the positional arguments `input reference [output]`: the
  input must exist and be a subread or consensus-read set; the reference is
  either a prebuilt `.mmi` index, used as given, or a reference set holding
  exactly one FASTA file, which is used instead; the output is the third
  argument when there are exactly three, and standard output ("-") otherwise.
 */
module Arguments {
  import opened Common
  import opened Strings

  /** What the workflow learns about paths from the file system and the
      record store. */
  datatype Environment = Environment(
    fileExists: string -> bool,
    dataSetType: string -> DataSetType,
    fastaFiles: string -> seq<string>)

  /** The resolved (input, reference, output) triple. */
  datatype PositionalArgs = PositionalArgs(input: string, reference: string, output: string)

  const IndexSuffix: string := ".mmi"
  const StandardOutput: string := "-"

  /** A reference path the workflow accepts: an existing `.mmi` index, or an
      existing reference set with exactly one FASTA file. */
  predicate ValidReference(env: Environment, path: string) {
    && env.fileExists(path)
    && (|| EndsWith(path, IndexSuffix)
        || (env.dataSetType(path) == Reference && |env.fastaFiles(path)| == 1))
  }

  /** Arguments the workflow accepts. */
  predicate ValidArguments(env: Environment, args: seq<string>) {
    && |args| >= 2
    && env.fileExists(args[0])
    && IsReadSet(env.dataSetType(args[0]))
    && ValidReference(env, args[1])
  }

  /** `CheckPositionalArgs`: every failed check is a fatal result, taken in
      the order the checks are made. */
  function CheckPositionalArgs(env: Environment, args: seq<string>): (r: Result<PositionalArgs>)
    ensures r.Ok? <==> ValidArguments(env, args)
    ensures r.Ok? ==> r.value.input == args[0]
    ensures r.Ok? && EndsWith(args[1], IndexSuffix) ==> r.value.reference == args[1]
    ensures r.Ok? && !EndsWith(args[1], IndexSuffix) ==>
      env.fastaFiles(args[1]) == [r.value.reference]
    ensures r.Ok? && |args| == 3 ==> r.value.output == args[2]
    ensures r.Ok? && |args| != 3 ==> r.value.output == StandardOutput
    ensures |args| < 2 ==> r == Fatal(TooFewArguments)
    ensures |args| >= 2 && !env.fileExists(args[0]) ==> r == Fatal(InputMissing(args[0]))
    ensures |args| >= 2 && env.fileExists(args[0]) && !IsReadSet(env.dataSetType(args[0])) ==>
      r == Fatal(UnsupportedInput(args[0], env.dataSetType(args[0])))
    ensures |args| >= 2 && env.fileExists(args[0]) && IsReadSet(env.dataSetType(args[0])) ==>
      (r.Fatal? <==> !ValidReference(env, args[1])) && (r.Fatal? ==> ReferenceFailure(r.failure))
    ensures |args| >= 2 && env.fileExists(args[0]) && IsReadSet(env.dataSetType(args[0])) && r.Fatal? ==>
      r.failure == ResolveReference(env, args[1]).failure
  {
    if |args| < 2 then Fatal(TooFewArguments)
    else
      var inputFile := args[0];
      if !env.fileExists(inputFile) then Fatal(InputMissing(inputFile))
      else if !IsReadSet(env.dataSetType(inputFile)) then
        Fatal(UnsupportedInput(inputFile, env.dataSetType(inputFile)))
      else
        var reference :- ResolveReference(env, args[1]);
        var out := if |args| == 3 then args[2] else StandardOutput;
        Ok(PositionalArgs(inputFile, reference, out))
  }

  /** Failures that concern the reference argument. */
  predicate ReferenceFailure(f: Failure) {
    f.ReferenceMissing? || f.UnsupportedReference? || f.NotOneReferenceFasta?
  }

  /** The reference half of `CheckPositionalArgs`: an `.mmi` path (matched
      case-sensitively) is used as given; anything else must be a reference
      set with exactly one FASTA file, and that file is used. */
  function ResolveReference(env: Environment, path: string): (r: Result<string>)
    ensures r.Ok? <==> ValidReference(env, path)
    ensures r.Ok? && EndsWith(path, IndexSuffix) ==> r.value == path
    ensures r.Ok? && !EndsWith(path, IndexSuffix) ==> env.fastaFiles(path) == [r.value]
    ensures r.Fatal? ==> ReferenceFailure(r.failure)
    ensures !env.fileExists(path) ==> r == Fatal(ReferenceMissing(path))
    ensures env.fileExists(path) && !EndsWith(path, IndexSuffix) && env.dataSetType(path) != Reference ==>
      r == Fatal(UnsupportedReference(path, env.dataSetType(path)))
    ensures env.fileExists(path) && !EndsWith(path, IndexSuffix) && env.dataSetType(path) == Reference ==>
      |env.fastaFiles(path)| != 1 ==> r == Fatal(NotOneReferenceFasta(path, |env.fastaFiles(path)|))
  {
    if !env.fileExists(path) then Fatal(ReferenceMissing(path))
    else if EndsWith(path, IndexSuffix) then Ok(path)
    else if env.dataSetType(path) != Reference then
      Fatal(UnsupportedReference(path, env.dataSetType(path)))
    else
      var fastaFiles := env.fastaFiles(path);
      if |fastaFiles| != 1 then Fatal(NotOneReferenceFasta(path, |fastaFiles|))
      else Ok(fastaFiles[0])
  }
}
