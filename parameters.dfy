/**
 * The command-line options of the variant-annotation command and the checked,
 * normalised parameters the executor runs with: clamped thread count and batch
 * size, input format from the file suffix, output format from its lower-cased
 * name, and the custom-file, id and field lists split and cross-checked.
 */
module Parameters {
  import opened Wrappers
  import opened JavaStrings

  datatype FileFormat = VCF | JSON | AVRO | VEP

  /** The raw options, as the command-line parser leaves them (`None` is Java's null). */
  datatype CommandOptions = CommandOptions(
    input: Option<string>,
    output: Option<string>,
    outputFormat: Option<string>,
    referenceFasta: Option<string>,
    benchmark: bool,
    skipNormalize: bool,
    skipDecompose: bool,
    skipLeftAlign: bool,
    numThreads: int,
    batchSize: int,
    local: bool,
    url: Option<string>,
    species: Option<string>,
    assembly: Option<string>,
    customFiles: Option<string>,
    customFileIds: Option<string>,
    customFileFields: Option<string>,
    maxOpenFiles: int,
    buildParams: map<string, string>,
    cellBaseAnnotation: bool,
    chromosomeList: Option<string>)

  /** Where the chromosomes to annotate come from when annotating the variation collection. */
  datatype ChromosomeSource = NotNeeded | Listed(names: seq<string>) | FromDatabase

  /** The executor's fields once the options are checked. */
  datatype Parameters = Parameters(
    referenceFasta: Option<string>,
    benchmark: bool,
    input: Option<string>,
    inputFormat: Option<FileFormat>,
    normalize: bool,
    decompose: bool,
    leftAlign: bool,
    output: string,
    outputFormat: Option<FileFormat>,
    numThreads: int,
    batchSize: int,
    local: bool,
    url: Option<string>,
    species: string,
    assembly: Option<string>,
    customFiles: seq<string>,
    customFileIds: seq<string>,
    customFileFields: seq<seq<string>>,
    maxOpenFiles: int,
    populationFrequenciesFile: Option<string>,
    completeInputPopulation: bool,
    svExtraPadding: Option<int>,
    cnvExtraPadding: Option<int>,
    cellBaseAnnotation: bool,
    chromosomes: ChromosomeSource)

  /** The ParameterExceptions (and NumberFormatExceptions) the check can raise. */
  datatype ParamError =
    | BenchmarkWithoutReference
    | UnsupportedInputFormat
    | MissingOutput
    | UnsupportedOutputFormat
    | MissingUrl
    | LeftAlignWithoutReference
    | MissingSpecies
    | CustomFileNotVcf
    | MissingCustomFileIds
    | CustomFileIdCountMismatch
    | MissingCustomFileFields
    | CustomFileFieldCountMismatch
    | PopulationFileNotJson
    | MalformedNumber(param: string)
    | NegativePadding(param: string)

  const MaxBatchSize: int := 2000

  predicate IsVcfName(name: string)
  {
    EndsWith(name, ".vcf") || EndsWith(name, ".vcf.gz")
  }

  predicate IsJsonName(name: string)
  {
    EndsWith(name, ".json") || EndsWith(name, ".json.gz")
  }

  predicate AllVcf(files: seq<string>)
  {
    forall k :: 0 <= k < |files| ==> IsVcfName(files[k])
  }

  /** More than one thread is taken as asked; anything else becomes one. */
  function ClampThreads(requested: int): (n: int)
    ensures n >= 1
    ensures requested > 1 ==> n == requested
    ensures requested <= 1 ==> n == 1
  {
    if requested > 1 then requested else 1
  }

  /** A batch size in [1, 2000] is taken as asked; anything else becomes one. */
  function ClampBatchSize(requested: int): (n: int)
    ensures 1 <= n <= MaxBatchSize
    ensures 1 <= requested <= MaxBatchSize ==> n == requested
    ensures !(1 <= requested <= MaxBatchSize) ==> n == 1
  {
    if 1 <= requested <= MaxBatchSize then requested else 1
  }

  /** The input format by file suffix: VCF before JSON, anything else rejected. */
  function InputFormatOf(fileName: string): (r: Result<FileFormat, ParamError>)
    ensures r.Success? <==> IsVcfName(fileName) || IsJsonName(fileName)
    ensures r.Success? ==> (r.value == VCF <==> IsVcfName(fileName))
    ensures r.Success? ==> r.value in {VCF, JSON}
    ensures r.Failure? ==> r.error == UnsupportedInputFormat
  {
    if IsVcfName(fileName) then Success(VCF)
    else if IsJsonName(fileName) then Success(JSON)
    else Failure(UnsupportedInputFormat)
  }

  /** The lower-case name an output format is selected by. */
  function FormatName(f: FileFormat): string
  {
    match f
    case VCF => "vcf"
    case JSON => "json"
    case AVRO => "avro"
    case VEP => "vep"
  }

  /** The output format by its lower-cased name: json, avro or vep. */
  function OutputFormatOf(name: string): (r: Result<FileFormat, ParamError>)
    ensures r.Success? <==> ToLowerCase(name) in {"json", "avro", "vep"}
    ensures r.Success? ==> r.value != VCF && FormatName(r.value) == ToLowerCase(name)
    ensures r.Failure? ==> r.error == UnsupportedOutputFormat
  {
    match ToLowerCase(name)
    case "json" => Success(JSON)
    case "avro" => Success(AVRO)
    case "vep" => Success(VEP)
    case _ => Failure(UnsupportedOutputFormat)
  }

  /** Input format and whether to normalise: no format when reading the database or running the benchmark. */
  function InputSettings(o: CommandOptions): (r: Result<(Option<FileFormat>, bool), ParamError>)
    ensures r.Success? && r.value.0.Some? ==> o.input.Some? && !o.benchmark
    ensures r.Success? ==> r.value.1 == (o.input.Some? && !o.benchmark && !o.skipNormalize)
    ensures r.Failure? <==> o.input.Some? && !o.benchmark && InputFormatOf(o.input.value).Failure?
    ensures r.Success? && o.input.Some? && !o.benchmark ==>
      InputFormatOf(o.input.value).Success? && r.value.0 == Some(InputFormatOf(o.input.value).value)
  {
    if o.input.None? || o.benchmark then Success((None, false))
    else
      var format :- InputFormatOf(o.input.value);
      Success((Some(format), !o.skipNormalize))
  }

  function OutputSettings(o: CommandOptions): (r: Result<Option<FileFormat>, ParamError>)
    ensures r.Success? && o.outputFormat.Some? ==>
      OutputFormatOf(o.outputFormat.value).Success? && r.value == Some(OutputFormatOf(o.outputFormat.value).value)
    ensures r.Success? && o.outputFormat.None? ==> r.value == None
    ensures r.Failure? <==> o.outputFormat.Some? && OutputFormatOf(o.outputFormat.value).Failure?
  {
    if o.outputFormat.None? then Success(None)
    else
      var format :- OutputFormatOf(o.outputFormat.value);
      Success(Some(format))
  }

  /** The custom-file settings: the files, their ids, their field whitelists and max-open-files. */
  datatype CustomFileSettings = CustomFileSettings(
    files: seq<string>, ids: seq<string>, fields: seq<seq<string>>, maxOpenFiles: int)

  /** Each `:`-separated group split on `,`. */
  function FieldLists(groups: seq<string>): (r: seq<seq<string>>)
    ensures |r| == |groups|
    ensures forall k :: 0 <= k < |groups| ==> r[k] == Split(groups[k], ',')
  {
    seq(|groups|, k requires 0 <= k < |groups| => Split(groups[k], ','))
  }

  lemma FieldListsSnoc(groups: seq<string>, group: string)
    ensures FieldLists(groups + [group]) == FieldLists(groups) + [Split(group, ',')]
  {
    var whole := groups + [group];
    assert forall k :: 0 <= k < |groups| ==> whole[k] == groups[k];
  }

  /**
   * The custom files split on `,`, each required to be a VCF file; the ids
   * split on `,` and the field groups split on `:`, both required to be
   * present and one per file.
   */
  function CustomFileOptions(o: CommandOptions): (r: Result<CustomFileSettings, ParamError>)
    ensures o.customFiles.None? ==> r == Success(CustomFileSettings([], [], [], -1))
    ensures o.customFiles.Some? ==>
      var files := Split(o.customFiles.value, ',');
      && (r.Success? <==>
            AllVcf(files)
            && o.customFileIds.Some? && |Split(o.customFileIds.value, ',')| == |files|
            && o.customFileFields.Some? && |Split(o.customFileFields.value, ':')| == |files|)
      && (r.Success? ==>
            && r.value.files == files
            && r.value.ids == Split(o.customFileIds.value, ',')
            && r.value.maxOpenFiles == o.maxOpenFiles
            && r.value.fields == FieldLists(Split(o.customFileFields.value, ':'))
            && |r.value.fields| == |files|
            && forall k :: 0 <= k < |files| ==>
                 r.value.fields[k] == Split(Split(o.customFileFields.value, ':')[k], ','))
      && (!AllVcf(files) ==> r == Failure(CustomFileNotVcf))
  {
    if o.customFiles.None? then Success(CustomFileSettings([], [], [], -1))
    else
      var files := Split(o.customFiles.value, ',');
      if !AllVcf(files) then Failure(CustomFileNotVcf)
      else if o.customFileIds.None? then Failure(MissingCustomFileIds)
      else
        var ids := Split(o.customFileIds.value, ',');
        if |ids| != |files| then Failure(CustomFileIdCountMismatch)
        else if o.customFileFields.None? then Failure(MissingCustomFileFields)
        else
          var groups := Split(o.customFileFields.value, ':');
          if |groups| != |files| then Failure(CustomFileFieldCountMismatch)
          else Success(CustomFileSettings(files, ids, FieldLists(groups), o.maxOpenFiles))
  }

  const PopulationFrequenciesParam := "population-frequencies"
  const CompleteInputPopulationParam := "complete-input-population"
  const SvExtraPaddingParam := "sv-extra-padding"
  const CnvExtraPaddingParam := "cnv-extra-padding"

  function Lookup(m: map<string, string>, key: string): Option<string>
  {
    if key in m then Some(m[key]) else None
  }

  /** The population-frequency file (a JSON file) and the completion flag from the build parameters. */
  function PopulationOptions(o: CommandOptions): (r: Result<(Option<string>, bool), ParamError>)
    ensures r.Success? && r.value.0.Some? ==> IsJsonName(r.value.0.value)
    ensures r.Success? && r.value.1 ==> r.value.0.Some?
    ensures r.Failure? <==> PopulationFrequenciesParam in o.buildParams
                            && !IsJsonName(o.buildParams[PopulationFrequenciesParam])
    ensures r.Success? ==> r.value.0 == Lookup(o.buildParams, PopulationFrequenciesParam)
    ensures r.Success? ==>
      r.value.1 == (r.value.0.Some? && BooleanValueOf(Lookup(o.buildParams, CompleteInputPopulationParam)))
  {
    if PopulationFrequenciesParam !in o.buildParams then Success((None, false))
    else
      var file := o.buildParams[PopulationFrequenciesParam];
      if !IsJsonName(file) then Failure(PopulationFileNotJson)
      else Success((Some(file), BooleanValueOf(Lookup(o.buildParams, CompleteInputPopulationParam))))
  }

  /** An extra-padding build parameter: a 32-bit integer that is not negative. */
  function PaddingOption(o: CommandOptions, param: string): (r: Result<Option<int>, ParamError>)
    ensures r.Success? && r.value.Some? ==> 0 <= r.value.value <= IntMax
    ensures r.Success? <==> param !in o.buildParams
                            || (ParseJavaInt(o.buildParams[param]).Some? && ParseJavaInt(o.buildParams[param]).value >= 0)
    ensures r.Success? ==> r.value == (if param in o.buildParams then ParseJavaInt(o.buildParams[param]) else None)
    ensures r.Failure? ==>
      param in o.buildParams
      && r.error == (if ParseJavaInt(o.buildParams[param]).None? then MalformedNumber(param) else NegativePadding(param))
  {
    if param !in o.buildParams then Success(None)
    else
      match ParseJavaInt(o.buildParams[param])
      case None => Failure(MalformedNumber(param))
      case Some(v) => if v < 0 then Failure(NegativePadding(param)) else Success(Some(v))
  }

  function ChromosomeSourceOf(o: CommandOptions): ChromosomeSource
  {
    if !o.cellBaseAnnotation then NotNeeded
    else if o.chromosomeList.Some? && o.chromosomeList.value != "" then Listed(Split(o.chromosomeList.value, ','))
    else FromDatabase
  }

  /** What every successful check guarantees the rest of the run. */
  predicate ValidParameters(p: Parameters)
  {
    && p.numThreads >= 1
    && 1 <= p.batchSize <= MaxBatchSize
    && |p.customFileIds| == |p.customFiles|
    && |p.customFileFields| == |p.customFiles|
    && AllVcf(p.customFiles)
    && (p.populationFrequenciesFile.Some? ==> IsJsonName(p.populationFrequenciesFile.value))
    && (p.completeInputPopulation ==> p.populationFrequenciesFile.Some?)
    && (p.benchmark ==> p.referenceFasta.Some?)
    && (!p.local ==> p.url.Some? && (p.leftAlign ==> p.referenceFasta.Some?))
  }

  /** The settings checkParameters fixes before it reaches the custom files. */
  datatype BasicSettings = BasicSettings(
    referenceFasta: Option<string>,
    inputFormat: Option<FileFormat>,
    normalize: bool,
    decompose: bool,
    leftAlign: bool,
    output: string,
    outputFormat: Option<FileFormat>,
    numThreads: int,
    batchSize: int,
    url: Option<string>,
    species: string)

  /**
   * The first part of checkParameters: the reference genome, the input and
   * output formats, the clamps, the web-service URL, left alignment and the
   * species, each failing with its own error in the source's order.
   */
  function BasicOptions(o: CommandOptions): (r: Result<BasicSettings, ParamError>)
    ensures r.Success? ==> InputSettings(o).Success? && r.value.inputFormat == InputSettings(o).value.0
    ensures r.Success? ==> OutputSettings(o).Success? && r.value.outputFormat == OutputSettings(o).value
    ensures r.Success? ==> r.value.numThreads == ClampThreads(o.numThreads)
    ensures r.Success? ==> r.value.batchSize == ClampBatchSize(o.batchSize)
    ensures r.Success? ==> o.output.Some? && r.value.output == o.output.value
    ensures r.Success? ==> o.species.Some? && r.value.species == o.species.value
    ensures r.Success? && !o.local ==> r.value.url == o.url && o.url.Some?
    ensures r.Success? && !o.local && r.value.leftAlign ==> r.value.referenceFasta.Some?
    ensures r.Success? && o.benchmark ==> r.value.referenceFasta.Some?
    ensures r.Success? ==>
      && r.value.referenceFasta == (if IsNotBlank(o.referenceFasta) then o.referenceFasta else None)
      && r.value.normalize == InputSettings(o).value.1
      && r.value.decompose == !o.skipDecompose
      && r.value.leftAlign == !o.skipLeftAlign
      && r.value.url == (if o.local then None else o.url)
    ensures r.Success? <==>
      && !(o.benchmark && !IsNotBlank(o.referenceFasta))
      && InputSettings(o).Success?
      && o.output.Some?
      && OutputSettings(o).Success?
      && (!o.local ==> o.url.Some? && (o.skipLeftAlign || IsNotBlank(o.referenceFasta)))
      && o.species.Some?
    ensures o.benchmark && !IsNotBlank(o.referenceFasta) ==> r == Failure(BenchmarkWithoutReference)
    ensures !o.benchmark && InputSettings(o).Success? && o.output.Some? && OutputSettings(o).Success?
            && !o.local && o.url.Some? && !o.skipLeftAlign && !IsNotBlank(o.referenceFasta)
            ==> r == Failure(LeftAlignWithoutReference)
  {
    var referenceFasta := if IsNotBlank(o.referenceFasta) then o.referenceFasta else None;
    if o.benchmark && referenceFasta.None? then Failure(BenchmarkWithoutReference)
    else
      var (inputFormat, normalize) :- InputSettings(o);
      var decompose := !o.skipDecompose;
      var leftAlign := !o.skipLeftAlign;
      if o.output.None? then Failure(MissingOutput)
      else
        var outputFormat :- OutputSettings(o);
        if !o.local && o.url.None? then Failure(MissingUrl)
        else if !o.local && leftAlign && referenceFasta.None? then Failure(LeftAlignWithoutReference)
        else if o.species.None? then Failure(MissingSpecies)
        else
          Success(BasicSettings(
            referenceFasta, inputFormat, normalize, decompose, leftAlign, o.output.value, outputFormat,
            ClampThreads(o.numThreads), ClampBatchSize(o.batchSize), if o.local then None else o.url,
            o.species.value))
  }

  /** The executor's fields once every check has passed. */
  function Assemble(o: CommandOptions, b: BasicSettings, c: CustomFileSettings, populationFile: Option<string>,
                    complete: bool, svPadding: Option<int>, cnvPadding: Option<int>): Parameters
  {
    Parameters(
      b.referenceFasta, o.benchmark, o.input, b.inputFormat, b.normalize, b.decompose, b.leftAlign,
      b.output, b.outputFormat, b.numThreads, b.batchSize, o.local, b.url, b.species, o.assembly,
      c.files, c.ids, c.fields, c.maxOpenFiles, populationFile, complete, svPadding, cnvPadding,
      o.cellBaseAnnotation, ChromosomeSourceOf(o))
  }

  /**
   * checkParameters: the checks in the source's order, each failing with its
   * own error, and on success the normalised parameters.
   */
  function CheckedParameters(o: CommandOptions): (r: Result<Parameters, ParamError>)
    ensures r.Success? ==> ValidParameters(r.value)
    ensures r.Success? ==> r.value.numThreads == (if o.numThreads > 1 then o.numThreads else 1)
    ensures r.Success? ==> r.value.batchSize == (if 1 <= o.batchSize <= MaxBatchSize then o.batchSize else 1)
    ensures r.Success? ==> o.output.Some? && o.species.Some? && (!o.local ==> o.url.Some?)
    ensures o.benchmark && !IsNotBlank(o.referenceFasta) ==> r == Failure(BenchmarkWithoutReference)
    ensures r.Success? && o.customFiles.Some? ==>
      && r.value.customFiles == Split(o.customFiles.value, ',')
      && o.customFileIds.Some? && r.value.customFileIds == Split(o.customFileIds.value, ',')
      && o.customFileFields.Some? && r.value.customFileFields == FieldLists(Split(o.customFileFields.value, ':'))
      && r.value.maxOpenFiles == o.maxOpenFiles
    ensures r.Success? && o.customFiles.None? ==>
      r.value.customFiles == [] && r.value.customFileFields == [] && r.value.maxOpenFiles == -1
    ensures r.Success? ==> InputSettings(o).Success? && r.value.inputFormat == InputSettings(o).value.0
    ensures r.Success? ==> OutputSettings(o).Success? && r.value.outputFormat == OutputSettings(o).value
    ensures r.Success? <==>
      && BasicOptions(o).Success? && CustomFileOptions(o).Success? && PopulationOptions(o).Success?
      && PaddingOption(o, SvExtraPaddingParam).Success? && PaddingOption(o, CnvExtraPaddingParam).Success?
  {
    var basics := BasicOptions(o);
    var custom := CustomFileOptions(o);
    var population := PopulationOptions(o);
    var svPadding := PaddingOption(o, SvExtraPaddingParam);
    var cnvPadding := PaddingOption(o, CnvExtraPaddingParam);
    if basics.Failure? then Failure(basics.error)
    else if custom.Failure? then Failure(custom.error)
    else if population.Failure? then Failure(population.error)
    else if svPadding.Failure? then Failure(svPadding.error)
    else if cnvPadding.Failure? then Failure(cnvPadding.error)
    else
      Success(Assemble(o, basics.value, custom.value, population.value.0, population.value.1,
                       svPadding.value, cnvPadding.value))
  }

  /** The reference, input, alignment, output, species and connection settings checkParameters leaves. */
  lemma CheckedSettings(o: CommandOptions)
    requires CheckedParameters(o).Success?
    ensures var p := CheckedParameters(o).value;
            && p.referenceFasta == (if IsNotBlank(o.referenceFasta) then o.referenceFasta else None)
            && p.benchmark == o.benchmark && p.input == o.input
            && p.normalize == (o.input.Some? && !o.benchmark && !o.skipNormalize)
            && p.decompose == !o.skipDecompose && p.leftAlign == !o.skipLeftAlign
            && p.output == o.output.value && p.species == o.species.value
            && p.local == o.local && p.url == (if o.local then None else o.url)
            && p.assembly == o.assembly && p.cellBaseAnnotation == o.cellBaseAnnotation
            && p.chromosomes == ChromosomeSourceOf(o)
  {
    assert BasicOptions(o).Success?;
  }

  /** The population-frequency file, the completion flag and the two paddings checkParameters leaves. */
  lemma CheckedBuildParameters(o: CommandOptions)
    requires CheckedParameters(o).Success?
    ensures var p := CheckedParameters(o).value;
            && p.populationFrequenciesFile == Lookup(o.buildParams, PopulationFrequenciesParam)
            && p.completeInputPopulation
               == (p.populationFrequenciesFile.Some? && BooleanValueOf(Lookup(o.buildParams, CompleteInputPopulationParam)))
            && p.svExtraPadding == (if SvExtraPaddingParam in o.buildParams then ParseJavaInt(o.buildParams[SvExtraPaddingParam]) else None)
            && p.cnvExtraPadding == (if CnvExtraPaddingParam in o.buildParams then ParseJavaInt(o.buildParams[CnvExtraPaddingParam]) else None)
  {
    assert PopulationOptions(o).Success?;
    assert PaddingOption(o, SvExtraPaddingParam).Success? && PaddingOption(o, CnvExtraPaddingParam).Success?;
  }
}
