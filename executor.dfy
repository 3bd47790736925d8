/**
 * The variant-annotation command executor: its checked parameters, the
 * indexes it builds for custom and population-frequency files, the annotator
 * chain it hands to every task, the reconciliation pass over the population
 * index, and the final closing of the indexes.
 */
module Executor {
  import opened Wrappers
  import opened JavaStrings
  import opened Variants
  import opened KeyValueStore
  import opened Parameters
  import opened InfoAttributes
  import opened Indexing
  import opened Annotators
  import opened Reconciliation

  /** The executor's fields before checkParameters runs (Java's defaults; max-open-files starts at -1; no output is ""). */
  const Unchecked := Parameters(
    None, false, None, None, false, false, false, "", None, 0, 0, false, None, "", None,
    [], [], [], -1, None, false, None, None, false, NotNeeded)

  /**
   * The index built for one custom file: at the file's `.idx` location, open,
   * read-only exactly when that directory already existed, and holding what
   * indexing the file leaves there.
   */
  predicate CustomIndexBuilt(index: Store, location: string, file: string, disk: Disk,
                             input: seq<ReadItem<VcfRecord>>, normalize: VcfRecord -> seq<Variant>, fields: seq<string>)
    reads index
  {
    && location == file + IndexSuffix
    && index.location == location && index.isOpen
    && index.readOnly == (location in disk)
    && index.entries == CustomIndexContents(disk, location, input, normalize, fields)
  }

  /** The first `n` custom files can be indexed and have their indexes, in order. */
  predicate CustomIndexesBuilt(p: Parameters, indexes: seq<Store>, locations: seq<string>, disk: Disk,
                               customInputs: seq<seq<ReadItem<VcfRecord>>>, normalize: VcfRecord -> seq<Variant>, n: nat)
    reads indexes
  {
    && |indexes| == |locations| == n
    && n <= |p.customFiles| && n <= |p.customFileFields| && n <= |customInputs|
    && (forall k :: 0 <= k < n ==> Indexable(disk, p.customFiles[k], customInputs[k]))
    && (forall k :: 0 <= k < n ==>
          CustomIndexBuilt(indexes[k], locations[k], p.customFiles[k], disk, customInputs[k],
                           normalize, p.customFileFields[k]))
  }

  /** One more custom file indexed. */
  lemma CustomIndexesBuiltSnoc(p: Parameters, indexes: seq<Store>, locations: seq<string>, disk: Disk,
                               customInputs: seq<seq<ReadItem<VcfRecord>>>, normalize: VcfRecord -> seq<Variant>,
                               n: nat, db: Store)
    requires CustomIndexesBuilt(p, indexes, locations, disk, customInputs, normalize, n)
    requires n < |p.customFiles| && n < |p.customFileFields| && n < |customInputs|
    requires Indexable(disk, p.customFiles[n], customInputs[n])
    requires CustomIndexBuilt(db, db.location, p.customFiles[n], disk, customInputs[n], normalize, p.customFileFields[n])
    ensures CustomIndexesBuilt(p, indexes + [db], locations + [db.location], disk, customInputs, normalize, n + 1)
  {
    var all, allLocations := indexes + [db], locations + [db.location];
    forall k | 0 <= k < n + 1
      ensures CustomIndexBuilt(all[k], allLocations[k], p.customFiles[k], disk, customInputs[k],
                               normalize, p.customFileFields[k])
    {
      if k < n {
        assert all[k] == indexes[k] && allLocations[k] == locations[k];
      }
    }
  }

  /** The population index: at the file's `.idx` location, open read-write, rebuilt over what the directory held. */
  predicate PopulationIndexBuilt(index: Store, location: string, file: string, disk: Disk, input: seq<ReadItem<Variant>>)
    reads index
  {
    && location == file + IndexSuffix
    && index.location == location && index.isOpen && !index.readOnly
    && index.entries == PopulationIndexContents(disk, location, input)
  }

  /**
   * The state getIndexes leaves: custom index `k` at `customFiles[k].idx`,
   * read-only exactly when the directory already existed and then holding
   * what it held; the population index last, always read-write, rebuilt over
   * whatever its directory held.
   */
  predicate IndexesBuilt(p: Parameters, indexes: seq<Store>, locations: seq<string>, disk: Disk,
                         customInputs: seq<seq<ReadItem<VcfRecord>>>, populationInput: seq<ReadItem<Variant>>,
                         normalize: VcfRecord -> seq<Variant>)
    reads indexes
  {
    && |customInputs| == |p.customFiles| == |p.customFileFields|
    && |indexes| == |locations| == |p.customFiles| + (if p.populationFrequenciesFile.Some? then 1 else 0)
    && (forall k :: 0 <= k < |p.customFiles| ==>
          CustomIndexBuilt(indexes[k], locations[k], p.customFiles[k], disk, customInputs[k],
                           normalize, p.customFileFields[k]))
    && (p.populationFrequenciesFile.Some? ==>
          PopulationIndexBuilt(indexes[|indexes| - 1], locations[|locations| - 1],
                               p.populationFrequenciesFile.value, disk, populationInput))
    && locations == IndexLocations(p)
  }

  /** The custom indexes followed by the population index are what getIndexes promises. */
  lemma WithPopulationIndex(p: Parameters, indexes: seq<Store>, locations: seq<string>, db: Store, disk: Disk,
                            customInputs: seq<seq<ReadItem<VcfRecord>>>, populationInput: seq<ReadItem<Variant>>,
                            normalize: VcfRecord -> seq<Variant>)
    requires ValidParameters(p) && |customInputs| == |p.customFiles|
    requires CustomIndexesBuilt(p, indexes, locations, disk, customInputs, normalize, |p.customFiles|)
    requires p.populationFrequenciesFile.Some?
    requires PopulationIndexBuilt(db, db.location, p.populationFrequenciesFile.value, disk, populationInput)
    ensures IndexesBuilt(p, indexes + [db], locations + [db.location], disk, customInputs, populationInput, normalize)
  {
    var all, allLocations := indexes + [db], locations + [db.location];
    forall k | 0 <= k < |p.customFiles|
      ensures CustomIndexBuilt(all[k], allLocations[k], p.customFiles[k], disk, customInputs[k],
                               normalize, p.customFileFields[k])
    {
      assert all[k] == indexes[k] && allLocations[k] == locations[k];
    }
    IndexLocationsOf(p, allLocations);
  }

  /** Without a population-frequency file, the custom indexes alone are what getIndexes promises. */
  lemma WithoutPopulationIndex(p: Parameters, indexes: seq<Store>, locations: seq<string>, disk: Disk,
                               customInputs: seq<seq<ReadItem<VcfRecord>>>, populationInput: seq<ReadItem<Variant>>,
                               normalize: VcfRecord -> seq<Variant>)
    requires ValidParameters(p) && |customInputs| == |p.customFiles|
    requires CustomIndexesBuilt(p, indexes, locations, disk, customInputs, normalize, |p.customFiles|)
    requires p.populationFrequenciesFile.None?
    ensures IndexesBuilt(p, indexes, locations, disk, customInputs, populationInput, normalize)
  {
    IndexLocationsOf(p, locations);
  }


  class VariantAnnotationCommandExecutor {
    const options: CommandOptions
    var params: Parameters
    var dbIndexes: seq<Store>
    var dbLocations: seq<string>

    /** The input and output paths are taken from the options as soon as the executor is built. */
    constructor(options: CommandOptions)
      ensures this.options == options
      ensures params == Unchecked.(input := options.input, output := if options.output.Some? then options.output.value else "")
      ensures dbIndexes == [] && dbLocations == []
    {
      this.options := options;
      params := Unchecked.(input := options.input, output := if options.output.Some? then options.output.value else "");
      dbIndexes := [];
      dbLocations := [];
    }

    /**
     * checkParameters: the options are checked in the source's order and the
     * first failing check is reported; on success the fields hold the
     * normalised parameters, on failure they are left as they were.
     */
    method CheckParameters() returns (error: Option<ParamError>)
      modifies this
      ensures var expected := CheckedParameters(options);
              && (error.None? <==> expected.Success?)
              && (expected.Success? ==> params == expected.value)
              && (expected.Failure? ==> error == Some(expected.error) && params == old(params))
      ensures dbIndexes == old(dbIndexes) && dbLocations == old(dbLocations)
    {
      var basics := BasicOptions(options);
      if basics.Failure? {
        return Some(basics.error);
      }
      var custom := CheckCustomFiles();
      if custom.Failure? {
        return Some(custom.error);
      }
      var population := PopulationOptions(options);
      if population.Failure? {
        return Some(population.error);
      }
      var svPadding := PaddingOption(options, SvExtraPaddingParam);
      if svPadding.Failure? {
        return Some(svPadding.error);
      }
      var cnvPadding := PaddingOption(options, CnvExtraPaddingParam);
      if cnvPadding.Failure? {
        return Some(cnvPadding.error);
      }
      params := Assemble(options, basics.value, custom.value, population.value.0, population.value.1,
                         svPadding.value, cnvPadding.value);
      return None;
    }

    /**
     * The custom-file part of checkParameters: every `,`-separated file must be
     * a VCF file, and the ids and the `:`-separated field groups must be given,
     * one per file; each group is split on `,`.
     */
    method CheckCustomFiles() returns (r: Result<CustomFileSettings, ParamError>)
      ensures r == CustomFileOptions(options)
    {
      var o := options;
      if o.customFiles.None? {
        return Success(CustomFileSettings([], [], [], -1));
      }
      var customFiles := VcfFileList(Split(o.customFiles.value, ','));
      if customFiles.None? {
        return Failure(CustomFileNotVcf);
      }
      if o.customFileIds.None? {
        return Failure(MissingCustomFileIds);
      }
      var customFileIds := Split(o.customFileIds.value, ',');
      if |customFileIds| != |customFiles.value| {
        return Failure(CustomFileIdCountMismatch);
      }
      if o.customFileFields.None? {
        return Failure(MissingCustomFileFields);
      }
      var customFileFieldStrings := Split(o.customFileFields.value, ':');
      if |customFileFieldStrings| != |customFiles.value| {
        return Failure(CustomFileFieldCountMismatch);
      }
      var customFileFields := FieldListsOf(customFileFieldStrings);
      return Success(CustomFileSettings(customFiles.value, customFileIds, customFileFields, o.maxOpenFiles));
    }

    /** The custom-file list, built file by file; the first file that is not a VCF file rejects it. */
    method VcfFileList(customFileStrings: seq<string>) returns (r: Option<seq<string>>)
      ensures r.Some? <==> AllVcf(customFileStrings)
      ensures r.Some? ==> r.value == customFileStrings
    {
      var customFiles: seq<string> := [];
      var i := 0;
      while i < |customFileStrings|
        invariant 0 <= i <= |customFileStrings|
        invariant customFiles == customFileStrings[..i]
        invariant AllVcf(customFiles)
      {
        if !IsVcfName(customFileStrings[i]) {
          return None;
        }
        customFiles := customFiles + [customFileStrings[i]];
        i := i + 1;
      }
      assert customFiles == customFileStrings;
      return Some(customFiles);
    }

    /** One field whitelist per `:`-group, each group split on `,`. */
    method FieldListsOf(customFileFieldStrings: seq<string>) returns (customFileFields: seq<seq<string>>)
      ensures customFileFields == FieldLists(customFileFieldStrings)
    {
      customFileFields := [];
      var j := 0;
      while j < |customFileFieldStrings|
        invariant 0 <= j <= |customFileFieldStrings|
        invariant customFileFields == FieldLists(customFileFieldStrings[..j])
      {
        FieldListsSnoc(customFileFieldStrings[..j], customFileFieldStrings[j]);
        assert customFileFieldStrings[..j + 1] == customFileFieldStrings[..j] + [customFileFieldStrings[j]];
        customFileFields := customFileFields + [Split(customFileFieldStrings[j], ',')];
        j := j + 1;
      }
      assert customFileFieldStrings[..j] == customFileFieldStrings;
    }

    /**
     * parseInfoAttributes(variant, i): exactly the INFO entries whose key is
     * one of the fields of custom file `i`, with their values unchanged.
     */
    method ParseInfoAttributes(variant: Variant, customFileNumber: nat) returns (parsedInfo: map<string, string>)
      requires customFileNumber < |params.customFileFields|
      ensures forall key :: key in parsedInfo <==>
                key in variant.infoAttributes && key in params.customFileFields[customFileNumber]
      ensures forall key :: key in parsedInfo ==> parsedInfo[key] == variant.infoAttributes[key]
      ensures parsedInfo == Whitelist(variant.infoAttributes, params.customFileFields[customFileNumber])
    {
      var infoMap := variant.infoAttributes;
      var fields := params.customFileFields[customFileNumber];
      parsedInfo := map[];
      var remaining := infoMap.Keys;
      while remaining != {}
        invariant remaining <= infoMap.Keys
        invariant forall key :: key in parsedInfo <==> key in infoMap && key !in remaining && key in fields
        invariant forall key :: key in parsedInfo ==> parsedInfo[key] == infoMap[key]
        decreases remaining
      {
        var attribute :| attribute in remaining;
        if attribute in fields {
          parsedInfo := parsedInfo[attribute := infoMap[attribute]];
        }
        remaining := remaining - {attribute};
      }
    }

    /**
     * The deprecated parseInfoAttributes(info, numAlleles, i): one map per
     * allele filled item by item; a negative allele count is rejected.
     */
    method ParseInfoAttributesFromString(info: string, numAlleles: int, customFileNumber: nat)
      returns (r: Option<seq<map<string, string>>>)
      requires customFileNumber < |params.customFileFields|
      ensures r == ParsePerAllele(info, numAlleles, params.customFileFields[customFileNumber])
    {
      if numAlleles < 0 {
        return None;
      }
      var fields := params.customFileFields[customFileNumber];
      var infoAttributes := EmptyAlleleMaps(numAlleles);
      var items := Split(info, ';');
      assert infoAttributes == PerAlleleMaps(items[..0], numAlleles, fields);
      var n := 0;
      while n < |items|
        invariant 0 <= n <= |items|
        invariant infoAttributes == PerAlleleMaps(items[..n], numAlleles, fields)
      {
        var item := items[n];
        infoAttributes := ReadInfoItem(infoAttributes, item, fields);
        PerAlleleMapsSnoc(items[..n], item, numAlleles, fields);
        assert items[..n + 1] == items[..n] + [item];
        n := n + 1;
      }
      assert items[..|items|] == items;
      return Some(infoAttributes);
    }

    /** The deprecated parser's starting point: one empty map per allele. */
    method EmptyAlleleMaps(numAlleles: nat) returns (infoAttributes: seq<map<string, string>>)
      ensures |infoAttributes| == numAlleles
      ensures forall k :: 0 <= k < numAlleles ==> infoAttributes[k] == map[]
    {
      infoAttributes := [];
      var a := 0;
      while a < numAlleles
        invariant 0 <= a <= numAlleles
        invariant |infoAttributes| == a && forall k :: 0 <= k < a ==> infoAttributes[k] == map[]
      {
        infoAttributes := infoAttributes + [map[]];
        a := a + 1;
      }
    }

    /** One `;`-separated item of the deprecated parser: a whitelisted `k=v` is spread over the allele maps. */
    method ReadInfoItem(maps: seq<map<string, string>>, item: string, fields: seq<string>)
      returns (infoAttributes: seq<map<string, string>>)
      ensures infoAttributes == AfterItem(maps, item, fields)
    {
      infoAttributes := maps;
      var numAlleles := |maps|;
      var splits := Split(item, '=');
      if |splits| == 2 && splits[0] in fields {
        var values := Split(splits[1], ',');
        var j := 0;
        if |values| == numAlleles {
          while j < numAlleles
            invariant 0 <= j <= numAlleles && |infoAttributes| == numAlleles
            invariant forall k :: 0 <= k < j ==> infoAttributes[k] == maps[k][splits[0] := values[k]]
            invariant forall k :: j <= k < numAlleles ==> infoAttributes[k] == maps[k]
          {
            infoAttributes := infoAttributes[j := infoAttributes[j][splits[0] := values[j]]];
            j := j + 1;
          }
        } else {
          while j < numAlleles
            invariant 0 <= j <= numAlleles && |infoAttributes| == numAlleles
            invariant forall k :: 0 <= k < j ==> infoAttributes[k] == maps[k][splits[0] := splits[1]]
            invariant forall k :: j <= k < numAlleles ==> infoAttributes[k] == maps[k]
          {
            infoAttributes := infoAttributes[j := infoAttributes[j][splits[0] := splits[1]]];
            j := j + 1;
          }
        }
        assert forall k :: 0 <= k < numAlleles ==>
          infoAttributes[k] == maps[k][splits[0] := AlleleValue(splits[1], numAlleles, k)];
      }
    }

    /**
     * getDBConnection: indexing is needed when a rebuild is forced or nothing
     * exists at the location; the store opens read-write exactly then, and
     * read-only over the existing contents otherwise.
     */
    method GetDBConnection(dbLocation: string, forceCreate: bool, disk: Disk) returns (db: Store, indexingNeeded: bool)
      ensures fresh(db)
      ensures indexingNeeded == IndexingNeeded(forceCreate, dbLocation in disk)
      ensures db.location == dbLocation && db.readOnly == !indexingNeeded && db.isOpen
      ensures db.entries == if dbLocation in disk then disk[dbLocation] else map[]
      ensures db.maxOpenFiles == if params.maxOpenFiles > 0 then Some(params.maxOpenFiles) else None
    {
      indexingNeeded := forceCreate || dbLocation !in disk;
      var maxOpen: Option<int> := None;
      if params.maxOpenFiles > 0 {
        maxOpen := Some(params.maxOpenFiles);
      }
      var onDisk: Entries := if dbLocation in disk then disk[dbLocation] else map[];
      if indexingNeeded {
        db := new Store.Open(dbLocation, false, maxOpen, onDisk);
      } else {
        db := new Store.Open(dbLocation, true, maxOpen, onDisk);
      }
    }

    /**
     * indexCustomVcfFile: every readable record with an alternate allele puts
     * its normalised variants under their keys, with the whitelisted INFO
     * attributes; the first unreadable record ends the run with a failure.
     */
    method IndexCustomVcfFile(customFileNumber: nat, db: Store, records: seq<ReadItem<VcfRecord>>,
                              normalize: VcfRecord -> seq<Variant>) returns (ok: bool)
      requires customFileNumber < |params.customFileFields|
      requires db.isOpen && !db.readOnly
      modifies db
      ensures db.isOpen
      ensures ok == AllReadable(records)
      ensures db.entries == PutAll(old(db.entries),
                                   CustomPuts(ReadablePrefix(records), normalize, params.customFileFields[customFileNumber]))
    {
      var fields := params.customFileFields[customFileNumber];
      ghost var start := db.entries;
      ghost var indexed: seq<VcfRecord> := [];
      var i := 0;
      while i < |records|
        invariant 0 <= i <= |records|
        invariant |indexed| == i && ReadSoFar(records, indexed)
        invariant db.isOpen
        invariant db.entries == PutAll(start, CustomPuts(indexed, normalize, fields))
      {
        if records[i].Unreadable? {
          ReadablePrefixOf(records, indexed);
          return false;
        }
        var variantContext := records[i].item;
        ghost var puts := RecordPuts(variantContext, normalize, fields);
        PutRecord(customFileNumber, db, variantContext, normalize);
        PutAllAppend(start, CustomPuts(indexed, normalize, fields), puts);
        CustomPutsSnoc(indexed, variantContext, normalize, fields);
        ReadSoFarSnoc(records, indexed, variantContext);
        indexed := indexed + [variantContext];
        i := i + 1;
      }
      ReadablePrefixOf(records, indexed);
      return true;
    }

    /** The puts of one custom-file record: nothing without an alternate allele, else one per normalised variant. */
    method PutRecord(customFileNumber: nat, db: Store, variantContext: VcfRecord, normalize: VcfRecord -> seq<Variant>)
      requires customFileNumber < |params.customFileFields|
      requires db.isOpen && !db.readOnly
      modifies db
      ensures db.isOpen
      ensures db.entries == PutAll(old(db.entries),
                                   RecordPuts(variantContext, normalize, params.customFileFields[customFileNumber]))
    {
      ghost var puts := RecordPuts(variantContext, normalize, params.customFileFields[customFileNumber]);
      ghost var start := db.entries;
      if |variantContext.alternateAlleles| > 0 {
        var variantList := normalize(variantContext);
        var m := 0;
        while m < |variantList|
          invariant 0 <= m <= |variantList|
          invariant db.isOpen
          invariant db.entries == PutAll(start, puts[..m])
        {
          var variant := variantList[m];
          var parsed := ParseInfoAttributes(variant, customFileNumber);
          var key := variant.chromosome + "_" + IntToString(variant.start) + "_" + variant.reference + "_"
                     + variant.alternate;
          assert puts[m] == (key, InfoFields(parsed));
          db.Put(key, InfoFields(parsed));
          PutAllPrefixSnoc(start, puts, m);
          m := m + 1;
        }
        assert puts[..|variantList|] == puts;
      }
    }

    /**
     * indexPopulationFrequencies: every readable record is put whole under its
     * key; an unreadable record ends the indexing silently, keeping what was put.
     */
    method IndexPopulationFrequencies(db: Store, items: seq<ReadItem<Variant>>)
      requires db.isOpen && !db.readOnly
      modifies db
      ensures db.isOpen
      ensures db.entries == PutAll(old(db.entries), PopulationPuts(ReadablePrefix(items)))
    {
      ghost var start := db.entries;
      ghost var indexed: seq<Variant> := [];
      var i := 0;
      while i < |items|
        invariant 0 <= i <= |items|
        invariant |indexed| == i && ReadSoFar(items, indexed)
        invariant db.isOpen
        invariant db.entries == PutAll(start, PopulationPuts(indexed))
      {
        if items[i].Unreadable? {
          break;
        }
        var variant := items[i].item;
        db.Put(VariantKey(IdOf(variant)), FullRecord(variant));
        PopulationPutsSnoc(indexed, variant);
        PutAllSnoc(start, PopulationPuts(indexed), (VariantKey(IdOf(variant)), FullRecord(variant)));
        ReadSoFarSnoc(items, indexed, variant);
        indexed := indexed + [variant];
        i := i + 1;
      }
      ReadablePrefixOf(items, indexed);
    }

    /**
     * The index of custom file `customFileNumber`: reused read-only when its
     * directory exists, otherwise opened read-write and filled from the file.
     */
    method GetCustomIndex(customFileNumber: nat, disk: Disk, input: seq<ReadItem<VcfRecord>>,
                          normalize: VcfRecord -> seq<Variant>) returns (db: Store, ok: bool)
      requires customFileNumber < |params.customFiles| <= |params.customFileFields|
      ensures fresh(db)
      ensures var location := params.customFiles[customFileNumber] + IndexSuffix;
              && db.location == location
              && (ok <==> Indexable(disk, params.customFiles[customFileNumber], input))
              && (ok ==> CustomIndexBuilt(db, location, params.customFiles[customFileNumber], disk, input, normalize,
                                          params.customFileFields[customFileNumber]))
    {
      var indexingNeeded;
      db, indexingNeeded := GetDBConnection(params.customFiles[customFileNumber] + IndexSuffix, false, disk);
      ok := true;
      if indexingNeeded {
        ok := IndexCustomVcfFile(customFileNumber, db, input, normalize);
      }
    }

    /** The population index: always opened read-write and rebuilt over what its directory held. */
    method GetPopulationIndex(file: string, disk: Disk, input: seq<ReadItem<Variant>>) returns (db: Store)
      ensures fresh(db)
      ensures PopulationIndexBuilt(db, db.location, file, disk, input)
    {
      var indexingNeeded;
      db, indexingNeeded := GetDBConnection(file + IndexSuffix, true, disk);
      IndexPopulationFrequencies(db, input);
    }


    /**
     * The custom-file half of getIndexes: one index per custom file, in
     * declared order. The source skips files without the `.vcf` suffix; the
     * checked parameters contain none, so every file gets its index.
     */
    method GetCustomIndexes(disk: Disk, customInputs: seq<seq<ReadItem<VcfRecord>>>, normalize: VcfRecord -> seq<Variant>)
      returns (indexes: seq<Store>, locations: seq<string>, ok: bool)
      requires ValidParameters(params)
      requires |customInputs| == |params.customFiles|
      ensures ok <==> forall k :: 0 <= k < |params.customFiles| ==> Indexable(disk, params.customFiles[k], customInputs[k])
      ensures ok ==> CustomIndexesBuilt(params, indexes, locations, disk, customInputs, normalize, |params.customFiles|)
    {
      indexes := [];
      locations := [];
      var i := 0;
      while i < |params.customFiles|
        invariant 0 <= i <= |params.customFiles|
        invariant CustomIndexesBuilt(params, indexes, locations, disk, customInputs, normalize, i)
      {
        var db, indexed := GetCustomIndex(i, disk, customInputs[i], normalize);
        if !indexed {
          return indexes, locations, false;
        }
        CustomIndexesBuiltSnoc(params, indexes, locations, disk, customInputs, normalize, i, db);
        indexes := indexes + [db];
        locations := locations + [db.location];
        i := i + 1;
      }
      ok := true;
    }

    /**
     * getIndexes: one index per custom file in declared order (reused when its
     * directory exists), then the population index, always rebuilt. It fails
     * exactly when a custom file that has to be indexed cannot be read through.
     */
    method GetIndexes(disk: Disk, customInputs: seq<seq<ReadItem<VcfRecord>>>,
                      populationInput: seq<ReadItem<Variant>>, normalize: VcfRecord -> seq<Variant>)
      returns (ok: bool)
      requires ValidParameters(params)
      requires |customInputs| == |params.customFiles|
      modifies this
      ensures params == old(params)
      ensures ok <==> forall k :: 0 <= k < |params.customFiles| ==> Indexable(disk, params.customFiles[k], customInputs[k])
      ensures ok ==> IndexesBuilt(params, dbIndexes, dbLocations, disk, customInputs, populationInput, normalize)
    {
      var p := params;
      var indexes, locations;
      indexes, locations, ok := GetCustomIndexes(disk, customInputs, normalize);
      if ok && p.populationFrequenciesFile.Some? {
        var db := GetPopulationIndex(p.populationFrequenciesFile.value, disk, populationInput);
        dbIndexes, dbLocations := indexes + [db], locations + [db.location];
        WithPopulationIndex(p, indexes, locations, db, disk, customInputs, populationInput, normalize);
      } else {
        dbIndexes, dbLocations := indexes, locations;
        if ok {
          WithoutPopulationIndex(p, indexes, locations, disk, customInputs, populationInput, normalize);
        }
      }
    }

    /**
     * createAnnotators: the CellBase annotator, then an annotator per VCF
     * custom file bound to the index at that file's position, then the
     * population annotator bound to the last index.
     */
    method CreateAnnotators() returns (annotators: seq<Annotator>)
      requires |params.customFiles| <= |dbIndexes|
      requires |params.customFiles| <= |params.customFileIds| && |params.customFiles| <= |params.customFileFields|
      requires params.populationFrequenciesFile.Some? ==> |dbIndexes| > 0
      ensures annotators == AnnotatorChain(params, dbIndexes)
    {
      annotators := [CoreAnnotator(params)];
      var i := 0;
      while i < |params.customFiles|
        invariant 0 <= i <= |params.customFiles|
        invariant annotators == [CoreAnnotator(params)] + CustomAnnotators(params, dbIndexes, i)
      {
        if IsVcfName(params.customFiles[i]) {
          annotators := annotators
                        + [CustomFile(params.customFiles[i], dbIndexes[i], params.customFileIds[i], params.customFileFields[i])];
        }
        i := i + 1;
      }
      if params.populationFrequenciesFile.Some? {
        annotators := annotators + [PopulationFrequencies(params.populationFrequenciesFile.value, dbIndexes[|dbIndexes| - 1])];
      }
    }

    /**
     * writeRemainingPopFrequencies: only with a population file and the
     * completion flag set, one pass over the population index in iteration
     * order that writes the records never matched and counts every entry.
     */
    method WriteRemainingPopFrequencies(scan: seq<string>) returns (written: seq<Variant>, counter: nat, ok: bool)
      requires params.populationFrequenciesFile.Some? && params.completeInputPopulation ==>
                 |dbIndexes| > 0 && dbIndexes[|dbIndexes| - 1].isOpen
                 && Enumerates(scan, dbIndexes[|dbIndexes| - 1].entries)
      ensures !(params.populationFrequenciesFile.Some? && params.completeInputPopulation) ==>
                written == [] && counter == 0 && ok
      ensures params.populationFrequenciesFile.Some? && params.completeInputPopulation ==>
                Reconciled(written, counter, ok) == Reconcile(dbIndexes[|dbIndexes| - 1].entries, scan)
    {
      written := [];
      counter := 0;
      ok := true;
      if params.populationFrequenciesFile.Some? {
        if params.completeInputPopulation {
          var entries := dbIndexes[|dbIndexes| - 1].entries;
          var i := 0;
          while i < |scan|
            invariant 0 <= i <= |scan|
            invariant KeysIn(entries, scan[..i])
            invariant Reconcile(entries, scan[..i]) == Reconciled(written, counter, true)
          {
            var value := entries[scan[i]];
            ReconcilePrefixSnoc(entries, scan, i);
            if !(value.FullRecord? && value.record.annotation.Some?) {
              ok := false;
              StoppedWithinPrefix(entries, scan, i + 1);
              return;
            }
            var variant := value.record;
            if variant.annotation.value.additionalAttributes.None? {
              written := written + [variant];
            }
            counter := counter + 1;
            i := i + 1;
          }
          assert scan[..|scan|] == scan;
        }
      }
    }

    /**
     * closeIndexes: every index is closed, and only the last location, the
     * population index, is deleted, and only when a population file is set.
     */
    method CloseIndexes() returns (deleted: Option<string>)
      requires params.populationFrequenciesFile.Some? ==> |dbLocations| > 0
      modifies set k | 0 <= k < |dbIndexes| :: dbIndexes[k]
      ensures forall k :: 0 <= k < |dbIndexes| ==> !dbIndexes[k].isOpen && dbIndexes[k].entries == old(dbIndexes[k].entries)
      ensures deleted == if params.populationFrequenciesFile.Some? then Some(dbLocations[|dbLocations| - 1]) else None
    {
      var i := 0;
      while i < |dbIndexes|
        invariant 0 <= i <= |dbIndexes|
        invariant forall k :: 0 <= k < i ==> !dbIndexes[k].isOpen
        invariant forall k :: 0 <= k < |dbIndexes| ==> dbIndexes[k].entries == old(dbIndexes[k].entries)
      {
        dbIndexes[i].Close();
        i := i + 1;
      }
      deleted := None;
      if params.populationFrequenciesFile.Some? {
        deleted := Some(dbLocations[|dbLocations| - 1]);
      }
    }
  }
}
