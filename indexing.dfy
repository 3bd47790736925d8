/**
 * What the indexes hold and where they live. A custom VCF file is indexed at
 * `<file>.idx`, one put per normalised variant of every record that has an
 * alternate allele, the value being the whitelisted INFO attributes; the
 * population-frequency file is indexed at `<file>.idx`, one put per record,
 * the value being the whole record. The index list holds the custom indexes in
 * declared order and the population index last.
 */
module Indexing {
  import opened Sequences
  import opened Wrappers
  import opened Variants
  import opened KeyValueStore
  import opened Parameters
  import opened InfoAttributes

  const IndexSuffix := ".idx"

  /** The rebuild decision: a rebuild is forced, or nothing exists at the location yet. */
  predicate IndexingNeeded(forceCreate: bool, exists_: bool)
  {
    forceCreate || !exists_
  }

  /** The positions of the custom files that are VCF files, in declared order. */
  function VcfPositions(files: seq<string>): (r: seq<nat>)
    ensures |r| <= |files|
    ensures forall k :: 0 <= k < |r| ==> r[k] < |files| && IsVcfName(files[r[k]])
    ensures forall k, l :: 0 <= k < l < |r| ==> r[k] < r[l]
    ensures forall i :: 0 <= i < |files| && IsVcfName(files[i]) ==> i in r
  {
    if files == [] then []
    else
      var init := VcfPositions(files[..|files| - 1]);
      assert forall i :: 0 <= i < |files| - 1 ==> files[..|files| - 1][i] == files[i];
      if IsVcfName(files[|files| - 1]) then init + [|files| - 1] else init
  }

  /** When every custom file is a VCF file, every one of them gets an index, in order. */
  lemma {:induction false} AllVcfPositions(files: seq<string>)
    requires AllVcf(files)
    ensures |VcfPositions(files)| == |files|
    ensures forall k :: 0 <= k < |files| ==> VcfPositions(files)[k] == k
  {
    if files != [] {
      AllVcfPositions(files[..|files| - 1]);
    }
  }

  /** dbLocations: one `.idx` location per VCF custom file, then the population index. */
  function IndexLocations(p: Parameters): (r: seq<string>)
    ensures |r| == |VcfPositions(p.customFiles)| + (if p.populationFrequenciesFile.Some? then 1 else 0)
    ensures forall k :: 0 <= k < |VcfPositions(p.customFiles)| ==>
              r[k] == p.customFiles[VcfPositions(p.customFiles)[k]] + IndexSuffix
    ensures p.populationFrequenciesFile.Some? ==> r[|r| - 1] == p.populationFrequenciesFile.value + IndexSuffix
  {
    var positions := VcfPositions(p.customFiles);
    var custom := seq(|positions|, k requires 0 <= k < |positions| => p.customFiles[positions[k]] + IndexSuffix);
    match p.populationFrequenciesFile
    case Some(file) => custom + [file + IndexSuffix]
    case None => custom
  }

  /** When every custom file is a VCF file, the locations are the custom files' own, then the population index's. */
  lemma IndexLocationsOf(p: Parameters, locations: seq<string>)
    requires AllVcf(p.customFiles)
    requires |locations| == |p.customFiles| + (if p.populationFrequenciesFile.Some? then 1 else 0)
    requires forall k :: 0 <= k < |p.customFiles| ==> locations[k] == p.customFiles[k] + IndexSuffix
    requires p.populationFrequenciesFile.Some? ==>
               locations[|locations| - 1] == p.populationFrequenciesFile.value + IndexSuffix
    ensures locations == IndexLocations(p)
  {
    AllVcfPositions(p.customFiles);
  }

  // ---------------------------------------------------------------------------
  // Index contents

  /** The put one normalised custom-file variant makes. */
  function CustomPut(v: Variant, fields: seq<string>): (string, IndexValue)
  {
    (VariantKey(IdOf(v)), InfoFields(Whitelist(v.infoAttributes, fields)))
  }

  /** The puts one VCF record makes: none without an alternate allele, else one per normalised variant. */
  function RecordPuts(record: VcfRecord, normalize: VcfRecord -> seq<Variant>, fields: seq<string>): seq<(string, IndexValue)>
  {
    if |record.alternateAlleles| == 0 then []
    else
      var variants := normalize(record);
      seq(|variants|, k requires 0 <= k < |variants| => CustomPut(variants[k], fields))
  }

  /** The puts indexing a custom file makes, in file order. */
  function CustomPuts(records: seq<VcfRecord>, normalize: VcfRecord -> seq<Variant>, fields: seq<string>): seq<(string, IndexValue)>
  {
    if records == [] then []
    else CustomPuts(records[..|records| - 1], normalize, fields) + RecordPuts(records[|records| - 1], normalize, fields)
  }

  /**
   * What a custom index holds once built: an existing directory is reused as
   * it is, a new one receives the puts of the records read before the first
   * unreadable one.
   */
  function CustomIndexContents(disk: Disk, location: string, input: seq<ReadItem<VcfRecord>>,
                               normalize: VcfRecord -> seq<Variant>, fields: seq<string>): Entries
  {
    if location in disk then disk[location]
    else PutAll(map[], CustomPuts(ReadablePrefix(input), normalize, fields))
  }

  /** A custom file can be indexed: its index already exists, or every record of it can be read. */
  predicate Indexable(disk: Disk, file: string, input: seq<ReadItem<VcfRecord>>)
  {
    file + IndexSuffix in disk || AllReadable(input)
  }

  /** The puts indexing the population-frequency file makes: one per record, keyed by its identity. */
  function PopulationPuts(variants: seq<Variant>): (r: seq<(string, IndexValue)>)
    ensures |r| == |variants|
    ensures forall k :: 0 <= k < |variants| ==> r[k] == (VariantKey(IdOf(variants[k])), FullRecord(variants[k]))
  {
    seq(|variants|, k requires 0 <= k < |variants| => (VariantKey(IdOf(variants[k])), FullRecord(variants[k])))
  }

  /**
   * What the population index holds once built: the puts of the records read
   * before the first unreadable one, over whatever the directory held before.
   */
  function PopulationIndexContents(disk: Disk, location: string, input: seq<ReadItem<Variant>>): Entries
  {
    PutAll(if location in disk then disk[location] else map[], PopulationPuts(ReadablePrefix(input)))
  }

  lemma PopulationPutsSnoc(variants: seq<Variant>, v: Variant)
    ensures PopulationPuts(variants + [v]) == PopulationPuts(variants) + [(VariantKey(IdOf(v)), FullRecord(v))]
  {
    var whole := variants + [v];
    assert forall k :: 0 <= k < |variants| ==> whole[k] == variants[k];
  }

  lemma CustomPutsSnoc(records: seq<VcfRecord>, record: VcfRecord, normalize: VcfRecord -> seq<Variant>, fields: seq<string>)
    ensures CustomPuts(records + [record], normalize, fields)
            == CustomPuts(records, normalize, fields) + RecordPuts(record, normalize, fields)
  {
    assert (records + [record])[..|records|] == records;
  }

  /** A record without alternate alleles can be dropped from anywhere in the file: it writes nothing. */
  lemma {:induction false} ReferenceRecordWritesNothing(before: seq<VcfRecord>, record: VcfRecord, after: seq<VcfRecord>,
                                                         normalize: VcfRecord -> seq<Variant>, fields: seq<string>)
    requires |record.alternateAlleles| == 0
    ensures CustomPuts(before + [record] + after, normalize, fields) == CustomPuts(before + after, normalize, fields)
    decreases |after|
  {
    if after == [] {
      CustomPutsSnoc(before, record, normalize, fields);
      var prefix := CustomPuts(before, normalize, fields);
      assert RecordPuts(record, normalize, fields) == [];
      assert prefix + [] == prefix;
      assert before + [record] + after == before + [record];
      assert before + after == before;
    } else {
      var init := after[..|after| - 1];
      var last := after[|after| - 1];
      var withRecord := before + [record] + init;
      var without := before + init;
      ReferenceRecordWritesNothing(before, record, init, normalize, fields);
      InitLast(after);
      AppendSnoc(before + [record], init, last);
      AppendSnoc(before, init, last);
      CustomPutsSnoc(withRecord, last, normalize, fields);
      CustomPutsSnoc(without, last, normalize, fields);
    }
  }

  /** Whether `v` is one of the normalised variants of a record of `records` that has an alternate allele. */
  predicate IndexedVariant(records: seq<VcfRecord>, normalize: VcfRecord -> seq<Variant>, v: Variant)
  {
    exists i :: 0 <= i < |records| && |records[i].alternateAlleles| > 0 && v in normalize(records[i])
  }

  /** The puts of one record are those of its normalised variants, when it has an alternate allele. */
  lemma RecordPutsExactly(record: VcfRecord, normalize: VcfRecord -> seq<Variant>, fields: seq<string>,
                          put: (string, IndexValue))
    ensures put in RecordPuts(record, normalize, fields)
            <==> |record.alternateAlleles| > 0 && exists v :: v in normalize(record) && put == CustomPut(v, fields)
  {
    if |record.alternateAlleles| > 0 {
      var variants := normalize(record);
      var puts := RecordPuts(record, normalize, fields);
      if put in puts {
        var k :| 0 <= k < |puts| && puts[k] == put;
        assert variants[k] in variants;
      }
      if exists v :: v in variants && put == CustomPut(v, fields) {
        var v :| v in variants && put == CustomPut(v, fields);
        var k :| 0 <= k < |variants| && variants[k] == v;
        assert puts[k] == put;
      }
    }
  }

  lemma IndexedVariantSnoc(records: seq<VcfRecord>, record: VcfRecord, normalize: VcfRecord -> seq<Variant>, v: Variant)
    ensures IndexedVariant(records + [record], normalize, v)
            <==> IndexedVariant(records, normalize, v) || (|record.alternateAlleles| > 0 && v in normalize(record))
  {
    var whole := records + [record];
    if IndexedVariant(records, normalize, v) {
      var i :| 0 <= i < |records| && |records[i].alternateAlleles| > 0 && v in normalize(records[i]);
      assert whole[i] == records[i];
    }
    if |record.alternateAlleles| > 0 && v in normalize(record) {
      assert whole[|records|] == record;
    }
    if IndexedVariant(whole, normalize, v) {
      var i :| 0 <= i < |whole| && |whole[i].alternateAlleles| > 0 && v in normalize(whole[i]);
      if i < |records| {
        assert whole[i] == records[i];
      }
    }
  }

  /**
   * The puts of a custom file are exactly the puts of the normalised variants
   * of its records with an alternate allele: key `chrom_start_ref_alt`, value
   * the whitelisted INFO attributes.
   */
  lemma {:induction false} CustomPutsExactly(records: seq<VcfRecord>, normalize: VcfRecord -> seq<Variant>,
                                              fields: seq<string>, put: (string, IndexValue))
    ensures put in CustomPuts(records, normalize, fields)
            <==> exists v :: IndexedVariant(records, normalize, v) && put == CustomPut(v, fields)
  {
    if records != [] {
      var init := records[..|records| - 1];
      var last := records[|records| - 1];
      InitLast(records);
      CustomPutsExactly(init, normalize, fields, put);
      RecordPutsExactly(last, normalize, fields, put);
      forall v ensures IndexedVariant(records, normalize, v)
                       <==> IndexedVariant(init, normalize, v) || (|last.alternateAlleles| > 0 && v in normalize(last))
      {
        IndexedVariantSnoc(init, last, normalize, v);
      }
    }
  }

  /** Every value of an index built from nothing holds only whitelisted attributes. */
  lemma {:induction false} CustomIndexWhitelisted(records: seq<VcfRecord>, normalize: VcfRecord -> seq<Variant>,
                                                   fields: seq<string>, key: string)
    requires key in PutAll(map[], CustomPuts(records, normalize, fields))
    ensures var value := PutAll(map[], CustomPuts(records, normalize, fields))[key];
            value.InfoFields? && forall f :: f in value.fields ==> f in fields
  {
    var puts := CustomPuts(records, normalize, fields);
    var j := LastPutOf(map[], puts, key);
    CustomPutsExactly(records, normalize, fields, puts[j]);
  }

  /** The position of the last put under `key`, which holds the stored value. */
  lemma {:induction false} LastPutOf<V>(m: map<string, V>, puts: seq<(string, V)>, key: string) returns (j: nat)
    requires key in PutAll(m, puts) && key !in m
    ensures j < |puts| && puts[j].0 == key && PutAll(m, puts)[key] == puts[j].1
  {
    var init := puts[..|puts| - 1];
    if puts[|puts| - 1].0 == key {
      j := |puts| - 1;
    } else {
      j := LastPutOf(m, init, key);
    }
  }

  /** In the population index built from nothing, each key holds a record whose own key it is. */
  lemma PopulationIndexKeyed(variants: seq<Variant>, key: string)
    requires key in PutAll(map[], PopulationPuts(variants))
    ensures var value := PutAll(map[], PopulationPuts(variants))[key];
            value.FullRecord? && VariantKey(IdOf(value.record)) == key && value.record in variants
  {
    var j := LastPutOf(map[], PopulationPuts(variants), key);
  }

  /**
   * A forced rebuild opens an existing directory with its old contents, so an
   * entry left by an earlier run under a key the new file does not contain
   * survives the rebuild unchanged.
   */
  lemma StaleEntrySurvivesRebuild(onDisk: Entries, variants: seq<Variant>, key: string)
    requires key in onDisk
    requires forall k :: 0 <= k < |variants| ==> VariantKey(IdOf(variants[k])) != key
    ensures key in PutAll(onDisk, PopulationPuts(variants))
    ensures PutAll(onDisk, PopulationPuts(variants))[key] == onDisk[key]
  {
    UntouchedKeyKept(onDisk, PopulationPuts(variants), key);
  }
}
