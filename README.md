# CellBase variant-annotation command executor, modelled in Dafny

CellBase's `variant-annotation` command reads variants from a VCF or JSON file,
or from the CellBase variation collection. It annotates them with a chain of
annotators and writes the result. The executor behind the command does five
things before and after the annotation run.

1. **Checks the command-line options** (`checkParameters`). It checks them in a
   fixed order and fails with the first error it meets. It also normalises them:
   - clamps the thread count and the batch size;
   - picks the input format from the file suffix and the output format from its
     lower-cased name;
   - splits and cross-checks the custom files, their ids and their
     `:`/`,`-separated INFO-field whitelists;
   - reads the population-frequency file, the completion flag and the two
     extra-padding build parameters.
2. **Builds one RocksDB index per custom VCF file** at `<file>.idx`
   (`getIndexes`, `getDBConnection`, `indexCustomVcfFile`).
   - An index is reused read-only when its directory already exists.
   - Otherwise it is opened read-write and filled. Each record with an
     alternate allele is normalised, and every resulting variant is put under
     the key `chromosome_start_reference_alternate`. The value is the variant's
     INFO attributes, restricted to the file's whitelist (`parseInfoAttributes`).
3. **Builds the population-frequency index**, last in the list. It is always
   opened read-write, and every record of the JSON file is put whole under its
   key (`indexPopulationFrequencies`).
4. **Builds the annotator chain** (`createAnnotators`): the CellBase annotator
   (local or web service), then one annotator per VCF custom file, bound to the
   index at the file's own position, then the population-frequency annotator,
   bound to the last index.
5. **Finishes the run.**
   - With a population file and `complete-input-population` set, one pass over
     the population index appends every record the annotator never matched
     (`writeRemainingPopFrequencies`). Such a record's annotation still has a
     null additional-attributes map.
   - Finally every index is closed, and only the last directory, the
     population index, is deleted (`closeIndexes`).

The model is split into modules that follow this structure:

| module | contents |
|---|---|
| `Wrappers` | `Option`, `Result` |
| `Sequences` | small sequence identities |
| `JavaStrings` | Java's `String.split` (trailing empty strings dropped), `endsWith`, `toLowerCase`, `isNotBlank`, `Boolean.valueOf`, `Integer.valueOf` (32-bit range) and decimal rendering of integers |
| `Variants` | variants, VCF records, reader steps, the index key and its inverse |
| `KeyValueStore` | a `Store` class standing for a RocksDB handle with its options |
| `Parameters` | the checked parameters as a function of the options |
| `InfoAttributes` | both `parseInfoAttributes` readings |
| `Indexing` | what each index holds and where it lives |
| `Annotators` | the chain |
| `Reconciliation` | the final pass |
| `Executor` | the `VariantAnnotationCommandExecutor` class with its fields `params`, `dbIndexes` and `dbLocations`, and its methods with their loops |

The class's methods are proved against the specification functions of the
other modules. The properties of the source are proved as lemmas about those
functions.

The file system and the readers are parameters:
- a `Disk` maps each existing index directory to its contents;
- a custom file's content is a sequence of reader steps, each a parsed VCF
  record or an unreadable input. The population file's content is the same,
  with JSON records;
- the variant normaliser together with the VCF-to-variant converter is a
  function `normalize` from a record to its variants;
- the order in which a RocksDB iterator visits the keys is a sequence `scan`
  that enumerates the store's keys.

## Model

| member | source | states |
|---|---|---|
| Parameters.ClampThreads | cellbase-app/src/main/java/org/opencb/cellbase/app/cli/VariantAnnotationCommandExecutor.java:837-842 | result is at least 1; a request above 1 is kept, anything else becomes 1 |
| Parameters.ClampBatchSize | cellbase-app/src/main/java/org/opencb/cellbase/app/cli/VariantAnnotationCommandExecutor.java:845-850 | result lies in [1, 2000]; a request in [1, 2000] is kept, anything else becomes 1 |
| Parameters.InputFormatOf | cellbase-app/src/main/java/org/opencb/cellbase/app/cli/VariantAnnotationCommandExecutor.java:772-780 | accepted exactly for `.vcf`/`.vcf.gz`/`.json`/`.json.gz` names; VCF exactly for the VCF suffixes; otherwise the unsupported-input error |
| Parameters.OutputFormatOf | cellbase-app/src/main/java/org/opencb/cellbase/app/cli/VariantAnnotationCommandExecutor.java:811-826 | accepted exactly when the lower-cased name is json, avro or vep, and then the format of that name (never VCF); otherwise the unsupported-output error |
| Parameters.InputSettings | cellbase-app/src/main/java/org/opencb/cellbase/app/cli/VariantAnnotationCommandExecutor.java:764-785 | a format only with an input file outside benchmark mode, and then the one InputFormatOf gives for its suffix; normalisation exactly for such an input without skip-normalize; fails exactly when that input's suffix is unsupported |
| Parameters.OutputSettings | cellbase-app/src/main/java/org/opencb/cellbase/app/cli/VariantAnnotationCommandExecutor.java:811-826 | no format when none is named; a named format is accepted exactly when OutputFormatOf accepts it and is then its result |
| Parameters.FieldLists | cellbase-app/src/main/java/org/opencb/cellbase/app/cli/VariantAnnotationCommandExecutor.java:925-928 | one whitelist per `:`-group, the group split on `,` |
| Parameters.CustomFileOptions | cellbase-app/src/main/java/org/opencb/cellbase/app/cli/VariantAnnotationCommandExecutor.java:896-931 | no custom files gives empty lists and max-open-files -1; otherwise succeeds iff every file is a VCF name and the ids and field groups are present with one per file; a non-VCF file gives its own error; on success files, ids, per-file whitelists and max-open-files are the split options |
| Parameters.PopulationOptions | cellbase-app/src/main/java/org/opencb/cellbase/app/cli/VariantAnnotationCommandExecutor.java:934-943 | fails iff the population file is given without a `.json`/`.json.gz` name; on success the file is the `population-frequencies` build parameter (or none) and the completion flag is `Boolean.valueOf` of `complete-input-population` when a file is given, false otherwise |
| Parameters.PaddingOption | cellbase-app/src/main/java/org/opencb/cellbase/app/cli/VariantAnnotationCommandExecutor.java:949-966 | succeeds iff the padding is absent or a 32-bit integer that is not negative; on success the value is `Integer.valueOf` of the parameter (or none), in [0, 2^31-1]; a failure is the malformed-number error when the text does not parse and the negative-padding error otherwise |
| Parameters.BasicOptions | cellbase-app/src/main/java/org/opencb/cellbase/app/cli/VariantAnnotationCommandExecutor.java:733-893 | succeeds exactly when the benchmark has a non-blank reference, the input and output formats are accepted, an output and a species are given and remote mode has a URL and either skips left alignment or has a reference; on success the reference is the non-blank one, normalise/decompose/left-align follow the skip flags, the URL is the given one in remote mode and none locally, with the clamps, output, species and formats; the benchmark and left-alignment errors are stated with their own error values |
| Parameters.CheckedParameters | cellbase-app/src/main/java/org/opencb/cellbase/app/cli/VariantAnnotationCommandExecutor.java:730-977 | succeeds exactly when every stage succeeds; success gives parameters meeting every guarantee the run relies on (clamps, aligned custom lists, VCF custom files, JSON population file, URL in remote mode); stated outright: the clamps, the required options, the benchmark error, the input and output formats of their stages, the custom files, ids and per-file field lists as split from the options, and max-open-files as given (empty lists and max-open-files -1 without custom files); the remaining fields are stated by CheckedSettings and CheckedBuildParameters |
| Parameters.CheckedSettings | cellbase-app/src/main/java/org/opencb/cellbase/app/cli/VariantAnnotationCommandExecutor.java:733-893 | the checked reference, benchmark, input, normalise/decompose/left-align flags, output, species, local flag, URL, assembly, variation-collection flag and chromosome source, each in terms of the options |
| Parameters.CheckedBuildParameters | cellbase-app/src/main/java/org/opencb/cellbase/app/cli/VariantAnnotationCommandExecutor.java:934-966 | the checked population file, completion flag and both paddings, each in terms of the build parameters |
| Executor.VariantAnnotationCommandExecutor.CheckParameters | cellbase-app/src/main/java/org/opencb/cellbase/app/cli/VariantAnnotationCommandExecutor.java:730-977 | runs the stages in the source's order (BasicOptions, the custom-file loops, PopulationOptions, the two paddings) and reports an error exactly when CheckedParameters fails, and that error; on success the fields hold the checked parameters, on failure they are unchanged |
| Executor.VariantAnnotationCommandExecutor.CheckCustomFiles | cellbase-app/src/main/java/org/opencb/cellbase/app/cli/VariantAnnotationCommandExecutor.java:896-931 | the custom-file stage returns exactly CustomFileOptions, with its errors in the source's order |
| Executor.VariantAnnotationCommandExecutor.VcfFileList | cellbase-app/src/main/java/org/opencb/cellbase/app/cli/VariantAnnotationCommandExecutor.java:897-906 | the file-by-file loop accepts the list iff every file has a VCF suffix, and then returns the files unchanged, in order |
| Executor.VariantAnnotationCommandExecutor.FieldListsOf | cellbase-app/src/main/java/org/opencb/cellbase/app/cli/VariantAnnotationCommandExecutor.java:925-928 | the group-by-group loop returns exactly FieldLists: group k split on `,` |
| Executor.VariantAnnotationCommandExecutor.ParseInfoAttributes | cellbase-app/src/main/java/org/opencb/cellbase/app/cli/VariantAnnotationCommandExecutor.java:672-683 | a key is in the result iff it is an INFO key of the variant and in the file's whitelist; its value is the INFO value unchanged |
| Executor.VariantAnnotationCommandExecutor.ParseInfoAttributesFromString | cellbase-app/src/main/java/org/opencb/cellbase/app/cli/VariantAnnotationCommandExecutor.java:685-712 | the allele maps from EmptyAlleleMaps, updated item by item, are exactly ParsePerAllele for the file's whitelist, and a negative allele count is rejected |
| Executor.VariantAnnotationCommandExecutor.EmptyAlleleMaps | cellbase-app/src/main/java/org/opencb/cellbase/app/cli/VariantAnnotationCommandExecutor.java:687-690 | one empty map for each allele |
| Executor.VariantAnnotationCommandExecutor.ReadInfoItem | cellbase-app/src/main/java/org/opencb/cellbase/app/cli/VariantAnnotationCommandExecutor.java:692-707 | one item updates the allele maps exactly as AfterItem |
| InfoAttributes.AcceptedItem | cellbase-app/src/main/java/org/opencb/cellbase/app/cli/VariantAnnotationCommandExecutor.java:692-693 | an item is kept iff splitting it on `=` gives exactly two parts whose first is whitelisted; the kept key and value are those two parts |
| InfoAttributes.AlleleValue | cellbase-app/src/main/java/org/opencb/cellbase/app/cli/VariantAnnotationCommandExecutor.java:695-707 | allele j gets the j-th `,`-part when there is one part per allele, and the whole value otherwise |
| InfoAttributes.ParsePerAllele | cellbase-app/src/main/java/org/opencb/cellbase/app/cli/VariantAnnotationCommandExecutor.java:686-690 | rejected exactly for a negative allele count; otherwise exactly numAlleles maps |
| InfoAttributes.PerAlleleKeys | cellbase-app/src/main/java/org/opencb/cellbase/app/cli/VariantAnnotationCommandExecutor.java:691-708 | every allele map holds a key iff some `;`-item is accepted under that key |
| InfoAttributes.PerAlleleLastItemWins | cellbase-app/src/main/java/org/opencb/cellbase/app/cli/VariantAnnotationCommandExecutor.java:691-708 | a key's value in allele j is the AlleleValue of the last accepted item with that key |
| InfoAttributes.IgnoredItemIrrelevant | cellbase-app/src/main/java/org/opencb/cellbase/app/cli/VariantAnnotationCommandExecutor.java:692-693 | removing an item that is not accepted, from any position, leaves every allele map unchanged |
| Executor.VariantAnnotationCommandExecutor.GetDBConnection | cellbase-app/src/main/java/org/opencb/cellbase/app/cli/VariantAnnotationCommandExecutor.java:593-621 | indexing is needed iff forced or the location does not exist; the store opens read-write exactly then; existing contents are kept; max-open-files is set only when positive |
| Executor.VariantAnnotationCommandExecutor.IndexCustomVcfFile | cellbase-app/src/main/java/org/opencb/cellbase/app/cli/VariantAnnotationCommandExecutor.java:623-670 | succeeds iff every record can be read; the store afterwards is the old one with the puts of the records read before the first failure |
| Executor.VariantAnnotationCommandExecutor.PutRecord | cellbase-app/src/main/java/org/opencb/cellbase/app/cli/VariantAnnotationCommandExecutor.java:642-650 | the store afterwards is the old one with RecordPuts of the record: nothing without an alternate allele, else one put per normalised variant |
| Executor.VariantAnnotationCommandExecutor.IndexPopulationFrequencies | cellbase-app/src/main/java/org/opencb/cellbase/app/cli/VariantAnnotationCommandExecutor.java:561-587 | the store afterwards is the old one with one put per record read before the first failure; the failure itself is swallowed |
| Executor.VariantAnnotationCommandExecutor.GetCustomIndex | cellbase-app/src/main/java/org/opencb/cellbase/app/cli/VariantAnnotationCommandExecutor.java:522-539 | the index is at `<file>.idx`; it succeeds iff the index exists or the whole file can be read; then it is open, read-only iff the directory existed, and holds CustomIndexContents, which is the old contents when reused |
| Executor.VariantAnnotationCommandExecutor.GetPopulationIndex | cellbase-app/src/main/java/org/opencb/cellbase/app/cli/VariantAnnotationCommandExecutor.java:543-558 | the index is at `<file>.idx`, open read-write, and holds the population puts over whatever the directory held |
| Executor.VariantAnnotationCommandExecutor.GetCustomIndexes | cellbase-app/src/main/java/org/opencb/cellbase/app/cli/VariantAnnotationCommandExecutor.java:520-541 | succeeds iff every custom file is indexable; then index and location k belong to custom file k, in declared order |
| Executor.VariantAnnotationCommandExecutor.GetIndexes | cellbase-app/src/main/java/org/opencb/cellbase/app/cli/VariantAnnotationCommandExecutor.java:515-559 | succeeds iff every custom file is indexable; then the custom indexes come in order, the population index comes last and is always read-write, and the locations are IndexLocations; the parameters are unchanged |
| Executor.WithPopulationIndex | cellbase-app/src/main/java/org/opencb/cellbase/app/cli/VariantAnnotationCommandExecutor.java:543-558 | the custom indexes followed by the population index meet getIndexes' promise |
| Executor.WithoutPopulationIndex | cellbase-app/src/main/java/org/opencb/cellbase/app/cli/VariantAnnotationCommandExecutor.java:520-541 | without a population file the custom indexes alone meet getIndexes' promise |
| Indexing.VcfPositions | cellbase-app/src/main/java/org/opencb/cellbase/app/cli/VariantAnnotationCommandExecutor.java:522-523 | the positions of the custom files with a VCF suffix: every selected position is such a file, the positions are strictly increasing (so each file at most once, in declared order), and every VCF file's position is selected |
| Indexing.AllVcfPositions | cellbase-app/src/main/java/org/opencb/cellbase/app/cli/VariantAnnotationCommandExecutor.java:522-523 | when every custom file is a VCF file, every position is selected, in order |
| Indexing.IndexLocations | cellbase-app/src/main/java/org/opencb/cellbase/app/cli/VariantAnnotationCommandExecutor.java:515-559 | one `.idx` location per VCF custom file in order, then the population file's `.idx` location last |
| Indexing.IndexLocationsOf | cellbase-app/src/main/java/org/opencb/cellbase/app/cli/VariantAnnotationCommandExecutor.java:515-559 | with only VCF custom files, a list holding custom location k at k and the population location last is IndexLocations |
| Indexing.PopulationPuts | cellbase-app/src/main/java/org/opencb/cellbase/app/cli/VariantAnnotationCommandExecutor.java:572-575 | one put per record, in file order, under its `chrom_start_ref_alt` key, holding the whole record |
| Indexing.ReferenceRecordWritesNothing | cellbase-app/src/main/java/org/opencb/cellbase/app/cli/VariantAnnotationCommandExecutor.java:641-642 | a record without an alternate allele can be removed from anywhere in the file without changing the puts |
| Indexing.RecordPutsExactly | cellbase-app/src/main/java/org/opencb/cellbase/app/cli/VariantAnnotationCommandExecutor.java:642-650 | a put comes from a record iff the record has an alternate allele and the put is that of one of its normalised variants |
| Indexing.CustomPutsExactly | cellbase-app/src/main/java/org/opencb/cellbase/app/cli/VariantAnnotationCommandExecutor.java:639-656 | a put comes from a file iff it is the key/whitelisted-INFO put of a normalised variant of a record with an alternate allele |
| Indexing.CustomIndexWhitelisted | cellbase-app/src/main/java/org/opencb/cellbase/app/cli/VariantAnnotationCommandExecutor.java:647-649 | every value of a freshly built custom index holds INFO attributes only, with whitelisted fields only |
| Indexing.PopulationIndexKeyed | cellbase-app/src/main/java/org/opencb/cellbase/app/cli/VariantAnnotationCommandExecutor.java:572-575 | each key of a freshly built population index holds one of the file's records, whose own key it is |
| Indexing.StaleEntrySurvivesRebuild | cellbase-app/src/main/java/org/opencb/cellbase/app/cli/VariantAnnotationCommandExecutor.java:545-547 | a forced rebuild over an existing directory keeps an old entry, unchanged, under a key the new file lacks |
| KeyValueStore.PutAllKeys | cellbase-app/src/main/java/org/opencb/cellbase/app/cli/VariantAnnotationCommandExecutor.java:646-649 | after the puts, a key is present iff it was before or some put names it |
| KeyValueStore.LastPutWins | cellbase-app/src/main/java/org/opencb/cellbase/app/cli/VariantAnnotationCommandExecutor.java:646-649 | a key holds the value of the last put under it |
| KeyValueStore.UntouchedKeyKept | cellbase-app/src/main/java/org/opencb/cellbase/app/cli/VariantAnnotationCommandExecutor.java:606-610 | a key no put names keeps the value the directory held |
| KeyValueStore.PutAllAppend | cellbase-app/src/main/java/org/opencb/cellbase/app/cli/VariantAnnotationCommandExecutor.java:639-656 | putting two batches one after the other equals putting their concatenation |
| KeyValueStore.Store.Open | cellbase-app/src/main/java/org/opencb/cellbase/app/cli/VariantAnnotationCommandExecutor.java:604-611 | the store is open, at the given location, in the given mode and max-open-files, holding what the directory held |
| KeyValueStore.Store.Close | cellbase-app/src/main/java/org/opencb/cellbase/app/cli/VariantAnnotationCommandExecutor.java:441 | the store is closed and its entries are kept |
| KeyValueStore.Store.Put | cellbase-app/src/main/java/org/opencb/cellbase/app/cli/VariantAnnotationCommandExecutor.java:647-649 | an open, writable store gets the key set to the value, nothing else changes |
| Variants.ReadablePrefix | cellbase-app/src/main/java/org/opencb/cellbase/app/cli/VariantAnnotationCommandExecutor.java:658-669 | the records read before the first unreadable input, in order; the step after them, if any, is unreadable |
| Variants.KeyRoundTrip | cellbase-app/src/main/java/org/opencb/cellbase/app/cli/VariantAnnotationCommandExecutor.java:647-648 | for alleles without `_` the key `chrom_start_ref_alt` parses back to the same chromosome, start, reference and alternate |
| Variants.KeyInjective | cellbase-app/src/main/java/org/opencb/cellbase/app/cli/VariantAnnotationCommandExecutor.java:647-648 | two variants with `_`-free alleles share a key only when they share their identity |
| JavaStrings.IntToStringRoundTrip | cellbase-app/src/main/java/org/opencb/cellbase/app/cli/VariantAnnotationCommandExecutor.java:647 | the decimal rendering of the start parses back to the same integer |
| JavaStrings.Split | cellbase-app/src/main/java/org/opencb/cellbase/app/cli/VariantAnnotationCommandExecutor.java:897 | a string without the delimiter is one piece, and no piece holds the delimiter; its round trip is stated by SplitJoin |
| JavaStrings.ParseJavaInt | cellbase-app/src/main/java/org/opencb/cellbase/app/cli/VariantAnnotationCommandExecutor.java:950 | a parsed padding is the signed decimal value of the text and lies in the 32-bit range, none outside it; IntToStringRoundTrip is its inverse |
| JavaStrings.SplitJoin | cellbase-app/src/main/java/org/opencb/cellbase/app/cli/VariantAnnotationCommandExecutor.java:691 | splitting the join of at least two delimiter-free pieces, the last non-empty, gives the pieces back |
| Annotators.CoreAnnotator | cellbase-app/src/main/java/org/opencb/cellbase/app/cli/VariantAnnotationCommandExecutor.java:479-513 | local exactly when running locally or annotating the variation collection; the local annotator carries the assembly and the web-service client the configured URL; both carry the species |
| Annotators.CustomAnnotators | cellbase-app/src/main/java/org/opencb/cellbase/app/cli/VariantAnnotationCommandExecutor.java:458-465 | every annotator it builds is a custom-file annotator, no more of them than there are files |
| Annotators.CustomAnnotatorsAtPositions | cellbase-app/src/main/java/org/opencb/cellbase/app/cli/VariantAnnotationCommandExecutor.java:458-465 | custom annotator k is built from the k-th VCF file among the custom files, with the id, whitelist and index at that file's own position; there is one per VCF file |
| Annotators.CustomAnnotatorsAligned | cellbase-app/src/main/java/org/opencb/cellbase/app/cli/VariantAnnotationCommandExecutor.java:458-465 | with only VCF custom files, custom annotator k carries file k, id k, whitelist k and index k |
| Annotators.ChainOrder | cellbase-app/src/main/java/org/opencb/cellbase/app/cli/VariantAnnotationCommandExecutor.java:450-477 | for checked parameters and getIndexes' list: CellBase annotator first, custom annotator k at k+1 with the k-th index, population annotator last with the last index and nowhere else |
| Executor.VariantAnnotationCommandExecutor.CreateAnnotators | cellbase-app/src/main/java/org/opencb/cellbase/app/cli/VariantAnnotationCommandExecutor.java:450-477 | the loop builds exactly AnnotatorChain over the current index list |
| Reconciliation.Decoded | cellbase-app/src/main/java/org/opencb/cellbase/app/cli/VariantAnnotationCommandExecutor.java:308-311 | a stored value is read back iff it is a whole record with an annotation, and then it is that record |
| Reconciliation.Reconcile | cellbase-app/src/main/java/org/opencb/cellbase/app/cli/VariantAnnotationCommandExecutor.java:307-319 | the counter never exceeds the keys scanned, and the records written never exceed the counter |
| Reconciliation.ReconcileCounter | cellbase-app/src/main/java/org/opencb/cellbase/app/cli/VariantAnnotationCommandExecutor.java:307-319 | the pass completes iff every scanned value reads back, and then counts every key; otherwise it stops at the first unreadable value, having counted those before it |
| Reconciliation.StoppedPassIgnoresRest | cellbase-app/src/main/java/org/opencb/cellbase/app/cli/VariantAnnotationCommandExecutor.java:307-308 | once the pass has stopped, later keys change nothing |
| Reconciliation.ReconcileAppend | cellbase-app/src/main/java/org/opencb/cellbase/app/cli/VariantAnnotationCommandExecutor.java:307-319 | a pass over two stretches writes the first stretch's records then the second's and adds the counts: the output follows iteration order |
| Reconciliation.ReconcileOne | cellbase-app/src/main/java/org/opencb/cellbase/app/cli/VariantAnnotationCommandExecutor.java:308-315 | one entry is counted if it reads back, and written iff its additional attributes are null |
| Reconciliation.WrittenAreUnvisited | cellbase-app/src/main/java/org/opencb/cellbase/app/cli/VariantAnnotationCommandExecutor.java:311-313 | every written record is the record under some scanned key whose additional attributes are null |
| Reconciliation.WrittenCount | cellbase-app/src/main/java/org/opencb/cellbase/app/cli/VariantAnnotationCommandExecutor.java:311-313 | over a duplicate-free readable scan, one record is written per scanned key with null additional attributes |
| Reconciliation.UnvisitedAreWritten | cellbase-app/src/main/java/org/opencb/cellbase/app/cli/VariantAnnotationCommandExecutor.java:311-313 | over a readable scan, the record under every scanned key with null additional attributes is among those written |
| Reconciliation.CompletePassWritesUnvisited | cellbase-app/src/main/java/org/opencb/cellbase/app/cli/VariantAnnotationCommandExecutor.java:291-328 | over an enumerating scan of a readable store: the pass completes, the counter is the number of entries, as many records are written as there are never-matched entries, every written record is the one stored under a never-matched key, and the record under every never-matched key is written |
| Reconciliation.DistinctCardinality | cellbase-app/src/main/java/org/opencb/cellbase/app/cli/VariantAnnotationCommandExecutor.java:307 | an iteration visiting every key once has as many steps as the store has entries |
| Executor.VariantAnnotationCommandExecutor.WriteRemainingPopFrequencies | cellbase-app/src/main/java/org/opencb/cellbase/app/cli/VariantAnnotationCommandExecutor.java:291-328 | without a population file or the completion flag nothing is written; otherwise the loop over the last index yields exactly Reconcile's written records, counter and completion |
| Executor.VariantAnnotationCommandExecutor.CloseIndexes | cellbase-app/src/main/java/org/opencb/cellbase/app/cli/VariantAnnotationCommandExecutor.java:439-448 | every index is closed with its contents kept; the only directory deleted is the last location, and only with a population file |
| Executor.VariantAnnotationCommandExecutor.constructor | cellbase-app/src/main/java/org/opencb/cellbase/app/cli/VariantAnnotationCommandExecutor.java:124-138 | the options are kept; the input and output paths are taken from them at once; every other field has its Java default (max-open-files -1, no custom files, no population file) and the index lists are empty |
| Parameters.ChromosomeSourceOf | cellbase-app/src/main/java/org/opencb/cellbase/app/cli/VariantAnnotationCommandExecutor.java:330-351 | no contract of its own: the chromosome source is needed only when annotating the variation collection, a non-empty list option is split on `,`, otherwise the names come from the database (its query is not modelled) |
| InfoAttributes.Whitelist | cellbase-app/src/main/java/org/opencb/cellbase/app/cli/VariantAnnotationCommandExecutor.java:672-683 | no contract of its own: the specification ParseInfoAttributes is proved against, keeping the entries whose key is whitelisted |
| InfoAttributes.AfterItem | cellbase-app/src/main/java/org/opencb/cellbase/app/cli/VariantAnnotationCommandExecutor.java:691-708 | one `;`-item keeps the number of allele maps; its meaning is stated by PerAlleleKeys and PerAlleleLastItemWins |
| InfoAttributes.PerAlleleMaps | cellbase-app/src/main/java/org/opencb/cellbase/app/cli/VariantAnnotationCommandExecutor.java:686-712 | one map per allele; which keys they hold and which value wins is stated by PerAlleleKeys and PerAlleleLastItemWins |
| Variants.VariantKey | cellbase-app/src/main/java/org/opencb/cellbase/app/cli/VariantAnnotationCommandExecutor.java:647-648 | no contract of its own: the key `chromosome_start_reference_alternate`; KeyRoundTrip and KeyInjective state that it determines the variant's identity |
| Indexing.IndexingNeeded | cellbase-app/src/main/java/org/opencb/cellbase/app/cli/VariantAnnotationCommandExecutor.java:594 | no contract of its own: the rebuild decision, forced or nothing at the location, which GetDBConnection's contract ties to the open mode |
| Indexing.RecordPuts | cellbase-app/src/main/java/org/opencb/cellbase/app/cli/VariantAnnotationCommandExecutor.java:642-650 | no contract of its own: one record's puts, characterised by RecordPutsExactly and ReferenceRecordWritesNothing |
| Indexing.CustomPuts | cellbase-app/src/main/java/org/opencb/cellbase/app/cli/VariantAnnotationCommandExecutor.java:639-656 | no contract of its own: a file's puts in file order, characterised by CustomPutsExactly and CustomIndexWhitelisted |
| Indexing.CustomIndexContents | cellbase-app/src/main/java/org/opencb/cellbase/app/cli/VariantAnnotationCommandExecutor.java:526-535 | no contract of its own: an existing directory is reused as it is, a new one holds the puts of the records read before the first unreadable one |
| Indexing.PopulationIndexContents | cellbase-app/src/main/java/org/opencb/cellbase/app/cli/VariantAnnotationCommandExecutor.java:543-558 | no contract of its own: the population puts over whatever the directory held, as StaleEntrySurvivesRebuild and PopulationIndexKeyed describe |
| Annotators.PopulationAnnotators | cellbase-app/src/main/java/org/opencb/cellbase/app/cli/VariantAnnotationCommandExecutor.java:466-474 | one annotator exactly when a population file is set, for that file and bound to the last index |
| Annotators.AnnotatorChain | cellbase-app/src/main/java/org/opencb/cellbase/app/cli/VariantAnnotationCommandExecutor.java:450-477 | no contract of its own: the chain CreateAnnotators builds, whose order ChainOrder states |
| Reconciliation.Unvisited | cellbase-app/src/main/java/org/opencb/cellbase/app/cli/VariantAnnotationCommandExecutor.java:311 | no contract of its own: a record the population annotator never matched has a null additional-attributes map |

## Left out

- The file system and the libraries are not called. The model leaves out:
  - file existence and directory checks (`FileUtils.checkFile`/`checkDirectory`);
  - logging, the line counters and their progress messages;
  - `Options.dispose`;
  - the `queryOptions` entries (cache, phasing, include/exclude, imprecision, assembly, paddings);
  - `RocksDB.loadLibrary`.

  The contents of the disk and the readers are parameters.
- The orchestration of the annotation run (`execute`, `runAnnotation`, the benchmark, the tasks, the writers) and `setChromosomeList`'s database query are not part of this model. The chromosome list is kept only as "listed" or "from the database".
- `System.exit` and the rethrown exception in `indexCustomVcfFile` are modelled as a failure result (`ok == false`). The exception in `getDBConnection` when a directory cannot be opened is not modelled, and neither is a failed web-service configuration load making `createCellBaseAnnotator` return null.
- A population record that cannot be read ends `indexPopulationFrequencies` silently and keeps what was put, as the code does. It is not treated as an error that aborts the run.
- The VCF converter and the variant normaliser are one function parameter, `normalize`. Their own behaviour (decomposition, left alignment) is not modelled.
- A RocksDB iterator's byte-wise key order is a parameter `scan` that enumerates the stored keys. The JSON serialisation of stored values is the constructor of the stored value.
- `getValueFromString` is not modelled; the values of the deprecated parser stay strings. That parser's list element type is `Object` in the source.
- Paths are strings, and the input's suffix is tested on the whole string rather than on `getName()`. `Paths.get` normalisation (for example of a trailing `/`) is not modelled.
- The disk is a fixed snapshot taken before `getIndexes`. A custom file listed twice would find its own freshly written index the second time; the model does not follow that.
- Concurrency: the annotation tasks run in parallel, and the indexes are shared read-only between them; not modelled.
- Executor.VariantAnnotationCommandExecutor.CheckParameters: the Java method assigns fields one by one and may leave some assigned when it throws. The model assigns all the fields on success only, since every failure ends the command.
- Executor.VariantAnnotationCommandExecutor.GetCustomIndexes: the source skips custom files without a VCF suffix. Checked parameters contain none, so this loop indexes every file. The selection itself is modelled by `Indexing.VcfPositions` and `Annotators.CustomAnnotators`.
- Executor.VariantAnnotationCommandExecutor.GetIndexes: it does not state that the stores in the list are freshly allocated and distinct from one another, so two list entries are not proved to be different handles.
- The batch-size warning text names the range 1-1000 while the code accepts 1-2000; the model follows the code.
- Studies and files: a variant's INFO attributes are those of the first file of its first study. A variant without studies, an `IndexOutOfBounds` in the source, is not modelled.
- JavaStrings.ParseJavaInt, and through it Parameters.PaddingOption: only ASCII digits `0`-`9` are read as decimal digits. `Integer.valueOf` also accepts the other Unicode decimal digits (for example U+0661 or the full-width digits), whose set depends on the JVM's Unicode version; a padding written with them is rejected here and accepted by the source.
- JavaStrings.IsWhitespace: the whitespace set is `Character.isWhitespace` as classified from Unicode 6.3 on (Java 9 and later). On Java 8, U+180E MONGOLIAN VOWEL SEPARATOR is also whitespace, so a reference path made of spaces and U+180E only counts as given here and as blank there.
- JavaStrings.ToLowerCase: only `A`-`Z` are folded, and `Boolean.valueOf`'s `equalsIgnoreCase` is modelled through it. Java folds every Unicode letter, but no non-ASCII character lower-cases (or, for `equalsIgnoreCase`, upper-cases) to a letter of `json`, `avro`, `vep` or `true`, so the outcome of each comparison the core makes is the same.
- Indexing.PopulationPuts: the population key is built by `VariantAnnotationUtils.buildVariantId`, which is not part of this model. It is taken to be the same `chromosome_start_reference_alternate` concatenation that the custom indexes use.
