/**
 * The annotator chain every annotation task runs: the CellBase annotator
 * first, then one annotator per VCF custom file in declared order, each bound
 * to the index at the file's own position, then at most one population
 * frequencies annotator, bound to the last index.
 */
module Annotators {
  import opened Wrappers
  import opened Parameters
  import opened KeyValueStore
  import opened Indexing

  datatype Annotator =
    | CellBaseLocal(species: string, assembly: Option<string>)
    | CellBaseWebService(host: Option<string>, species: string)
    | CustomFile(file: string, index: Store, id: string, fields: seq<string>)
    | PopulationFrequencies(file: string, index: Store)

  /**
   * createCellBaseAnnotator: a local annotator when running locally or over
   * the variation collection, the web-service client (with the configured
   * host when one is given) otherwise.
   */
  function CoreAnnotator(p: Parameters): (a: Annotator)
    ensures a.CellBaseLocal? <==> p.local || p.cellBaseAnnotation
    ensures a.CellBaseLocal? ==> a.assembly == p.assembly
    ensures a.CellBaseWebService? ==> a.host == p.url
    ensures (a.CellBaseLocal? || a.CellBaseWebService?) && a.species == p.species
  {
    if p.local || p.cellBaseAnnotation then CellBaseLocal(p.species, p.assembly)
    else CellBaseWebService(p.url, p.species)
  }

  /** The custom-file annotators for the first `n` custom files: the VCF ones, each with the index at its position. */
  function CustomAnnotators(p: Parameters, indexes: seq<Store>, n: nat): (r: seq<Annotator>)
    requires n <= |p.customFiles| <= |indexes|
    requires |p.customFiles| <= |p.customFileIds| && |p.customFiles| <= |p.customFileFields|
    ensures |r| <= n
    ensures forall k :: 0 <= k < |r| ==> r[k].CustomFile?
  {
    if n == 0 then []
    else
      var i := n - 1;
      var init := CustomAnnotators(p, indexes, i);
      if IsVcfName(p.customFiles[i])
      then init + [CustomFile(p.customFiles[i], indexes[i], p.customFileIds[i], p.customFileFields[i])]
      else init
  }

  /** The population-frequency annotator, bound to the last index, when a population file is set. */
  function PopulationAnnotators(p: Parameters, indexes: seq<Store>): (r: seq<Annotator>)
    requires p.populationFrequenciesFile.Some? ==> |indexes| > 0
    ensures |r| <= 1
    ensures r != [] <==> p.populationFrequenciesFile.Some?
    ensures r != [] ==> r[0] == PopulationFrequencies(p.populationFrequenciesFile.value, indexes[|indexes| - 1])
  {
    match p.populationFrequenciesFile
    case Some(file) => [PopulationFrequencies(file, indexes[|indexes| - 1])]
    case None => []
  }

  /** The whole chain createAnnotators assembles. */
  function AnnotatorChain(p: Parameters, indexes: seq<Store>): seq<Annotator>
    requires |p.customFiles| <= |indexes|
    requires |p.customFiles| <= |p.customFileIds| && |p.customFiles| <= |p.customFileFields|
    requires p.populationFrequenciesFile.Some? ==> |indexes| > 0
  {
    [CoreAnnotator(p)] + CustomAnnotators(p, indexes, |p.customFiles|) + PopulationAnnotators(p, indexes)
  }

  /**
   * Custom annotator `k` is built from the `k`-th VCF file among the first `n`
   * custom files, with the id, field list and index at that file's position.
   */
  lemma {:induction false} CustomAnnotatorsAtPositions(p: Parameters, indexes: seq<Store>, n: nat)
    requires n <= |p.customFiles| <= |indexes|
    requires |p.customFiles| <= |p.customFileIds| && |p.customFiles| <= |p.customFileFields|
    ensures var positions := VcfPositions(p.customFiles[..n]);
            && |CustomAnnotators(p, indexes, n)| == |positions|
            && forall k :: 0 <= k < |positions| ==>
                 CustomAnnotators(p, indexes, n)[k]
                 == CustomFile(p.customFiles[positions[k]], indexes[positions[k]],
                               p.customFileIds[positions[k]], p.customFileFields[positions[k]])
  {
    if n > 0 {
      CustomAnnotatorsAtPositions(p, indexes, n - 1);
      assert p.customFiles[..n][..n - 1] == p.customFiles[..n - 1];
      assert p.customFiles[..n][n - 1] == p.customFiles[n - 1];
    }
  }

  /** With every custom file a VCF file, custom annotator `k` is the one for custom file `k`. */
  lemma {:induction false} CustomAnnotatorsAligned(p: Parameters, indexes: seq<Store>, n: nat)
    requires n <= |p.customFiles| <= |indexes|
    requires |p.customFiles| <= |p.customFileIds| && |p.customFiles| <= |p.customFileFields|
    requires AllVcf(p.customFiles)
    ensures |CustomAnnotators(p, indexes, n)| == n
    ensures forall k :: 0 <= k < n ==>
              CustomAnnotators(p, indexes, n)[k]
              == CustomFile(p.customFiles[k], indexes[k], p.customFileIds[k], p.customFileFields[k])
  {
    if n > 0 {
      CustomAnnotatorsAligned(p, indexes, n - 1);
    }
  }

  /** Where the three parts of a chain `[core] + customs + populations` sit. */
  lemma ChainLayout(core: Annotator, customs: seq<Annotator>, populations: seq<Annotator>)
    requires !core.PopulationFrequencies?
    requires forall k :: 0 <= k < |customs| ==> customs[k].CustomFile?
    ensures var chain := [core] + customs + populations;
            && |chain| == 1 + |customs| + |populations|
            && chain[0] == core
            && (forall k :: 0 <= k < |customs| ==> chain[k + 1] == customs[k])
            && (forall k :: 0 <= k < |populations| ==> chain[1 + |customs| + k] == populations[k])
            && (forall k :: 0 <= k <= |customs| ==> !chain[k].PopulationFrequencies?)
  {
    var chain := [core] + customs + populations;
    assert forall k :: 0 <= k < |customs| ==> chain[k + 1] == customs[k];
  }

  /**
   * For checked parameters and the indexes getIndexes builds (one per custom
   * file, then the population index): the CellBase annotator comes first, custom
   * annotator `k` sits at position `k + 1` with the `k`-th file, id, field list
   * and index, and the population annotator comes last with the last index.
   */
  lemma ChainOrder(p: Parameters, indexes: seq<Store>)
    requires ValidParameters(p)
    requires |indexes| == |p.customFiles| + (if p.populationFrequenciesFile.Some? then 1 else 0)
    ensures var chain := AnnotatorChain(p, indexes);
            && |chain| == |indexes| + 1
            && chain[0] == CoreAnnotator(p)
            && (forall k :: 0 <= k < |p.customFiles| ==>
                  chain[k + 1] == CustomFile(p.customFiles[k], indexes[k], p.customFileIds[k], p.customFileFields[k]))
            && (p.populationFrequenciesFile.Some? ==>
                  chain[|chain| - 1] == PopulationFrequencies(p.populationFrequenciesFile.value, indexes[|indexes| - 1]))
            && (forall k :: 0 <= k < |chain| ==> chain[k].PopulationFrequencies? ==> k == |chain| - 1)
  {
    var customs := CustomAnnotators(p, indexes, |p.customFiles|);
    var populations := PopulationAnnotators(p, indexes);
    CustomAnnotatorsAligned(p, indexes, |p.customFiles|);
    ChainLayout(CoreAnnotator(p), customs, populations);
  }
}
