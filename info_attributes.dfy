/**
 * The two readings of a variant's INFO attributes: the whitelist filter over
 * an already-parsed attribute map, and the older per-allele parser of a raw
 * `k=v;k=v1,v2` INFO string.
 */
module InfoAttributes {
  import opened Sequences
  import opened Wrappers
  import opened JavaStrings

  /** The entries of `info` whose key is one of `fields`, values untouched. */
  function Whitelist(info: map<string, string>, fields: seq<string>): map<string, string>
  {
    map k | k in info && k in fields :: info[k]
  }

  // ---------------------------------------------------------------------------
  // The per-allele parser of a raw INFO string

  datatype InfoItem = InfoItem(key: string, value: string)

  /** A `;`-separated item that is kept: exactly one `=` split, with a whitelisted key. */
  function AcceptedItem(item: string, fields: seq<string>): (r: Option<InfoItem>)
    ensures r.Some? <==> |Split(item, '=')| == 2 && Split(item, '=')[0] in fields
    ensures r.Some? ==> r.value == InfoItem(Split(item, '=')[0], Split(item, '=')[1])
  {
    var splits := Split(item, '=');
    if |splits| == 2 && splits[0] in fields then Some(InfoItem(splits[0], splits[1])) else None
  }

  predicate AcceptsKey(item: string, fields: seq<string>, key: string)
  {
    AcceptedItem(item, fields).Some? && AcceptedItem(item, fields).value.key == key
  }

  /**
   * What allele `j` of `numAlleles` receives from a value: its `j`-th
   * `,`-separated part when there is one part per allele, the whole value
   * otherwise.
   */
  function AlleleValue(value: string, numAlleles: nat, j: nat): (r: string)
    requires j < numAlleles
    ensures |Split(value, ',')| == numAlleles ==> r == Split(value, ',')[j]
    ensures |Split(value, ',')| != numAlleles ==> r == value
  {
    var values := Split(value, ',');
    if |values| == numAlleles then values[j] else value
  }

  /** The allele maps after reading one more item. */
  function AfterItem(prev: seq<map<string, string>>, item: string, fields: seq<string>): (r: seq<map<string, string>>)
    ensures |r| == |prev|
  {
    match AcceptedItem(item, fields)
    case None => prev
    case Some(it) =>
      seq(|prev|, j requires 0 <= j < |prev| => prev[j][it.key := AlleleValue(it.value, |prev|, j)])
  }

  /** One map per allele after reading `items` in order. */
  function PerAlleleMaps(items: seq<string>, numAlleles: nat, fields: seq<string>): (r: seq<map<string, string>>)
    ensures |r| == numAlleles
  {
    if items == [] then seq(numAlleles, j => map[])
    else AfterItem(PerAlleleMaps(items[..|items| - 1], numAlleles, fields), items[|items| - 1], fields)
  }

  /**
   * The per-allele parser's result: `numAlleles` maps; a negative allele
   * count is rejected (the list constructor throws).
   */
  function ParsePerAllele(info: string, numAlleles: int, fields: seq<string>): (r: Option<seq<map<string, string>>>)
    ensures r.Some? <==> numAlleles >= 0
    ensures r.Some? ==> |r.value| == numAlleles
  {
    if numAlleles < 0 then None else Some(PerAlleleMaps(Split(info, ';'), numAlleles, fields))
  }

  lemma AfterItemKeys(prev: seq<map<string, string>>, item: string, fields: seq<string>, j: nat, key: string)
    requires j < |prev|
    ensures key in AfterItem(prev, item, fields)[j] <==> key in prev[j] || AcceptsKey(item, fields, key)
  {
  }

  /** Some item of `items` is accepted under `key`. */
  predicate SomeItemAccepts(items: seq<string>, fields: seq<string>, key: string)
  {
    exists i :: 0 <= i < |items| && AcceptsKey(items[i], fields, key)
  }

  lemma SomeItemAcceptsSnoc(items: seq<string>, item: string, fields: seq<string>, key: string)
    ensures SomeItemAccepts(items + [item], fields, key) <==> SomeItemAccepts(items, fields, key) || AcceptsKey(item, fields, key)
  {
    var all := items + [item];
    if SomeItemAccepts(items, fields, key) {
      var i :| 0 <= i < |items| && AcceptsKey(items[i], fields, key);
      assert all[i] == items[i];
    }
    if AcceptsKey(item, fields, key) {
      assert all[|items|] == item;
    }
    if SomeItemAccepts(all, fields, key) {
      var i :| 0 <= i < |all| && AcceptsKey(all[i], fields, key);
      if i < |items| {
        assert items[i] == all[i];
      }
    }
  }

  /**
   * Allele `j` holds a key exactly when some item is accepted under that
   * key, so ignored items leave no trace.
   */
  lemma {:induction false} PerAlleleKeys(items: seq<string>, numAlleles: nat, fields: seq<string>, j: nat, key: string)
    requires j < numAlleles
    ensures key in PerAlleleMaps(items, numAlleles, fields)[j] <==> SomeItemAccepts(items, fields, key)
  {
    if items != [] {
      var init := items[..|items| - 1];
      var last := items[|items| - 1];
      PerAlleleKeys(init, numAlleles, fields, j, key);
      AfterItemKeys(PerAlleleMaps(init, numAlleles, fields), last, fields, j, key);
      InitLast(items);
      SomeItemAcceptsSnoc(init, last, fields, key);
    }
  }


  /**
   * The value of a key in allele `j` comes from the last item accepted under
   * that key: a later item overwrites an earlier one.
   */
  lemma {:induction false} PerAlleleLastItemWins(items: seq<string>, numAlleles: nat, fields: seq<string>, i: nat, j: nat)
    requires i < |items| && j < numAlleles
    requires AcceptedItem(items[i], fields).Some?
    requires forall i' :: i < i' < |items| ==> !AcceptsKey(items[i'], fields, AcceptedItem(items[i], fields).value.key)
    ensures var it := AcceptedItem(items[i], fields).value;
            var r := PerAlleleMaps(items, numAlleles, fields);
            it.key in r[j] && r[j][it.key] == AlleleValue(it.value, numAlleles, j)
  {
    if i < |items| - 1 {
      var init := items[..|items| - 1];
      assert init[i] == items[i];
      forall i' | i < i' < |init|
        ensures !AcceptsKey(init[i'], fields, AcceptedItem(init[i], fields).value.key)
      {
        assert init[i'] == items[i'];
      }
      PerAlleleLastItemWins(init, numAlleles, fields, i, j);
    }
  }

  /** Unfolds PerAlleleMaps once at the end of a non-empty sequence. */
  lemma PerAlleleMapsSnoc(items: seq<string>, item: string, numAlleles: nat, fields: seq<string>)
    ensures PerAlleleMaps(items + [item], numAlleles, fields)
            == AfterItem(PerAlleleMaps(items, numAlleles, fields), item, fields)
  {
    var whole := items + [item];
    assert whole[..|whole| - 1] == items;
    assert whole[|whole| - 1] == item;
  }

  /** An item that is not accepted can be removed from anywhere without changing the result. */
  lemma {:induction false} IgnoredItemIrrelevant(before: seq<string>, item: string, after: seq<string>,
                                                  numAlleles: nat, fields: seq<string>)
    requires AcceptedItem(item, fields).None?
    ensures PerAlleleMaps(before + [item] + after, numAlleles, fields) == PerAlleleMaps(before + after, numAlleles, fields)
    decreases |after|
  {
    if after == [] {
      PerAlleleMapsSnoc(before, item, numAlleles, fields);
      assert before + [item] + after == before + [item];
      assert before + after == before;
    } else {
      var init := after[..|after| - 1];
      var last := after[|after| - 1];
      IgnoredItemIrrelevant(before, item, init, numAlleles, fields);
      InitLast(after);
      AppendSnoc(before + [item], init, last);
      AppendSnoc(before, init, last);
      PerAlleleMapsSnoc(before + [item] + init, last, numAlleles, fields);
      PerAlleleMapsSnoc(before + init, last, numAlleles, fields);
    }
  }
}
