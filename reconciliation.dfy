/**
 * The reconciliation pass over the population index: every stored record is
 * read back in iteration order and counted, and those the population annotator
 * never matched (their annotation has no additional attributes) are appended
 * to the output. A value that cannot be read back as an annotated record ends
 * the pass with an error.
 */
module Reconciliation {
  import opened Sequences
  import opened Wrappers
  import opened Variants
  import opened KeyValueStore

  /**
   * Reading a stored value back as a record: only a whole record that carries
   * an annotation survives deserialisation and the annotation lookup.
   */
  function Decoded(value: IndexValue): (r: Option<Variant>)
    ensures r.Some? <==> value.FullRecord? && value.record.annotation.Some?
    ensures r.Some? ==> r.value == value.record
  {
    if value.FullRecord? && value.record.annotation.Some? then Some(value.record) else None
  }

  /** A record the population annotator never matched keeps a null additional-attributes map. */
  predicate Unvisited(v: Variant)
    requires v.annotation.Some?
  {
    v.annotation.value.additionalAttributes.None?
  }

  /** What a pass leaves: the records written, the counter, and whether the pass ran to the end. */
  datatype Reconciled = Reconciled(written: seq<Variant>, counter: nat, complete: bool)

  predicate KeysIn(entries: Entries, scan: seq<string>)
  {
    forall k :: 0 <= k < |scan| ==> scan[k] in entries
  }

  /** The iterator visits every stored key exactly once. */
  predicate Enumerates(scan: seq<string>, entries: Entries)
  {
    && KeysIn(entries, scan)
    && (forall key :: key in entries ==> key in scan)
    && (forall i, j :: 0 <= i < j < |scan| ==> scan[i] != scan[j])
  }

  /** The pass over the keys of `scan`, in order. */
  function Reconcile(entries: Entries, scan: seq<string>): (r: Reconciled)
    requires KeysIn(entries, scan)
    ensures r.counter <= |scan| && |r.written| <= r.counter
  {
    if scan == [] then Reconciled([], 0, true)
    else
      var prev := Reconcile(entries, scan[..|scan| - 1]);
      if !prev.complete then prev
      else
        match Decoded(entries[scan[|scan| - 1]])
        case None => Reconciled(prev.written, prev.counter, false)
        case Some(v) => Reconciled(prev.written + (if Unvisited(v) then [v] else []), prev.counter + 1, true)
  }

  /** Whether every value the scan reaches can be read back. */
  predicate AllDecodable(entries: Entries, scan: seq<string>)
    requires KeysIn(entries, scan)
  {
    forall k :: 0 <= k < |scan| ==> Decoded(entries[scan[k]]).Some?
  }

  lemma ReconcileSnoc(entries: Entries, scan: seq<string>, key: string)
    requires KeysIn(entries, scan) && key in entries
    ensures KeysIn(entries, scan + [key])
    ensures var prev := Reconcile(entries, scan);
            Reconcile(entries, scan + [key])
            == if !prev.complete then prev
               else match Decoded(entries[key])
                    case None => Reconciled(prev.written, prev.counter, false)
                    case Some(v) => Reconciled(prev.written + (if Unvisited(v) then [v] else []), prev.counter + 1, true)
  {
    assert (scan + [key])[..|scan|] == scan;
  }

  /**
   * The pass runs to the end exactly when every value can be read back; then
   * the counter is the number of entries scanned. Otherwise it stops at the
   * first value that cannot, having counted the ones before it.
   */
  lemma {:induction false} ReconcileCounter(entries: Entries, scan: seq<string>)
    requires KeysIn(entries, scan)
    ensures var r := Reconcile(entries, scan);
            && (r.complete <==> AllDecodable(entries, scan))
            && (r.complete ==> r.counter == |scan|)
            && (!r.complete ==>
                  && r.counter < |scan|
                  && Decoded(entries[scan[r.counter]]).None?
                  && forall k :: 0 <= k < r.counter ==> Decoded(entries[scan[k]]).Some?)
  {
    if scan != [] {
      var init := scan[..|scan| - 1];
      ReconcileCounter(entries, init);
      assert forall k :: 0 <= k < |init| ==> init[k] == scan[k];
    }
  }

  /** ReconcileSnoc for the prefixes of one scan. */
  lemma ReconcilePrefixSnoc(entries: Entries, scan: seq<string>, i: nat)
    requires KeysIn(entries, scan) && i < |scan|
    ensures KeysIn(entries, scan[..i]) && KeysIn(entries, scan[..i + 1])
    ensures var prev := Reconcile(entries, scan[..i]);
            Reconcile(entries, scan[..i + 1])
            == if !prev.complete then prev
               else match Decoded(entries[scan[i]])
                    case None => Reconciled(prev.written, prev.counter, false)
                    case Some(v) => Reconciled(prev.written + (if Unvisited(v) then [v] else []), prev.counter + 1, true)
  {
    assert scan[..i + 1] == scan[..i] + [scan[i]];
    assert KeysIn(entries, scan[..i]) by {
      forall k | 0 <= k < i ensures scan[..i][k] in entries {
        assert scan[..i][k] == scan[k];
      }
    }
    ReconcileSnoc(entries, scan[..i], scan[i]);
  }

  /** A pass that stopped within a prefix of the scan is the pass over the whole scan. */
  lemma StoppedWithinPrefix(entries: Entries, scan: seq<string>, i: nat)
    requires KeysIn(entries, scan) && i <= |scan|
    requires KeysIn(entries, scan[..i]) && !Reconcile(entries, scan[..i]).complete
    ensures Reconcile(entries, scan) == Reconcile(entries, scan[..i])
  {
    assert KeysIn(entries, scan[i..]) by {
      forall k | 0 <= k < |scan| - i ensures scan[i..][k] in entries {
        assert scan[i..][k] == scan[i + k];
      }
    }
    StoppedPassIgnoresRest(entries, scan[..i], scan[i..]);
    assert scan[..i] + scan[i..] == scan;
  }

  /** A pass that has stopped stays stopped: later entries are never read. */
  lemma {:induction false} StoppedPassIgnoresRest(entries: Entries, scan: seq<string>, rest: seq<string>)
    requires KeysIn(entries, scan) && KeysIn(entries, rest)
    requires !Reconcile(entries, scan).complete
    ensures KeysIn(entries, scan + rest)
    ensures Reconcile(entries, scan + rest) == Reconcile(entries, scan)
    decreases |rest|
  {
    if rest == [] {
      assert scan + rest == scan;
    } else {
      var init := rest[..|rest| - 1];
      var last := rest[|rest| - 1];
      StoppedPassIgnoresRest(entries, scan, init);
      InitLast(rest);
      AppendSnoc(scan, init, last);
      ReconcileSnoc(entries, scan + init, last);
    }
  }

  /**
   * A complete pass over two stretches of keys writes what the passes over
   * each stretch write, one after the other, and counts both: the output keeps
   * the iteration order.
   */
  lemma {:induction false} ReconcileAppend(entries: Entries, a: seq<string>, b: seq<string>)
    requires KeysIn(entries, a) && KeysIn(entries, b)
    requires Reconcile(entries, a).complete
    ensures KeysIn(entries, a + b)
    ensures var ra := Reconcile(entries, a);
            var rb := Reconcile(entries, b);
            Reconcile(entries, a + b) == Reconciled(ra.written + rb.written, ra.counter + rb.counter, rb.complete)
    decreases |b|
  {
    if b == [] {
      assert a + b == a;
      assert Reconcile(entries, a).written + [] == Reconcile(entries, a).written;
    } else {
      var init := b[..|b| - 1];
      var last := b[|b| - 1];
      ReconcileAppend(entries, a, init);
      InitLast(b);
      AppendSnoc(a, init, last);
      ReconcileSnoc(entries, a + init, last);
      ReconcileSnoc(entries, init, last);
      var ra := Reconcile(entries, a);
      var ri := Reconcile(entries, init);
      if ri.complete {
        match Decoded(entries[last])
        case None =>
        case Some(v) =>
          var tail := if Unvisited(v) then [v] else [];
          AppendAssoc(ra.written, ri.written, tail);
      }
    }
  }

  /** One entry: counted, and written exactly when it is an unvisited record. */
  lemma ReconcileOne(entries: Entries, key: string)
    requires key in entries
    ensures KeysIn(entries, [key])
    ensures var r := Reconcile(entries, [key]);
            match Decoded(entries[key])
            case None => r == Reconciled([], 0, false)
            case Some(v) => r == Reconciled(if Unvisited(v) then [v] else [], 1, true)
  {
    ReconcileSnoc(entries, [], key);
    assert [] + [key] == [key];
  }

  /** The keys whose value is an annotated record the population annotator never matched. */
  predicate UnvisitedKey(entries: Entries, key: string)
    requires key in entries
  {
    Decoded(entries[key]).Some? && Unvisited(Decoded(entries[key]).value)
  }

  function UnvisitedKeys(entries: Entries): set<string>
  {
    set key | key in entries && UnvisitedKey(entries, key)
  }

  function UnvisitedKeysOf(entries: Entries, scan: seq<string>): set<string>
    requires KeysIn(entries, scan)
  {
    set key | key in scan && key in entries && UnvisitedKey(entries, key)
  }

  /** A written record under a scanned key, which is unvisited. */
  lemma {:induction false} WrittenAreUnvisited(entries: Entries, scan: seq<string>, w: nat)
    requires KeysIn(entries, scan)
    requires w < |Reconcile(entries, scan).written|
    ensures exists k :: 0 <= k < |scan| && UnvisitedKey(entries, scan[k])
                        && Decoded(entries[scan[k]]).value == Reconcile(entries, scan).written[w]
  {
    var init := scan[..|scan| - 1];
    var prev := Reconcile(entries, init);
    assert forall k :: 0 <= k < |init| ==> init[k] == scan[k];
    if w < |prev.written| {
      WrittenAreUnvisited(entries, init, w);
      var k :| 0 <= k < |init| && UnvisitedKey(entries, init[k])
               && Decoded(entries[init[k]]).value == prev.written[w];
      assert scan[k] == init[k];
    } else {
      assert UnvisitedKey(entries, scan[|scan| - 1]);
    }
  }

  /** Over a duplicate-free complete scan, one record is written per unvisited scanned key. */
  lemma {:induction false} WrittenCount(entries: Entries, scan: seq<string>)
    requires KeysIn(entries, scan)
    requires forall i, j :: 0 <= i < j < |scan| ==> scan[i] != scan[j]
    requires AllDecodable(entries, scan)
    ensures |Reconcile(entries, scan).written| == |UnvisitedKeysOf(entries, scan)|
  {
    ReconcileCounter(entries, scan);
    if scan == [] {
      assert UnvisitedKeysOf(entries, scan) == {};
    } else {
      var init := scan[..|scan| - 1];
      var last := scan[|scan| - 1];
      assert forall k :: 0 <= k < |init| ==> init[k] == scan[k];
      WrittenCount(entries, init);
      ReconcileCounter(entries, init);
      InitLast(scan);
      assert last !in init;
      if UnvisitedKey(entries, last) {
        assert UnvisitedKeysOf(entries, scan) == UnvisitedKeysOf(entries, init) + {last};
      } else {
        assert UnvisitedKeysOf(entries, scan) == UnvisitedKeysOf(entries, init);
      }
    }
  }

  /** Over a scan whose values all read back, the record under every scanned unvisited key is written. */
  lemma {:induction false} UnvisitedAreWritten(entries: Entries, scan: seq<string>, k: nat)
    requires KeysIn(entries, scan) && AllDecodable(entries, scan)
    requires k < |scan| && UnvisitedKey(entries, scan[k])
    ensures Decoded(entries[scan[k]]).value in Reconcile(entries, scan).written
  {
    var init := scan[..|scan| - 1];
    assert forall j :: 0 <= j < |init| ==> init[j] == scan[j];
    ReconcileCounter(entries, init);
    if k < |init| {
      UnvisitedAreWritten(entries, init, k);
    }
  }

  /**
   * When the iterator enumerates the store and every value can be read back,
   * the pass counts every entry and writes exactly one record per unvisited
   * entry: every written record is stored under an unvisited key, and the
   * record under every unvisited key is written.
   */
  lemma CompletePassWritesUnvisited(entries: Entries, scan: seq<string>)
    requires Enumerates(scan, entries)
    requires forall key :: key in entries ==> Decoded(entries[key]).Some?
    ensures KeysIn(entries, scan)
    ensures var r := Reconcile(entries, scan);
            && r.complete && r.counter == |scan| == |entries|
            && |r.written| == |UnvisitedKeys(entries)|
            && (forall w :: 0 <= w < |r.written| ==>
                  exists key :: key in UnvisitedKeys(entries) && Decoded(entries[key]).value == r.written[w])
            && (forall key :: key in UnvisitedKeys(entries) ==> Decoded(entries[key]).value in r.written)
  {
    ReconcileCounter(entries, scan);
    WrittenCount(entries, scan);
    assert UnvisitedKeysOf(entries, scan) == UnvisitedKeys(entries);
    DistinctCardinality(scan, entries);
    forall w | 0 <= w < |Reconcile(entries, scan).written|
      ensures exists key :: key in UnvisitedKeys(entries)
                            && Decoded(entries[key]).value == Reconcile(entries, scan).written[w]
    {
      WrittenAreUnvisited(entries, scan, w);
    }
    forall key | key in UnvisitedKeys(entries)
      ensures Decoded(entries[key]).value in Reconcile(entries, scan).written
    {
      var k :| 0 <= k < |scan| && scan[k] == key;
      UnvisitedAreWritten(entries, scan, k);
    }
  }

  /** A duplicate-free enumeration of the keys has as many elements as there are keys. */
  lemma {:induction false} DistinctCardinality(scan: seq<string>, entries: Entries)
    requires Enumerates(scan, entries)
    ensures |scan| == |entries|
    decreases |scan|
  {
    if scan != [] {
      var last := scan[|scan| - 1];
      var init := scan[..|scan| - 1];
      var rest := map key | key in entries && key != last :: entries[key];
      forall k | 0 <= k < |init| ensures init[k] in rest {
        assert init[k] == scan[k] != last;
      }
      forall key | key in rest ensures key in init {
        InInitOrLast(scan, key);
      }
      DistinctCardinality(init, rest);
      assert last in entries && last !in rest.Keys;
      assert entries.Keys == rest.Keys + {last};
      assert |entries.Keys| == |rest.Keys| + 1;
    }
  }

}
