/**
 * The records the executor handles: variants (with the INFO attributes of their
 * first file and their annotation), raw VCF records before normalisation, what a
 * reader yields, and the index key `chromosome_start_reference_alternate`.
 */
module Variants {
  import opened Wrappers
  import opened JavaStrings

  /**
   * The part of a variant annotation the core reads. `additionalAttributes`
   * is Java's nullable map: `None` means the population annotator never
   * matched the variant.
   */
  datatype Annotation = Annotation(additionalAttributes: Option<map<string, map<string, string>>>)

  /**
   * A variant after normalisation. `infoAttributes` are the attributes of the
   * first file of the first study (the VCF INFO column, as a map).
   */
  datatype Variant = Variant(
    chromosome: string,
    start: int,
    reference: string,
    alternate: string,
    infoAttributes: map<string, string>,
    annotation: Option<Annotation>)

  /** A VCF data line as the VCF reader yields it, before conversion and normalisation. */
  datatype VcfRecord = VcfRecord(
    contig: string,
    start: int,
    reference: string,
    alternateAlleles: seq<string>,
    info: map<string, string>)

  /** One step of a reader: a parsed item, or an input it cannot parse (an exception in the source). */
  datatype ReadItem<T> = Read(item: T) | Unreadable

  /** The items a reader yields before its first failure. */
  function ReadablePrefix<T>(items: seq<ReadItem<T>>): (r: seq<T>)
    ensures |r| <= |items|
    ensures forall k :: 0 <= k < |r| ==> items[k] == Read(r[k])
    ensures |r| < |items| ==> items[|r|] == Unreadable
  {
    if items == [] || items[0] == Unreadable then [] else [items[0].item] + ReadablePrefix(items[1..])
  }

  predicate AllReadable<T>(items: seq<ReadItem<T>>)
  {
    forall k :: 0 <= k < |items| ==> items[k].Read?
  }

  /** `done` holds what the first `|done|` items read. */
  ghost predicate ReadSoFar<T>(items: seq<ReadItem<T>>, done: seq<T>)
  {
    |done| <= |items| && forall k :: 0 <= k < |done| ==> items[k] == Read(done[k])
  }

  /** Reading one more item. */
  lemma ReadSoFarSnoc<T>(items: seq<ReadItem<T>>, done: seq<T>, item: T)
    requires ReadSoFar(items, done) && |done| < |items| && items[|done|] == Read(item)
    ensures ReadSoFar(items, done + [item])
  {
    var next := done + [item];
    assert forall k :: 0 <= k < |done| ==> next[k] == done[k];
  }

  /** Items read one by one up to the first failure (or the end) are the readable prefix. */
  lemma {:induction false} ReadablePrefixOf<T>(items: seq<ReadItem<T>>, done: seq<T>)
    requires ReadSoFar(items, done)
    requires |done| == |items| || items[|done|] == Unreadable
    ensures ReadablePrefix(items) == done
  {
    if done != [] {
      assert items[1..][0..] == items[1..];
      forall k | 0 <= k < |done[1..]| ensures items[1..][k] == Read(done[1..][k]) {
        assert items[k + 1] == Read(done[k + 1]);
      }
      ReadablePrefixOf(items[1..], done[1..]);
    }
  }

  /** The identity fields a key is built from. */
  datatype VariantId = VariantId(chromosome: string, start: int, reference: string, alternate: string)

  function IdOf(v: Variant): VariantId
  {
    VariantId(v.chromosome, v.start, v.reference, v.alternate)
  }

  /** The store key: `chromosome + "_" + start + "_" + reference + "_" + alternate`. */
  function VariantKey(id: VariantId): string
  {
    id.chromosome + "_" + IntToString(id.start) + "_" + id.reference + "_" + id.alternate
  }

  /** Position of the last `c` in `s`. */
  function LastIndexOf(s: string, c: char): (r: Option<nat>)
    ensures r.Some? ==> r.value < |s| && s[r.value] == c && c !in s[r.value + 1..]
    ensures r.None? ==> c !in s
  {
    if s == [] then None
    else if s[|s| - 1] == c then Some(|s| - 1)
    else
      var r := LastIndexOf(s[..|s| - 1], c);
      assert r.Some? ==> s[r.value + 1..] == s[..|s| - 1][r.value + 1..] + [s[|s| - 1]];
      r
  }

  /** `s` cut at its last `c`. */
  function SplitAtLast(s: string, c: char): Option<(string, string)>
  {
    var i :- LastIndexOf(s, c);
    Some((s[..i], s[i + 1..]))
  }

  /**
   * Reads a key back, taking the alternate, the reference and the start from
   * the right, so a chromosome name may itself contain `_`.
   */
  function ParseKey(key: string): Option<VariantId>
  {
    var (rest, alternate) :- SplitAtLast(key, '_');
    var (rest', reference) :- SplitAtLast(rest, '_');
    var (chromosome, start) :- SplitAtLast(rest', '_');
    var position :- ParseSignedDecimal(start);
    Some(VariantId(chromosome, position, reference, alternate))
  }

  lemma {:induction false} LastIndexOfAppend(p: string, c: char, t: string)
    requires c !in t
    ensures LastIndexOf(p + [c] + t, c) == Some(|p|)
  {
    var s := p + [c] + t;
    if t != [] {
      assert s[..|s| - 1] == p + [c] + t[..|t| - 1];
      assert t[|t| - 1] in t;
      LastIndexOfAppend(p, c, t[..|t| - 1]);
    }
  }

  lemma SplitAtLastAppend(p: string, c: char, t: string)
    requires c !in t
    ensures SplitAtLast(p + [c] + t, c) == Some((p, t))
  {
    LastIndexOfAppend(p, c, t);
    var s := p + [c] + t;
    assert s[..|p|] == p;
    assert s[|p| + 1..] == t;
  }

  /**
   * The key is a faithful encoding of the variant identity whenever the
   * alleles contain no `_` (chromosome names may).
   */
  lemma KeyRoundTrip(id: VariantId)
    requires '_' !in id.reference && '_' !in id.alternate
    ensures ParseKey(VariantKey(id)) == Some(id)
  {
    var s := IntToString(id.start);
    var r2 := id.chromosome + "_" + s;
    var r1 := r2 + "_" + id.reference;
    assert VariantKey(id) == r1 + "_" + id.alternate;
    SplitAtLastAppend(r1, '_', id.alternate);
    SplitAtLastAppend(r2, '_', id.reference);
    SplitAtLastAppend(id.chromosome, '_', s);
    IntToStringRoundTrip(id.start);
  }

  /** Two variants with `_`-free alleles share a key only when they share their identity. */
  lemma KeyInjective(a: VariantId, b: VariantId)
    requires '_' !in a.reference && '_' !in a.alternate
    requires '_' !in b.reference && '_' !in b.alternate
    requires VariantKey(a) == VariantKey(b)
    ensures a == b
  {
    KeyRoundTrip(a);
    KeyRoundTrip(b);
  }
}
