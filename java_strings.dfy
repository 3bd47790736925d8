/**
 * The java.lang.String, Integer and Boolean operations the executor relies on,
 * with Java's own edge cases: `split` drops trailing empty pieces but returns the
 * whole input when the delimiter does not occur, `Integer.toString` renders a
 * minus sign and decimal digits, `Integer.valueOf` accepts an optional sign and
 * rejects values outside 32 bits.
 */
module JavaStrings {
  import opened Wrappers

  // ---------------------------------------------------------------------------
  // String.split with a one-character literal delimiter

  /** Position of the first `d` in `s`. */
  function IndexOf(s: string, d: char): (i: nat)
    requires d in s
    ensures i < |s| && s[i] == d && d !in s[..i]
  {
    if s[0] == d then 0 else 1 + IndexOf(s[1..], d)
  }

  /** Every piece between delimiters, empty ones included. */
  function RawSplit(s: string, d: char): (pieces: seq<string>)
    ensures |pieces| >= 1
    ensures forall k :: 0 <= k < |pieces| ==> d !in pieces[k]
    decreases |s|
  {
    if d !in s then [s]
    else
      var i := IndexOf(s, d);
      [s[..i]] + RawSplit(s[i + 1..], d)
  }

  /** The pieces glued back together with `d` between them. */
  function Join(pieces: seq<string>, d: char): string
  {
    if pieces == [] then ""
    else if |pieces| == 1 then pieces[0]
    else pieces[0] + [d] + Join(pieces[1..], d)
  }

  /** Drops empty pieces from the end (the `limit == 0` rule of Java's split). */
  function DropTrailingEmpty(pieces: seq<string>): (r: seq<string>)
    ensures |r| <= |pieces| && r == pieces[..|r|]
    ensures r != [] ==> r[|r| - 1] != ""
    ensures forall k :: |r| <= k < |pieces| ==> pieces[k] == ""
  {
    if pieces != [] && pieces[|pieces| - 1] == "" then DropTrailingEmpty(pieces[..|pieces| - 1])
    else pieces
  }

  /**
   * `s.split(d)` in Java. When `d` does not occur the result is `[s]`, even
   * for the empty string; otherwise trailing empty pieces are removed, so
   * `",".split(",")` is empty and `"a,b,".split(",")` is `["a", "b"]`.
   */
  function Split(s: string, d: char): (pieces: seq<string>)
    ensures d !in s ==> pieces == [s]
    ensures forall k :: 0 <= k < |pieces| ==> d !in pieces[k]
  {
    if d !in s then [s] else DropTrailingEmpty(RawSplit(s, d))
  }

  /** Joining the raw pieces gives back the string that was split. */
  lemma {:induction false} JoinRawSplit(s: string, d: char)
    ensures Join(RawSplit(s, d), d) == s
    decreases |s|
  {
    if d in s {
      var i := IndexOf(s, d);
      var rest := RawSplit(s[i + 1..], d);
      JoinRawSplit(s[i + 1..], d);
      assert RawSplit(s, d) == [s[..i]] + rest;
      assert s == s[..i] + [d] + s[i + 1..];
    }
  }

  /** The first delimiter of `p + [d] + t` is the one after `p` when `p` has none. */
  lemma {:induction false} IndexOfAfterPrefix(p: string, d: char, t: string)
    requires d !in p
    ensures IndexOf(p + [d] + t, d) == |p|
  {
    if p != [] {
      assert (p + [d] + t)[1..] == p[1..] + [d] + t;
      IndexOfAfterPrefix(p[1..], d, t);
    }
  }

  lemma RawSplitCons(p: string, d: char, t: string)
    requires d !in p
    ensures RawSplit(p + [d] + t, d) == [p] + RawSplit(t, d)
  {
    var s := p + [d] + t;
    assert s[|p|] == d;
    IndexOfAfterPrefix(p, d, t);
    assert s[..|p|] == p;
    assert s[|p| + 1..] == t;
  }

  /** Splitting a join of delimiter-free pieces gives back the pieces. */
  lemma {:induction false} RawSplitJoin(pieces: seq<string>, d: char)
    requires pieces != []
    requires forall k :: 0 <= k < |pieces| ==> d !in pieces[k]
    ensures RawSplit(Join(pieces, d), d) == pieces
  {
    if |pieces| > 1 {
      RawSplitCons(pieces[0], d, Join(pieces[1..], d));
      RawSplitJoin(pieces[1..], d);
      assert pieces == [pieces[0]] + pieces[1..];
    }
  }

  /**
   * Java's split inverts Join on delimiter-free pieces, provided the last
   * piece is not empty (and there are at least two, so a delimiter occurs).
   */
  lemma SplitJoin(pieces: seq<string>, d: char)
    requires |pieces| >= 2
    requires forall k :: 0 <= k < |pieces| ==> d !in pieces[k]
    requires pieces[|pieces| - 1] != ""
    ensures Split(Join(pieces, d), d) == pieces
  {
    var s := Join(pieces, d);
    RawSplitJoin(pieces, d);
    assert s == pieces[0] + [d] + Join(pieces[1..], d);
    assert s[|pieces[0]|] == d;
  }

  // ---------------------------------------------------------------------------
  // endsWith, toLowerCase, StringUtils.isBlank, Boolean.valueOf

  predicate EndsWith(s: string, suffix: string)
  {
    |suffix| <= |s| && s[|s| - |suffix|..] == suffix
  }

  /** Character.toLowerCase restricted to the ASCII letters. */
  function LowerChar(c: char): char
  {
    if 'A' <= c <= 'Z' then (c as int + 32) as char else c
  }

  function ToLowerCase(s: string): (r: string)
    ensures |r| == |s|
    ensures forall k :: 0 <= k < |s| ==> r[k] == LowerChar(s[k])
  {
    if s == [] then "" else [LowerChar(s[0])] + ToLowerCase(s[1..])
  }

  /**
   * Character.isWhitespace: the separators other than no-break spaces, and the
   * ASCII controls it names, as classified from Unicode 6.3 on (U+180E is not a separator).
   */
  predicate IsWhitespace(c: char)
  {
    ('\t' <= c <= '\r') || ('\U{1C}' <= c <= ' ')
    || c == '\U{1680}' || ('\U{2000}' <= c <= '\U{2006}') || ('\U{2008}' <= c <= '\U{200A}')
    || c == '\U{2028}' || c == '\U{2029}' || c == '\U{205F}' || c == '\U{3000}'
  }

  /** StringUtils.isNotBlank: present and not made of whitespace only. */
  predicate IsNotBlank(s: Option<string>)
  {
    s.Some? && exists k :: 0 <= k < |s.value| && !IsWhitespace(s.value[k])
  }

  /** Boolean.valueOf: true exactly for "true" in any letter case. */
  predicate BooleanValueOf(s: Option<string>)
  {
    s.Some? && ToLowerCase(s.value) == "true"
  }

  // ---------------------------------------------------------------------------
  // Integer.toString and Integer.valueOf

  predicate IsDigit(c: char) { '0' <= c <= '9' }

  predicate AllDigits(s: string) { forall k :: 0 <= k < |s| ==> IsDigit(s[k]) }

  function DigitChar(n: nat): (c: char)
    requires n < 10
    ensures IsDigit(c)
  {
    (n + 48) as char
  }

  function DigitValue(c: char): (n: nat)
    requires IsDigit(c)
    ensures n < 10
  {
    c as int - 48
  }

  /** Decimal digits of `n`, most significant first, without leading zeros. */
  function NatToDecimal(n: nat): (s: string)
    ensures |s| >= 1 && AllDigits(s)
    ensures |s| > 1 ==> s[0] != '0'
    decreases n
  {
    if n < 10 then [DigitChar(n)] else NatToDecimal(n / 10) + [DigitChar(n % 10)]
  }

  /** Integer.toString: a minus sign for negative values, then the digits. */
  function IntToString(n: int): (s: string)
    ensures |s| >= 1 && '_' !in s
  {
    if n < 0 then "-" + NatToDecimal(-n) else NatToDecimal(n)
  }

  /** The value of a string of decimal digits. */
  function DigitsValue(s: string): nat
    requires AllDigits(s)
  {
    if s == [] then 0 else DigitsValue(s[..|s| - 1]) * 10 + DigitValue(s[|s| - 1])
  }

  /** An optional `+` or `-` followed by one or more decimal digits, as an integer. */
  function ParseSignedDecimal(s: string): (r: Option<int>)
    ensures r.Some? ==> |s| >= 1
  {
    if |s| >= 2 && (s[0] == '-' || s[0] == '+') && AllDigits(s[1..]) then
      var magnitude: int := DigitsValue(s[1..]);
      Some(if s[0] == '-' then -magnitude else magnitude)
    else if |s| >= 1 && AllDigits(s) then Some(DigitsValue(s))
    else None
  }

  const IntMin: int := -0x8000_0000
  const IntMax: int := 0x7FFF_FFFF

  /** Integer.valueOf: a signed decimal that fits in 32 bits; None where Java throws NumberFormatException. */
  function ParseJavaInt(s: string): (r: Option<int>)
    ensures r.Some? ==> IntMin <= r.value <= IntMax
    ensures r.Some? ==> ParseSignedDecimal(s) == r
    ensures r.None? <==> ParseSignedDecimal(s).None? || !(IntMin <= ParseSignedDecimal(s).value <= IntMax)
  {
    match ParseSignedDecimal(s)
    case Some(v) => if IntMin <= v <= IntMax then Some(v) else None
    case None => None
  }

  lemma {:induction false} DigitsOfNat(n: nat)
    ensures DigitsValue(NatToDecimal(n)) == n
    decreases n
  {
    if n >= 10 {
      DigitsOfNat(n / 10);
      var s := NatToDecimal(n);
      assert s[..|s| - 1] == NatToDecimal(n / 10);
    }
  }

  /** Parsing undoes Integer.toString. */
  lemma IntToStringRoundTrip(n: int)
    ensures ParseSignedDecimal(IntToString(n)) == Some(n)
    ensures IntMin <= n <= IntMax ==> ParseJavaInt(IntToString(n)) == Some(n)
  {
    if n < 0 {
      DigitsOfNat(-n);
      assert IntToString(n)[1..] == NatToDecimal(-n);
    } else {
      DigitsOfNat(n);
    }
  }
}
