/** String helpers the rendering rules rely on: JavaScript's decimal
    rendering of integers (`String(n)`, template literals) and
    `Array.prototype.join`. */
module Text {
  import opened Wrappers

  predicate IsDigit(c: char) {
    '0' <= c <= '9'
  }

  predicate AllDigits(s: string) {
    forall i :: 0 <= i < |s| ==> IsDigit(s[i])
  }

  function DigitChar(d: nat): (c: char)
    requires d < 10
    ensures IsDigit(c)
    ensures c as int - '0' as int == d
  {
    (d + '0' as int) as char
  }

  /** Decimal digits of a natural number, most significant first, without
      leading zeros. */
  function NatToDecimal(n: nat): (s: string)
    ensures 1 <= |s|
    ensures AllDigits(s)
    ensures |s| > 1 ==> s[0] != '0'
    decreases n
  {
    if n < 10 then [DigitChar(n)] else NatToDecimal(n / 10) + [DigitChar(n % 10)]
  }

  /** The number a string of decimal digits denotes: the inverse of
      NatToDecimal. */
  function DecimalValue(s: string): nat
    requires AllDigits(s)
  {
    if |s| == 0 then 0
    else DecimalValue(s[..|s| - 1]) * 10 + (s[|s| - 1] as int - '0' as int)
  }

  /** Reading back the digits of `n` gives `n`. */
  lemma {:induction false} DecimalRoundTrip(n: nat)
    ensures DecimalValue(NatToDecimal(n)) == n
  {
    var s := NatToDecimal(n);
    if n >= 10 {
      DecimalRoundTrip(n / 10);
      assert s[..|s| - 1] == NatToDecimal(n / 10);
    }
  }

  /** A character that can occur in `String(i)` for an integer `i`. */
  predicate IsNumeralChar(c: char) {
    IsDigit(c) || c == '-'
  }

  /** An optionally negated, non-empty run of decimal digits. */
  predicate IsNumeral(s: string) {
    || (|s| >= 1 && AllDigits(s))
    || (|s| >= 2 && s[0] == '-' && AllDigits(s[1..]))
  }

  /** A numeral as `String(i)` writes it: no leading zero, and no `-0`. */
  predicate IsCanonicalNumeral(s: string) {
    && IsNumeral(s)
    && (s[0] == '-' ==> s[1] != '0')
    && (s[0] != '-' && |s| > 1 ==> s[0] != '0')
  }

  /** The integer a numeral denotes. */
  function NumeralValue(s: string): int
    requires IsNumeral(s)
  {
    if s[0] == '-' then -(DecimalValue(s[1..]) as int) else DecimalValue(s)
  }

  /** `String(i)` for an integer-valued JavaScript number. */
  function IntToDecimal(i: int): (s: string)
    ensures IsCanonicalNumeral(s) && NumeralValue(s) == i
    ensures i >= 0 ==> AllDigits(s) && (|s| > 1 ==> s[0] != '0')
    ensures i < 0 ==> s[1] != '0'
    ensures forall k :: 0 <= k < |s| ==> IsNumeralChar(s[k])
  {
    DecimalRoundTrip(if i < 0 then -i else i);
    if i < 0 then "-" + NatToDecimal(-i) else NatToDecimal(i)
  }

  /** Length of the longest prefix of `s` made of numeral characters. */
  function NumeralRun(s: string): (n: nat)
    ensures n <= |s|
    ensures forall k :: 0 <= k < n ==> IsNumeralChar(s[k])
    ensures n < |s| ==> !IsNumeralChar(s[n])
  {
    if |s| == 0 || !IsNumeralChar(s[0]) then 0 else 1 + NumeralRun(s[1..])
  }

  /** Reads a canonical numeral followed by the fixed text `tag` off the
      front of `s`, giving the numeral's value and what follows the tag. */
  function ReadTagged(s: string, tag: string): Option<(int, string)>
  {
    var n := NumeralRun(s);
    if IsCanonicalNumeral(s[..n]) && n + |tag| <= |s| && s[n..n + |tag|] == tag
    then Some((NumeralValue(s[..n]), s[n + |tag|..]))
    else None
  }

  /** Reading back `String(i)` followed by a tag that starts with a
      non-numeral character gives `i` and the rest of the text. */
  lemma ReadTaggedRoundTrip(i: int, tag: string, rest: string)
    requires |tag| > 0 && !IsNumeralChar(tag[0])
    ensures ReadTagged(IntToDecimal(i) + tag + rest, tag) == Some((i, rest))
  {
    var num := IntToDecimal(i);
    var s := num + tag + rest;
    var n := NumeralRun(s);
    assert s[|num|] == tag[0];
    assert n == |num|;
    assert s[..n] == num;
    assert s[n..n + |tag|] == tag;
    assert s[n + |tag|..] == rest;
  }

  /** `parts.join(sep)`: the parts in order with `sep` between neighbours. */
  function Join(parts: seq<string>, sep: string): (r: string)
    ensures |parts| == 0 ==> r == ""
    ensures |parts| == 1 ==> r == parts[0]
    ensures |parts| >= 2 ==> parts[0] + sep <= r
  {
    if |parts| == 0 then ""
    else if |parts| == 1 then parts[0]
    else parts[0] + sep + Join(parts[1..], sep)
  }

  lemma JoinTwo(a: string, b: string, sep: string)
    ensures Join([a, b], sep) == a + sep + b
  {
    assert [a, b][1..] == [b];
  }
}
