/** How a handler turns the request URL into a record id:
    `parseInt(req.url.split('/').pop())`. */
module Url {
  import opened Json

  /** `s.split('/').pop()`: the text after the last '/', or all of `s`
      when it has no '/'. */
  function LastSegment(s: string): (seg: string)
    ensures '/' !in seg
    ensures |seg| <= |s| && seg == s[|s| - |seg|..]
    ensures |seg| < |s| ==> s[|s| - |seg| - 1] == '/'
    decreases |s|
  {
    if s == [] then []
    else if s[|s| - 1] == '/' then []
    else
      var init := s[..|s| - 1];
      var pre := LastSegment(init);
      assert s[|s| - 1 - |pre|..] == init[|init| - |pre|..] + [s[|s| - 1]];
      pre + [s[|s| - 1]]
  }

  predicate IsDigit(c: char) {
    '0' <= c <= '9'
  }

  function DigitValue(c: char): (d: nat)
    requires IsDigit(c)
    ensures d < 10
  {
    (c as int) - ('0' as int)
  }

  function DigitChar(d: nat): (c: char)
    requires d < 10
    ensures IsDigit(c) && DigitValue(c) == d
  {
    (('0' as int) + d) as char
  }

  /** The longest prefix of `s` made of decimal digits. */
  function LeadingDigits(s: string): (p: string)
    ensures |p| <= |s| && p == s[..|p|]
    ensures forall i :: 0 <= i < |p| ==> IsDigit(p[i])
    ensures |p| < |s| ==> !IsDigit(s[|p|])
  {
    if s == [] || !IsDigit(s[0]) then [] else [s[0]] + LeadingDigits(s[1..])
  }

  /** The number a string of decimal digits denotes. */
  function DigitsValue(d: string): nat
    requires forall i :: 0 <= i < |d| ==> IsDigit(d[i])
  {
    if d == [] then 0 else 10 * DigitsValue(d[..|d| - 1]) + DigitValue(d[|d| - 1])
  }

  /** `s` without one leading '+' or '-'. */
  function Unsigned(s: string): (u: string)
    ensures u == s || (|s| > 0 && (s[0] == '+' || s[0] == '-') && u == s[1..])
  {
    if |s| > 0 && (s[0] == '+' || s[0] == '-') then s[1..] else s
  }

  /** `parseInt(s)` for a decimal string: an optional sign, then the
      leading digits; anything after them is ignored. None stands for
      NaN, the result when no digit follows the sign. */
  function ParseInt(s: string): (r: Option<int>)
    ensures r.None? <==> (Unsigned(s) == [] || !IsDigit(Unsigned(s)[0]))
    ensures r.Some? && |s| > 0 && s[0] == '-' ==> r.value <= 0
    ensures r.Some? && (|s| == 0 || s[0] != '-') ==> r.value >= 0
  {
    var digits := LeadingDigits(Unsigned(s));
    if digits == [] then None
    else
      var n: int := DigitsValue(digits);
      Some(if |s| > 0 && s[0] == '-' then -n else n)
  }

  /** The id a handler looks up for a request to `url`. */
  function IdFromUrl(url: string): (id: Option<int>)
    ensures (url == [] || url[|url| - 1] == '/') ==> id.None?
  {
    var seg := LastSegment(url);
    assert (url == [] || url[|url| - 1] == '/') ==> seg == [];
    ParseInt(seg)
  }

  /** A URL addresses an id exactly when its last segment starts with a
      digit, or with a sign followed by a digit; any other last segment
      (a word such as "status", an empty one) gives NaN. */
  lemma IdFromUrlDefined(url: string)
    ensures var seg := LastSegment(url);
            IdFromUrl(url).Some? <==> (|seg| > 0 && IsDigit(seg[0]))
                                      || (|seg| > 1 && (seg[0] == '+' || seg[0] == '-') && IsDigit(seg[1]))
  {
  }

  /** The decimal spelling of a natural number, without leading zeros. */
  function NatToString(n: nat): (s: string)
    ensures |s| > 0
    ensures forall i :: 0 <= i < |s| ==> IsDigit(s[i])
  {
    if n < 10 then [DigitChar(n)] else NatToString(n / 10) + [DigitChar(n % 10)]
  }

  /** The decimal spelling of an integer, as `String(n)` writes it. */
  function IntToString(n: int): (s: string)
    ensures |s| > 0 && '/' !in s
  {
    if n < 0 then "-" + NatToString(-n) else NatToString(n)
  }

  lemma {:induction false} NatToStringValue(n: nat)
    ensures DigitsValue(NatToString(n)) == n
  {
    if n >= 10 {
      var s := NatToString(n);
      assert s[..|s| - 1] == NatToString(n / 10);
      NatToStringValue(n / 10);
    }
  }

  /** Leading digits stop exactly at the first non-digit. */
  lemma {:induction false} LeadingDigitsOfDigitsThen(d: string, tail: string)
    requires forall i :: 0 <= i < |d| ==> IsDigit(d[i])
    requires tail == [] || !IsDigit(tail[0])
    ensures LeadingDigits(d + tail) == d
  {
    if d != [] {
      assert (d + tail)[1..] == d[1..] + tail;
      LeadingDigitsOfDigitsThen(d[1..], tail);
    }
  }

  /** parseInt reads back the integer written by IntToString, whatever non-digit
      text follows it (`parseInt("12abc")` is 12). */
  lemma ParseIntRoundTrip(n: int, tail: string)
    requires tail == [] || !IsDigit(tail[0])
    ensures ParseInt(IntToString(n) + tail) == Some(n)
  {
    var m: nat := if n < 0 then -n else n;
    var digits := NatToString(m);
    NatToStringValue(m);
    LeadingDigitsOfDigitsThen(digits, tail);
    var s := IntToString(n) + tail;
    if n < 0 {
      assert s == "-" + (digits + tail);
      assert Unsigned(s) == digits + tail;
    } else {
      assert s == digits + tail;
      assert Unsigned(s) == digits + tail;
    }
  }

  /** A request to `prefix/<n>` addresses id n, whatever comes before the
      last '/'. */
  lemma IdFromUrlOfPath(prefix: string, n: int)
    ensures IdFromUrl(prefix + "/" + IntToString(n)) == Some(n)
  {
    var url := prefix + "/" + IntToString(n);
    LastSegmentAfterSlash(prefix, IntToString(n));
    ParseIntRoundTrip(n, []);
    assert IntToString(n) + [] == IntToString(n);
  }

  /** The last segment of `prefix/seg` is `seg` when `seg` holds no '/'. */
  lemma {:induction false} LastSegmentAfterSlash(prefix: string, seg: string)
    requires '/' !in seg
    ensures LastSegment(prefix + "/" + seg) == seg
  {
    var s := prefix + "/" + seg;
    if seg != [] {
      assert s[..|s| - 1] == prefix + "/" + seg[..|seg| - 1];
      LastSegmentAfterSlash(prefix, seg[..|seg| - 1]);
      assert seg == seg[..|seg| - 1] + [seg[|seg| - 1]];
    }
  }
}
