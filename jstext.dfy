/** The JavaScript string operations the pages rely on: `String.prototype.trim`,
    the global `parseInt` (no radix argument), `Number.prototype.toString` on
    non-negative integers, and the case-insensitive test for "na". */
module JsText {
  import opened Common

  /** ECMAScript WhiteSpace and LineTerminator code points, the set that
      `trim` strips and `parseInt` skips. */
  predicate IsSpace(c: char) {
    c == '\t' || c == '\n' || c == '\r' || c == '\U{000B}' || c == '\U{000C}' || c == ' '
    || c == '\U{00A0}' || c == '\U{1680}' || ('\U{2000}' <= c <= '\U{200A}')
    || c == '\U{2028}' || c == '\U{2029}' || c == '\U{202F}' || c == '\U{205F}'
    || c == '\U{3000}' || c == '\U{FEFF}'
  }

  /** A string that `trim` turns into "": every character is white space. */
  predicate IsBlank(s: string) {
    forall k :: 0 <= k < |s| ==> IsSpace(s[k])
  }

  /** `trimStart`: drops the leading white space. */
  function TrimStart(s: string): (r: string)
    ensures |r| <= |s| && r == s[|s| - |r|..]
    ensures r == [] || !IsSpace(r[0])
    ensures IsBlank(s[..|s| - |r|])
  {
    if s != [] && IsSpace(s[0]) then
      var t := TrimStart(s[1..]);
      assert s[1..][..|s| - 1 - |t|] == s[1..|s| - |t|];
      t
    else s
  }

  /** `trimEnd`: drops the trailing white space. */
  function TrimEnd(s: string): (r: string)
    ensures |r| <= |s| && r == s[..|r|]
    ensures r == [] || !IsSpace(r[|r| - 1])
    ensures IsBlank(s[|r|..])
  {
    if s != [] && IsSpace(s[|s| - 1]) then
      var t := TrimEnd(s[..|s| - 1]);
      assert s[|t|..] == s[..|s| - 1][|t|..] + [s[|s| - 1]];
      t
    else s
  }

  /** `String.prototype.trim`. */
  function Trim(s: string): string {
    TrimEnd(TrimStart(s))
  }

  /** `!s.trim()` is exactly "only white space". */
  lemma TrimEmptyIffBlank(s: string)
    ensures Trim(s) == "" <==> IsBlank(s)
  {
  }

  /** What `trim` returns starts and ends with a non-space, so trimming twice is trimming once. */
  lemma TrimIdempotent(s: string)
    ensures Trim(Trim(s)) == Trim(s)
    ensures Trim(s) == [] || (!IsSpace(Trim(s)[0]) && !IsSpace(Trim(s)[|Trim(s)| - 1]))
  {
    var t := TrimStart(s);
    var u := TrimEnd(t);
    if u != [] {
      assert u[0] == t[0];
      assert TrimStart(u) == u;
    }
  }

  /** `s.toLowerCase() === 'na'`, equally `s.toUpperCase() === 'NA'`: no other
      string maps onto these two letters under Unicode case conversion. */
  predicate IsNaAnyCase(s: string) {
    |s| == 2 && (s[0] == 'n' || s[0] == 'N') && (s[1] == 'a' || s[1] == 'A')
  }

  /** The digit value `parseInt` gives a character: 0-9, then letters as 10-35. */
  function DigitValue(c: char): (d: int)
    ensures -1 <= d < 36
  {
    if '0' <= c <= '9' then c as int - '0' as int
    else if 'a' <= c <= 'z' then c as int - 'a' as int + 10
    else if 'A' <= c <= 'Z' then c as int - 'A' as int + 10
    else -1
  }

  predicate IsDigit(c: char, radix: nat) {
    0 <= DigitValue(c) < radix
  }

  /** The longest prefix of radix digits. */
  function DigitPrefix(s: string, radix: nat): (r: string)
    ensures |r| <= |s| && r == s[..|r|]
    ensures forall k :: 0 <= k < |r| ==> IsDigit(r[k], radix)
    ensures |r| < |s| ==> !IsDigit(s[|r|], radix)
  {
    if s != [] && IsDigit(s[0], radix) then
      var t := DigitPrefix(s[1..], radix);
      assert forall k :: 0 < k < |t| + 1 ==> ([s[0]] + t)[k] == t[k - 1];
      [s[0]] + t
    else []
  }

  lemma MulNat(a: nat, b: nat)
    ensures a * b >= 0
  {
  }

  /** The number a digit string denotes in base `radix`. */
  function DigitsValue(d: string, radix: nat): nat
    requires forall k :: 0 <= k < |d| ==> IsDigit(d[k], radix)
  {
    if d == [] then 0
    else
      var init := d[..|d| - 1];
      assert forall k :: 0 <= k < |init| ==> init[k] == d[k];
      var high: nat := DigitsValue(init, radix);
      assert IsDigit(d[|d| - 1], radix);
      var low: nat := DigitValue(d[|d| - 1]);
      MulNat(high, radix);
      high * radix + low
  }

  /** The global `parseInt(s)` without a radix: skip leading white space, take
      an optional sign, switch to base 16 after "0x" or "0X", read the longest
      run of digits; `None` stands for `NaN` (no digit at all). */
  function ParseInt(s: string): Option<int> {
    var t := TrimStart(s);
    var negative := |t| > 0 && t[0] == '-';
    var u := if |t| > 0 && (t[0] == '-' || t[0] == '+') then t[1..] else t;
    var hex := |u| >= 2 && u[0] == '0' && (u[1] == 'x' || u[1] == 'X');
    var radix := if hex then 16 else 10;
    var digits := DigitPrefix(if hex then u[2..] else u, radix);
    if digits == [] then None
    else
      var v: int := DigitsValue(digits, radix);
      Some(if negative then -v else v)
  }

  function DecimalDigit(d: nat): (c: char)
    requires d < 10
    ensures IsDigit(c, 10) && DigitValue(c) == d
  {
    ('0' as int + d) as char
  }

  /** `n.toString()` for a non-negative integer: its decimal digits, no leading zero. */
  function NatToString(n: nat): (r: string)
    ensures |r| >= 1
    ensures forall k :: 0 <= k < |r| ==> IsDigit(r[k], 10)
    ensures |r| > 1 ==> r[0] != '0'
    ensures DigitsValue(r, 10) == n
  {
    if n < 10 then [DecimalDigit(n)]
    else
      var r := NatToString(n / 10) + [DecimalDigit(n % 10)];
      assert r[..|r| - 1] == NatToString(n / 10);
      r
  }

  lemma DigitIsNotSpace(c: char)
    requires IsDigit(c, 10)
    ensures !IsSpace(c) && c != '-' && c != '+' && c != 'x' && c != 'X'
  {
  }

  lemma {:induction false} DigitPrefixOfDigits(s: string)
    requires forall k :: 0 <= k < |s| ==> IsDigit(s[k], 10)
    ensures DigitPrefix(s, 10) == s
  {
    if s != [] {
      DigitPrefixOfDigits(s[1..]);
    }
  }

  /** `parseInt` reads back what `toString` wrote. */
  lemma ParseIntOfNatToString(n: nat)
    ensures ParseInt(NatToString(n)) == Some(n)
  {
    var s := NatToString(n);
    DigitIsNotSpace(s[0]);
    assert TrimStart(s) == s;
    assert !(|s| >= 2 && s[0] == '0');
    DigitPrefixOfDigits(s);
    assert DigitPrefix(s, 10) == s;
  }

  /** Two naturals print alike only if they are equal. */
  lemma NatToStringInjective(m: nat, n: nat)
    ensures NatToString(m) == NatToString(n) ==> m == n
  {
    if NatToString(m) == NatToString(n) {
      ParseIntOfNatToString(m);
      ParseIntOfNatToString(n);
    }
  }
}
