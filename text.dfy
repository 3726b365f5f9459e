/**
 * Byte-string helpers with PHP's semantics: strpos/str_contains, ASCII
 * case folding (strtolower, strtoupper, stripos), substr clamping, bin2hex,
 * decimal rendering of integers, and the PCRE character classes the
 * heuristics use.
 */
module Text {

  // ---------------------------------------------------------------- search

  /** `p` occurs in `s` at offset `i`. */
  predicate OccursAt(s: string, p: string, i: int) {
    0 <= i && i + |p| <= |s| && s[i..i + |p|] == p
  }

  /** strpos($s, $p) !== false */
  predicate Contains(s: string, p: string) {
    exists i | 0 <= i <= |s| - |p| :: OccursAt(s, p, i)
  }

  /** str_starts_with($s, $p) */
  predicate StartsWith(s: string, p: string) {
    |p| <= |s| && s[..|p|] == p
  }

  lemma ContainsWitness(s: string, p: string, i: int)
    requires OccursAt(s, p, i)
    ensures Contains(s, p)
  {
  }

  // ---------------------------------------------------------- case folding

  /** ASCII-only lowering, as strtolower in PHP 8.2 and PCRE's /i without /u. */
  function LowerChar(c: char): char {
    if 'A' <= c <= 'Z' then (c as int + 32) as char else c
  }

  function UpperChar(c: char): char {
    if 'a' <= c <= 'z' then (c as int - 32) as char else c
  }

  function Lower(s: string): (r: string)
    ensures |r| == |s| && forall i :: 0 <= i < |s| ==> r[i] == LowerChar(s[i])
  {
    seq(|s|, i requires 0 <= i < |s| => LowerChar(s[i]))
  }

  function Upper(s: string): (r: string)
    ensures |r| == |s| && forall i :: 0 <= i < |s| ==> r[i] == UpperChar(s[i])
  {
    seq(|s|, i requires 0 <= i < |s| => UpperChar(s[i]))
  }

  /** stripos($s, $p) !== false, and preg_match('/p/i') for a literal p */
  predicate ContainsCI(s: string, p: string) {
    Contains(Lower(s), Lower(p))
  }

  /** Lowering commutes with slicing, so an occurrence in `s` is one in Lower(s). */
  lemma LowerSlice(s: string, a: int, b: int)
    requires 0 <= a <= b <= |s|
    ensures Lower(s)[a..b] == Lower(s[a..b])
  {
  }

  /** A case-sensitive occurrence of `p` in `s` is also a case-insensitive one. */
  lemma ContainsIsContainsCI(s: string, p: string)
    requires Contains(s, p)
    ensures ContainsCI(s, p)
  {
    var i :| 0 <= i <= |s| - |p| && OccursAt(s, p, i);
    LowerSlice(s, i, i + |p|);
    ContainsWitness(Lower(s), Lower(p), i);
  }

  // ---------------------------------------------------------------- substr

  /** substr($s, 0, $n) for $n >= 0 */
  function Take(s: string, n: nat): (r: string)
    ensures |r| == if n <= |s| then n else |s|
    ensures r == s[..|r|]
  {
    if n <= |s| then s[..n] else s
  }

  /** substr($s, $n) for $n >= 0 (PHP 8 returns "" past the end) */
  function Drop(s: string, n: nat): (r: string)
    ensures |r| == if n <= |s| then |s| - n else 0
    ensures Take(s, n) + r == s
  {
    if n <= |s| then s[n..] else ""
  }

  // ------------------------------------------------------------- hex, ints

  /** Lower-case hexadecimal digits, as bin2hex and hash() emit them. */
  predicate IsLowerHexChar(c: char) {
    '0' <= c <= '9' || 'a' <= c <= 'f'
  }

  predicate IsLowerHex(s: string) {
    forall i :: 0 <= i < |s| ==> IsLowerHexChar(s[i])
  }

  function HexDigit(n: int): (c: char)
    requires 0 <= n < 16
    ensures IsLowerHexChar(c)
  {
    if n < 10 then ('0' as int + n) as char else ('a' as int + n - 10) as char
  }

  /** bin2hex: each byte (char code taken modulo 256) becomes two lower-case hex digits. */
  function Bin2Hex(s: string): (r: string)
    ensures |r| == 2 * |s|
    ensures IsLowerHex(r)
  {
    if s == [] then ""
    else
      var b := s[0] as int % 256;
      [HexDigit(b / 16), HexDigit(b % 16)] + Bin2Hex(s[1..])
  }

  /** bin2hex of two equally long byte strings (bytes below 256) is equal only for equal inputs. */
  lemma {:induction false} Bin2HexInjective(a: string, b: string)
    requires |a| == |b| && Bin2Hex(a) == Bin2Hex(b)
    requires forall i :: 0 <= i < |a| ==> a[i] as int < 256 && b[i] as int < 256
    ensures a == b
  {
    if a != [] {
      var ha, hb := Bin2Hex(a), Bin2Hex(b);
      ByteFromHexPair(a[0], b[0], ha[0], ha[1], hb[0], hb[1]);
      assert ha[2..] == Bin2Hex(a[1..]) && hb[2..] == Bin2Hex(b[1..]);
      Bin2HexInjective(a[1..], b[1..]);
      assert a == [a[0]] + a[1..] && b == [b[0]] + b[1..];
    }
  }

  /** The two hex digits of a byte determine it. */
  lemma ByteFromHexPair(c: char, d: char, c1: char, c2: char, d1: char, d2: char)
    requires c as int < 256 && d as int < 256
    requires c1 == HexDigit(c as int % 256 / 16) && c2 == HexDigit(c as int % 256 % 16)
    requires d1 == HexDigit(d as int % 256 / 16) && d2 == HexDigit(d as int % 256 % 16)
    requires c1 == d1 && c2 == d2
    ensures c == d
  {
    var x, y := c as int % 256, d as int % 256;
    HexDigitInjective(x / 16, y / 16);
    HexDigitInjective(x % 16, y % 16);
    assert x == 16 * (x / 16) + x % 16 && y == 16 * (y / 16) + y % 16;
    assert c as int == x && d as int == y;
  }

  /**
   * prefix . bin2hex(random_bytes(16)): the shape shared by the generated
   * identifiers (dev_, doc_, bind_, zk_ and tk_).
   */
  function PrefixedHexId(prefix: string, randomBytes: string): (id: string)
    requires |randomBytes| == 16
    ensures |id| == |prefix| + 32 && StartsWith(id, prefix) && IsLowerHex(id[|prefix|..])
  {
    prefix + Bin2Hex(randomBytes)
  }

  /** Two identifiers with the same prefix are equal only when drawn from the same bytes. */
  lemma PrefixedHexIdInjective(prefix: string, a: string, b: string)
    requires |a| == 16 && |b| == 16
    requires forall i :: 0 <= i < 16 ==> a[i] as int < 256 && b[i] as int < 256
    ensures PrefixedHexId(prefix, a) == PrefixedHexId(prefix, b) <==> a == b
  {
    if PrefixedHexId(prefix, a) == PrefixedHexId(prefix, b) {
      assert PrefixedHexId(prefix, a)[|prefix|..] == Bin2Hex(a);
      assert PrefixedHexId(prefix, b)[|prefix|..] == Bin2Hex(b);
      Bin2HexInjective(a, b);
    }
  }

  lemma HexDigitInjective(m: int, n: int)
    requires 0 <= m < 16 && 0 <= n < 16 && HexDigit(m) == HexDigit(n)
    ensures m == n
  {
  }

  predicate IsDigit(c: char) {
    '0' <= c <= '9'
  }

  predicate AllDigits(s: string) {
    forall i :: 0 <= i < |s| ==> IsDigit(s[i])
  }

  /** Decimal rendering of an integer, as PHP's string conversion of an int. */
  function NatToString(n: nat): (r: string)
    ensures |r| >= 1 && AllDigits(r)
    decreases n
  {
    if n < 10 then [('0' as int + n) as char]
    else NatToString(n / 10) + [('0' as int + n % 10) as char]
  }

  function IntToString(n: int): (r: string)
    ensures |r| >= 1
  {
    if n < 0 then "-" + NatToString(-n) else NatToString(n)
  }

  /** Value of a decimal digit string. */
  function DecimalValue(s: string): (v: nat)
    requires AllDigits(s)
  {
    if s == [] then 0 else DecimalValue(s[..|s| - 1]) * 10 + (s[|s| - 1] as int - '0' as int)
  }

  const PHP_INT_MAX: int := 0x7FFF_FFFF_FFFF_FFFF

  /** intval on a digit string: the decimal value, saturated at PHP_INT_MAX. */
  function IntVal(s: string): (v: nat)
    requires AllDigits(s)
    ensures v <= PHP_INT_MAX
    ensures DecimalValue(s) <= PHP_INT_MAX ==> v == DecimalValue(s)
  {
    var d := DecimalValue(s);
    if d <= PHP_INT_MAX then d else PHP_INT_MAX
  }

  // ---------------------------------------------------------- PCRE classes

  /** PCRE's \s without /u: tab, LF, VT, FF, CR and space. */
  predicate IsSpace(c: char) {
    c == '\t' || c == '\n' || c == '\U{B}' || c == '\U{C}' || c == '\r' || c == ' '
  }

  /** End of the maximal run of \s starting at `j`. */
  function SkipSpaces(s: string, j: nat): (k: nat)
    requires j <= |s|
    ensures j <= k <= |s|
    ensures forall m :: j <= m < k ==> IsSpace(s[m])
    ensures k < |s| ==> !IsSpace(s[k])
    decreases |s| - j
  {
    if j < |s| && IsSpace(s[j]) then SkipSpaces(s, j + 1) else j
  }

  /** End of the maximal run of \d starting at `j`. */
  function SkipDigits(s: string, j: nat): (k: nat)
    requires j <= |s|
    ensures j <= k <= |s|
    ensures AllDigits(s[j..k])
    ensures k < |s| ==> !IsDigit(s[k])
    decreases |s| - j
  {
    if j < |s| && IsDigit(s[j]) then SkipDigits(s, j + 1) else j
  }

  /** Keep only the characters 0-9, as preg_replace("/\D/", '', $s). */
  function DigitsOnly(s: string): (r: string)
    ensures AllDigits(r) && |r| <= |s|
    ensures AllDigits(s) ==> r == s
  {
    if s == [] then ""
    else (if IsDigit(s[0]) then [s[0]] else []) + DigitsOnly(s[1..])
  }
}
