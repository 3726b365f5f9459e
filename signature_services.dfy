/**
 * SignatureServices: the stamp layout, the printed verification code, the
 * CPF/CNPJ and phone masks, and the accent stripping used on the stamp.
 * Strings are sequences of Unicode characters; the source's byte-level
 * str_replace on UTF-8 text replaces whole characters, as here.
 */
module SignatureServices {
  import opened Wrappers
  import opened Text
  import opened Sequences

  // ------------------------------------------------------------- layout

  /** compact('qrX', 'qrY', 'textX', 'textY') */
  datatype Layout = Layout(qrX: real, qrY: real, textX: real, textY: real)

  /** generatePosition: the switch on the position name, with a default for any other name. */
  function GeneratePosition(position: string, pageWidth: real, pageHeight: real, qrWidth: real, qrHeight: real,
                            textWidth: real): (l: Layout)
    ensures l.textX == l.qrX + qrWidth + 5.0
    ensures l.qrX == if position == "right" then pageWidth - qrWidth - textWidth - 15.0 else 10.0
  {
    if position == "footer" then
      var qrX := 10.0; var qrY := pageHeight - qrHeight - 400.0;
      Layout(qrX, qrY, qrX + qrWidth + 5.0, qrY)
    else if position == "header" then
      var qrX := 10.0; var qrY := 20.0;
      Layout(qrX, qrY, qrX + qrWidth + 5.0, qrY + 2.0)
    else if position == "left" then
      var qrX := 10.0; var qrY := (pageHeight - qrHeight) / 2.0;
      Layout(qrX, qrY, qrX + qrWidth + 5.0, qrY)
    else if position == "right" then
      var qrX := pageWidth - qrWidth - textWidth - 15.0; var qrY := (pageHeight - qrHeight) / 2.0;
      Layout(qrX, qrY, qrX + qrWidth + 5.0, qrY)
    else
      var qrX := 10.0; var qrY := pageHeight - qrHeight - 20.0;
      Layout(qrX, qrY, qrX + qrWidth + 5.0, qrY + 2.0)
  }

  /**
   * The text always starts 5 past the right edge of the QR code, left and
   * right centre the code vertically, and every unknown name lays out as
   * the default: 20 above the bottom with the text 2 lower.
   */
  lemma PositionFacts(position: string, pageWidth: real, pageHeight: real, qrWidth: real, qrHeight: real,
                      textWidth: real)
    ensures var l := GeneratePosition(position, pageWidth, pageHeight, qrWidth, qrHeight, textWidth);
      && (position == "left" || position == "right" ==> l.qrY == (pageHeight - qrHeight) / 2.0 && l.textY == l.qrY)
      && (position !in {"footer", "header", "left", "right"} ==>
            l == Layout(10.0, pageHeight - qrHeight - 20.0, 15.0 + qrWidth, pageHeight - qrHeight - 18.0))
      && (position == "right" ==> l.textX + textWidth + 10.0 == pageWidth)
  {
  }

  // ------------------------------------------------------------- code

  /** str_pad(rand(10, 99), 2, '0', STR_PAD_LEFT) . chr(rand(65, 90)), three times, joined by '-'. */
  function RandomCode(n1: int, c1: int, n2: int, c2: int, n3: int, c3: int): (code: string)
    requires 10 <= n1 <= 99 && 10 <= n2 <= 99 && 10 <= n3 <= 99
    requires 65 <= c1 <= 90 && 65 <= c2 <= 90 && 65 <= c3 <= 90
    ensures |code| == 11 && code[3] == '-' && code[7] == '-'
    ensures forall k :: k in {0, 1, 4, 5, 8, 9} ==> IsDigit(code[k])
    ensures forall k :: k in {2, 6, 10} ==> 'A' <= code[k] <= 'Z'
  {
    Group(n1, c1) + "-" + Group(n2, c2) + "-" + Group(n3, c3)
  }

  function Group(n: int, c: int): (g: string)
    requires 10 <= n <= 99 && 65 <= c <= 90
    ensures |g| == 3 && IsDigit(g[0]) && IsDigit(g[1]) && 'A' <= g[2] <= 'Z'
    ensures DecimalValue(g[..2]) == n && g[2] as int == c
  {
    var hi, lo := ('0' as int + n / 10) as char, ('0' as int + n % 10) as char;
    assert NatToString(n / 10) == [hi];
    assert NatToString(n) == [hi, lo];
    var g := [hi, lo, c as char];
    assert g[..2] == [hi, lo] && [hi, lo][..1] == [hi] && [hi][..0] == [];
    assert DecimalValue([hi]) == n / 10;
    assert DecimalValue([hi, lo]) == n / 10 * 10 + n % 10;
    g
  }

  /** The code gives its six draws back: each pair of digits reads as its number and each letter as its code. */
  lemma RandomCodeDraws(n1: int, c1: int, n2: int, c2: int, n3: int, c3: int)
    requires 10 <= n1 <= 99 && 10 <= n2 <= 99 && 10 <= n3 <= 99
    requires 65 <= c1 <= 90 && 65 <= c2 <= 90 && 65 <= c3 <= 90
    ensures var code := RandomCode(n1, c1, n2, c2, n3, c3);
      && DecimalValue(code[0..2]) == n1 && code[2] as int == c1
      && DecimalValue(code[4..6]) == n2 && code[6] as int == c2
      && DecimalValue(code[8..10]) == n3 && code[10] as int == c3
  {
    var g1, g2, g3 := Group(n1, c1), Group(n2, c2), Group(n3, c3);
    var code := RandomCode(n1, c1, n2, c2, n3, c3);
    assert code == g1 + "-" + g2 + "-" + g3;
    assert code[0..2] == g1[..2];
    assert code[4..6] == g2[..2];
    assert code[8..10] == g3[..2];
  }

  // ------------------------------------------------------------- masks

  /** The 11-digit CPF mask ddd.ddd.ddd-dd. */
  function CpfMask(d: string): (r: string)
    requires |d| == 11
    ensures |r| == 14 && r[3] == '.' && r[7] == '.' && r[11] == '-'
  {
    d[0..3] + "." + d[3..6] + "." + d[6..9] + "-" + d[9..11]
  }

  /** The 14-digit CNPJ mask dd.ddd.ddd/dddd-dd. */
  function CnpjMask(d: string): (r: string)
    requires |d| == 14
    ensures |r| == 18 && r[2] == '.' && r[6] == '.' && r[10] == '/' && r[15] == '-'
  {
    d[0..2] + "." + d[2..5] + "." + d[5..8] + "/" + d[8..12] + "-" + d[12..14]
  }

  /** preg_replace of the CNPJ pattern on a digit string: every full 14-digit block from the left is masked. */
  function CnpjBlocks(d: string): string
    decreases |d|
  {
    if |d| >= 14 then CnpjMask(d[..14]) + CnpjBlocks(d[14..]) else d
  }

  /** formataCnpjCpf */
  function FormataCnpjCpf(value: string): string {
    var digits := DigitsOnly(value);
    if |digits| == 11 then CpfMask(digits) else CnpjBlocks(digits)
  }

  /**
   * Non-digits go first; 11 digits print as a CPF, 14 as a CNPJ, and every
   * other count under 14 as the bare digits.
   */
  lemma CnpjCpfShapes(value: string)
    ensures var d := DigitsOnly(value);
      && (|d| == 11 ==> FormataCnpjCpf(value) == d[0..3] + "." + d[3..6] + "." + d[6..9] + "-" + d[9..11])
      && (|d| == 14 ==> FormataCnpjCpf(value) == d[0..2] + "." + d[2..5] + "." + d[5..8] + "/" + d[8..12] + "-" + d[12..14])
      && (|d| < 14 && |d| != 11 ==> FormataCnpjCpf(value) == d)
  {
    var d := DigitsOnly(value);
    if |d| == 14 {
      assert d[..14] == d;
      assert CnpjBlocks(d[14..]) == "";
    }
  }

  /** The mask only inserts separators: its digits are the input's digits, in order. */
  lemma CnpjCpfKeepsDigits(value: string)
    ensures DigitsOnly(FormataCnpjCpf(value)) == DigitsOnly(value)
  {
    var d := DigitsOnly(value);
    if |d| == 11 {
      CpfMaskDigits(d);
    } else {
      CnpjBlocksDigits(d);
    }
  }

  /** A separator and a run of digits appended keep their digits only. */
  lemma SepThenDigits(x: string, sep: string, y: string)
    requires |sep| == 1 && !IsDigit(sep[0]) && AllDigits(y)
    ensures DigitsOnly(x + sep + y) == DigitsOnly(x) + y
  {
    assert DigitsOnly(sep) == "" by {
      assert sep[1..] == "";
    }
    DigitsOnlyConcat(x, sep);
    DigitsOnlyConcat(x + sep, y);
  }

  lemma CpfMaskDigits(d: string)
    requires |d| == 11 && AllDigits(d)
    ensures DigitsOnly(CpfMask(d)) == d
  {
    var a, b, c, e := d[0..3], d[3..6], d[6..9], d[9..11];
    SepThenDigits(a, ".", b);
    SepThenDigits(a + "." + b, ".", c);
    SepThenDigits(a + "." + b + "." + c, "-", e);
    assert d == a + b + c + e;
  }

  lemma CnpjMaskDigits(d: string)
    requires |d| == 14 && AllDigits(d)
    ensures DigitsOnly(CnpjMask(d)) == d
  {
    var a, b, c, f, e := d[0..2], d[2..5], d[5..8], d[8..12], d[12..14];
    SepThenDigits(a, ".", b);
    SepThenDigits(a + "." + b, ".", c);
    SepThenDigits(a + "." + b + "." + c, "/", f);
    SepThenDigits(a + "." + b + "." + c + "/" + f, "-", e);
    assert d == a + b + c + f + e;
  }

  lemma {:induction false} CnpjBlocksDigits(d: string)
    requires AllDigits(d)
    ensures DigitsOnly(CnpjBlocks(d)) == d
    decreases |d|
  {
    if |d| >= 14 {
      CnpjMaskDigits(d[..14]);
      CnpjBlocksDigits(d[14..]);
      DigitsOnlyConcat(CnpjMask(d[..14]), CnpjBlocks(d[14..]));
      assert d == d[..14] + d[14..];
    }
  }

  lemma {:induction false} DigitsOnlyConcat(a: string, b: string)
    ensures DigitsOnly(a + b) == DigitsOnly(a) + DigitsOnly(b)
    decreases |a|
  {
    if a != [] {
      assert (a + b)[1..] == a[1..] + b;
      DigitsOnlyConcat(a[1..], b);
    } else {
      assert a + b == b;
    }
  }

  /** The 11-digit mobile mask (dd) ddddd.dddd. */
  function MobileMask(d: string): (r: string)
    requires |d| == 11
    ensures |r| == 15 && r[0] == '(' && r[3] == ')' && r[4] == ' ' && r[10] == '.'
  {
    "(" + d[0..2] + ") " + d[2..7] + "." + d[7..11]
  }

  /** The 10-digit landline mask (dd) dddd.dddd. */
  function LandlineMask(d: string): (r: string)
    requires |d| == 10
    ensures |r| == 14 && r[0] == '(' && r[3] == ')' && r[4] == ' ' && r[9] == '.'
  {
    "(" + d[0..2] + ") " + d[2..6] + "." + d[6..10]
  }

  /** preg_replace of the landline pattern on a digit string: every full 10-digit block from the left is masked. */
  function LandlineBlocks(d: string): string
    decreases |d|
  {
    if |d| >= 10 then LandlineMask(d[..10]) + LandlineBlocks(d[10..]) else d
  }

  /** formataTelefone */
  function FormataTelefone(value: string): string {
    var digits := DigitsOnly(value);
    if |digits| == 11 then MobileMask(digits) else LandlineBlocks(digits)
  }

  /** 11 digits print as a mobile number, 10 as a landline, fewer as the bare digits. */
  lemma TelefoneShapes(value: string)
    ensures var d := DigitsOnly(value);
      && (|d| == 11 ==> FormataTelefone(value) == "(" + d[0..2] + ") " + d[2..7] + "." + d[7..11])
      && (|d| == 10 ==> FormataTelefone(value) == "(" + d[0..2] + ") " + d[2..6] + "." + d[6..10])
      && (|d| < 10 ==> FormataTelefone(value) == d)
  {
    var d := DigitsOnly(value);
    if |d| == 10 {
      assert d[..10] == d;
      assert LandlineBlocks(d[10..]) == "";
    }
  }

  // ------------------------------------------------------------ accents

  /** $aSaida: 26 accented letters, then space, '(', ')' and '.'. */
  const ACCENTED: seq<char> := ['á', 'à', 'ã', 'â', 'é', 'ê', 'í', 'ó', 'ô', 'õ', 'ú', 'ü', 'ç',
                                'Á', 'À', 'Ã', 'Â', 'É', 'Ê', 'Í', 'Ó', 'Ô', 'Õ', 'Ú', 'Ü', 'Ç', ' ', '(', ')', '.']

  /** The first 26 characters of $entrada. */
  const PLAIN: string := "aaaaeeiooouucAAAAEEIOOOUUC"

  /** $entrada: the plain letters, then the spacer ('_' when none is given). */
  function Entrada(espaco: Option<string>): (e: string)
    ensures |e| == 26 + |espaco.GetOr("_")|
  {
    PLAIN + espaco.GetOr("_")
  }

  /** str_replace of one character by another. */
  function ReplaceChar(s: string, from: char, to: char): (r: string)
    ensures |r| == |s| && forall k :: 0 <= k < |s| ==> r[k] == (if s[k] == from then to else s[k])
  {
    seq(|s|, k requires 0 <= k < |s| => if s[k] == from then to else s[k])
  }

  /** The string after the first `n` turns of the for loop. */
  function Replaced(s: string, entrada: string, n: nat): string
    requires n <= |entrada| && n <= |ACCENTED|
  {
    if n == 0 then s else ReplaceChar(Replaced(s, entrada, n - 1), ACCENTED[n - 1], entrada[n - 1])
  }

  /** What the loop does to one character, with a one-character spacer. */
  function StripChar(c: char, spacer: char): char {
    if c in ACCENTED[..26] then PLAIN[IndexOf(ACCENTED[..26], c)]
    else if c == ' ' then spacer
    else c
  }

  /**
   * With a one-character spacer the loop is one character map: the 26
   * accented letters become plain, spaces become the spacer, and every
   * other character, '(' ')' and '.' among them, stays.
   */
  lemma {:induction false} OneCharSpacer(s: string, spacer: char, n: nat)
    requires n <= 27
    ensures var r := Replaced(s, PLAIN + [spacer], n);
      |r| == |s| && forall k :: 0 <= k < |s| ==> r[k] == StripPartial(s[k], spacer, n)
  {
    if n > 0 {
      OneCharSpacer(s, spacer, n - 1);
    }
  }

  /** The character map of the first `n` turns. */
  function StripPartial(c: char, spacer: char, n: nat): char
    requires n <= 27
  {
    if n == 0 then c
    else
      var prev := StripPartial(c, spacer, n - 1);
      if prev == ACCENTED[n - 1] then (PLAIN + [spacer])[n - 1] else prev
  }

  /** No plain letter of the map is one of the 26 accented letters. */
  lemma PlainNotAccented()
    ensures forall j, m :: 0 <= j < 26 && 0 <= m < 26 ==> PLAIN[j] != ACCENTED[m]
  {
    assert forall j :: 0 <= j < 26 ==> 'A' <= PLAIN[j] <= 'z';
    assert forall m :: 0 <= m < 26 ==> ACCENTED[m] as int >= 0xC0;
  }

  /** The first 26 turns map an accented letter to its plain letter by its first position in the list. */
  lemma {:induction false} StripPartialAccents(c: char, spacer: char, n: nat)
    requires n <= 26
    ensures StripPartial(c, spacer, n) == if c in ACCENTED[..n] then PLAIN[IndexOf(ACCENTED[..n], c)] else c
  {
    if n > 0 {
      StripPartialAccents(c, spacer, n - 1);
      assert ACCENTED[..n] == ACCENTED[..n - 1] + [ACCENTED[n - 1]];
      PlainNotAccented();
      if c in ACCENTED[..n] {
        IndexOfSnoc(ACCENTED[..n - 1], ACCENTED[n - 1], c);
      }
    }
  }

  /** Running all 27 turns on one character is StripChar. */
  lemma StripPartialIsStripChar(c: char, spacer: char)
    ensures StripPartial(c, spacer, 27) == StripChar(c, spacer)
  {
    StripPartialAccents(c, spacer, 26);
    assert forall j :: 0 <= j < 26 ==> PLAIN[j] != ' ' by {
      assert forall j :: 0 <= j < 26 ==> 'A' <= PLAIN[j] <= 'z';
    }
    assert ACCENTED[26] == ' ';
  }

  /** PHP trim's default list: space, tab, LF, CR, NUL and vertical tab. */
  predicate IsTrimChar(c: char) {
    c == ' ' || c == '\t' || c == '\n' || c == '\r' || c == '\0' || c == '\U{B}'
  }

  /** First position at or after `i` that holds no trim character. */
  function SkipTrim(s: string, i: nat): (k: nat)
    requires i <= |s|
    ensures i <= k <= |s| && (k < |s| ==> !IsTrimChar(s[k]))
    decreases |s| - i
  {
    if i < |s| && IsTrimChar(s[i]) then SkipTrim(s, i + 1) else i
  }

  /** Last end position, down to `lo`, that follows no trim character. */
  function BackTrim(s: string, lo: nat, j: nat): (k: nat)
    requires lo <= j <= |s|
    ensures lo <= k <= j && (k > lo ==> !IsTrimChar(s[k - 1]))
    decreases j
  {
    if j > lo && IsTrimChar(s[j - 1]) then BackTrim(s, lo, j - 1) else j
  }

  /** trim: drop trim characters from both ends. */
  function Trim(s: string): (r: string)
    ensures |r| <= |s|
    ensures r != [] ==> !IsTrimChar(r[0]) && !IsTrimChar(r[|r| - 1])
    ensures forall k :: 0 <= k < |r| ==> r[k] in s
  {
    var a := SkipTrim(s, 0);
    var b := BackTrim(s, a, |s|);
    assert forall k :: 0 <= k < b - a ==> s[a..b][k] == s[a + k];
    s[a..b]
  }

  /** The /ui accent classes after strtolower: each folds, upper or lower case, to its plain letter. */
  function FoldAccent(c: char): char {
    if c == 'á' || c == 'à' || c == 'ã' || c == 'â' || c == 'ä'
       || c == 'Á' || c == 'À' || c == 'Ã' || c == 'Â' || c == 'Ä' then 'a'
    else if c == 'é' || c == 'è' || c == 'ê' || c == 'ë' || c == 'É'
       || c == 'È' || c == 'Ê' || c == 'Ë' then 'e'
    else if c == 'í' || c == 'ì' || c == 'î' || c == 'ï' || c == 'Í'
       || c == 'Ì' || c == 'Î' || c == 'Ï' then 'i'
    else if c == 'ó' || c == 'ò' || c == 'õ' || c == 'ô' || c == 'ö'
       || c == 'Ó' || c == 'Ò' || c == 'Õ' || c == 'Ô' || c == 'Ö' then 'o'
    else if c == 'ú' || c == 'ù' || c == 'û' || c == 'ü' || c == 'Ú'
       || c == 'Ù' || c == 'Û' || c == 'Ü' then 'u'
    else if c == 'ç' || c == 'Ç' then 'c'
    else c
  }

  function FoldAccents(s: string): (r: string)
    ensures |r| == |s| && forall k :: 0 <= k < |s| ==> r[k] == FoldAccent(s[k])
  {
    seq(|s|, k requires 0 <= k < |s| => FoldAccent(s[k]))
  }

  /** strtolower, the six preg_replace calls, strtoupper, trim and strtoupper again. */
  function Finish(s: string): string {
    Upper(Trim(Upper(FoldAccents(Lower(s)))))
  }

  /** A character with nothing left to fold and no ASCII lower-case letter. */
  predicate Settled(c: char) {
    FoldAccent(c) == c && !('a' <= c <= 'z')
  }

  /** A character after lowering, folding and raising has nothing left to fold. */
  lemma FinishedChar(c: char)
    ensures Settled(UpperChar(FoldAccent(LowerChar(c))))
  {
  }

  /** The finished text has no ASCII lower-case letter, no listed accent and no trim character at either end. */
  lemma FinishFacts(s: string)
    ensures var r := Finish(s);
      && (forall k :: 0 <= k < |r| ==> !('a' <= r[k] <= 'z') && FoldAccent(r[k]) == r[k])
      && (r != [] ==> !IsTrimChar(r[0]) && !IsTrimChar(r[|r| - 1]))
  {
    var u := Upper(FoldAccents(Lower(s)));
    forall j | 0 <= j < |u|
      ensures Settled(u[j])
    {
      FinishedChar(s[j]);
    }
    var t := Trim(u);
    forall k | 0 <= k < |t|
      ensures Settled(t[k]) && UpperChar(t[k]) == t[k]
    {
      assert t[k] in u;
    }
    assert Upper(t) == t;
  }

  /**
   * removeCaracteresEspeciais. A spacer longer than four characters runs
   * the loop past the 30 replacement entries; reading the missing entry
   * raises the "Undefined array key 30" warning, which the framework's
   * error handler throws as an ErrorException.
   */
  method RemoveCaracteresEspeciais(s: string, espaco: Option<string>) returns (r: Result<string>)
    ensures r.Err? <==> |Entrada(espaco)| > |ACCENTED|
    ensures r.Err? ==> r.message == "Undefined array key 30"
    ensures r.Ok? ==> r.value == Finish(Replaced(s, Entrada(espaco), |Entrada(espaco)|))
  {
    var entrada := Entrada(espaco);
    var str := s;
    for i := 0 to |entrada|
      invariant i <= |ACCENTED| && str == Replaced(s, entrada, i)
    {
      if i >= |ACCENTED| {
        return Err("Undefined array key 30");
      }
      var charEntrar := entrada[i];
      var charSair := ACCENTED[i];
      if charSair in str {
        str := ReplaceChar(str, charSair, charEntrar);
      } else {
        assert ReplaceChar(str, charSair, charEntrar) == str;
      }
    }
    return Ok(Finish(str));
  }

  /**
   * With a one-character spacer the call succeeds and the loop is the
   * character map StripChar, before the case folding and trim.
   */
  lemma OneCharSpacerResult(s: string, spacer: char)
    ensures |Entrada(Some([spacer]))| <= |ACCENTED|
    ensures Replaced(s, Entrada(Some([spacer])), 27) == seq(|s|, k requires 0 <= k < |s| => StripChar(s[k], spacer))
  {
    assert Entrada(Some([spacer])) == PLAIN + [spacer];
    OneCharSpacer(s, spacer, 27);
    forall k | 0 <= k < |s| {
      StripPartialIsStripChar(s[k], spacer);
    }
  }

  /** A space becomes the spacer, and '(' ')' '.' are never replaced. */
  lemma StripCharPunctuation(spacer: char)
    ensures StripChar(' ', spacer) == spacer
    ensures StripChar('(', spacer) == '(' && StripChar(')', spacer) == ')' && StripChar('.', spacer) == '.'
  {
    assert forall m :: 0 <= m < 26 ==> ACCENTED[..26][m] as int >= 0xC0;
  }

  /** An accented letter turns into its plain letter. */
  lemma StripCharAccent(spacer: char)
    ensures StripChar('ã', spacer) == 'a'
  {
    var a := ACCENTED[..26];
    assert a[0] == 'á' && a[1] == 'à' && a[2] == 'ã';
    var i := IndexOf(a, 'ã');
    assert i <= 2 && i != 0 && i != 1;
    assert PLAIN[2] == 'a';
  }
}
