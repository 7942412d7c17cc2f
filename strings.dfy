/** The JavaScript string operations the date helpers rely on: `String(n)`,
    `padStart`, `split` and `Number`. */
module Strings {
  import opened Common

  predicate IsDigit(c: char) { '0' <= c <= '9' }

  predicate IsDigits(s: string) { forall i :: 0 <= i < |s| ==> IsDigit(s[i]) }

  function DigitChar(d: int): (c: char)
    requires 0 <= d < 10
    ensures IsDigit(c)
  {
    (d + '0' as int) as char
  }

  function DigitVal(c: char): (d: int)
    requires IsDigit(c)
    ensures 0 <= d < 10
  {
    c as int - '0' as int
  }

  /** `String(n)` for a non-negative integer: its decimal digits, no leading zero. */
  function NatToString(n: nat): (s: string)
    ensures |s| >= 1 && IsDigits(s)
    ensures n < 10 <==> |s| == 1
  {
    if n < 10 then [DigitChar(n)] else NatToString(n / 10) + [DigitChar(n % 10)]
  }

  /** `String(n)` for any integer. */
  function IntToString(n: int): string
  {
    if n < 0 then "-" + NatToString(-n) else NatToString(n)
  }

  /** The value of a string of decimal digits (leading zeros allowed). */
  function DigitsValue(s: string): nat
    requires IsDigits(s)
  {
    if s == [] then 0 else DigitsValue(s[..|s| - 1]) * 10 + DigitVal(s[|s| - 1])
  }

  /** `s.padStart(width, c)`. */
  function PadStart(s: string, width: nat, c: char): (r: string)
    ensures |r| == if |s| >= width then |s| else width
    ensures r[|r| - |s|..] == s
    ensures forall i :: 0 <= i < |r| - |s| ==> r[i] == c
    decreases width - |s|
  {
    if |s| >= width then s else PadStart([c] + s, width, c)
  }

  /** `String(n).padStart(2, '0')`. */
  function Pad2(n: nat): string
  {
    PadStart(NatToString(n), 2, '0')
  }

  lemma {:induction false} NatToStringValue(n: nat)
    ensures DigitsValue(NatToString(n)) == n
  {
    var s := NatToString(n);
    if n >= 10 {
      NatToStringValue(n / 10);
      assert s[..|s| - 1] == NatToString(n / 10);
    }
  }

  /** Appending a digit multiplies the value by ten and adds the digit. */
  lemma DigitsSnoc(s: string, c: char)
    requires IsDigits(s) && IsDigit(c)
    ensures IsDigits(s + [c]) && DigitsValue(s + [c]) == DigitsValue(s) * 10 + DigitVal(c)
  {
    assert (s + [c])[..|s|] == s;
  }

  lemma {:induction false} LeadingZeros(z: string, s: string)
    requires IsDigits(s)
    requires forall i :: 0 <= i < |z| ==> z[i] == '0'
    ensures IsDigits(z + s) && DigitsValue(z + s) == DigitsValue(s)
  {
    if s == [] {
      assert z + s == z;
      ZerosValue(z);
    } else {
      LeadingZeros(z, s[..|s| - 1]);
      assert (z + s)[..|z + s| - 1] == z + s[..|s| - 1];
    }
  }

  lemma {:induction false} ZerosValue(z: string)
    requires forall i :: 0 <= i < |z| ==> z[i] == '0'
    ensures IsDigits(z) && DigitsValue(z) == 0
  {
    if z != [] {
      ZerosValue(z[..|z| - 1]);
    }
  }

  /** Zero padding does not change the value a string of digits denotes. */
  lemma {:induction false} PaddedValue(s: string, width: nat)
    requires IsDigits(s)
    ensures IsDigits(PadStart(s, width, '0'))
    ensures DigitsValue(PadStart(s, width, '0')) == DigitsValue(s)
    decreases width - |s|
  {
    if |s| < width {
      LeadingZeros(['0'], s);
      PaddedValue(['0'] + s, width);
    }
  }

  lemma Pad2Value(n: nat)
    requires n < 100
    ensures |Pad2(n)| == 2 && IsDigits(Pad2(n)) && DigitsValue(Pad2(n)) == n
  {
    NatToStringValue(n);
    PaddedValue(NatToString(n), 2);
  }

  /** `s.split(sep)` for a one-character separator: the pieces between
      separators, empty pieces included, so there is always at least one. */
  function Split(s: string, sep: char): (parts: seq<string>)
    ensures |parts| >= 1
  {
    if s == [] then [[]]
    else
      var p := Split(s[..|s| - 1], sep);
      if s[|s| - 1] == sep then p + [[]] else p[..|p| - 1] + [p[|p| - 1] + [s[|s| - 1]]]
  }

  lemma {:induction false} SplitNoSep(s: string, sep: char)
    requires forall i :: 0 <= i < |s| ==> s[i] != sep
    ensures Split(s, sep) == [s]
  {
    if s != [] {
      SplitNoSep(s[..|s| - 1], sep);
      assert s[..|s| - 1] + [s[|s| - 1]] == s;
    }
  }

  /** Splitting `p + sep + q`, where `q` holds no separator, splits `p` and
      appends `q` as the last piece. */
  lemma {:induction false} SplitLastPiece(p: string, sep: char, q: string)
    requires forall i :: 0 <= i < |q| ==> q[i] != sep
    ensures Split(p + [sep] + q, sep) == Split(p, sep) + [q]
  {
    if q == [] {
      assert (p + [sep] + q)[..|p|] == p;
    } else {
      var w := p + [sep] + q;
      SplitLastPiece(p, sep, q[..|q| - 1]);
      assert w[..|w| - 1] == p + [sep] + q[..|q| - 1];
      assert q[..|q| - 1] + [q[|q| - 1]] == q;
    }
  }

  /** Three pieces free of the separator, joined by it, split back into themselves. */
  lemma SplitThree(a: string, b: string, c: string, sep: char)
    requires forall i :: 0 <= i < |a| ==> a[i] != sep
    requires forall i :: 0 <= i < |b| ==> b[i] != sep
    requires forall i :: 0 <= i < |c| ==> c[i] != sep
    ensures Split(a + [sep] + b + [sep] + c, sep) == [a, b, c]
  {
    SplitNoSep(a, sep);
    SplitLastPiece(a, sep, b);
    SplitLastPiece(a + [sep] + b, sep, c);
  }

  /** The value of a hexadecimal digit in either case, and 16 for any other
      character. */
  function HexVal(c: char): (v: nat)
    ensures v <= 16
  {
    if '0' <= c <= '9' then c as int - '0' as int
    else if 'a' <= c <= 'f' then c as int - 'a' as int + 10
    else if 'A' <= c <= 'F' then c as int - 'A' as int + 10
    else 16
  }

  predicate IsRadixDigits(s: string, radix: nat)
  {
    forall i :: 0 <= i < |s| ==> HexVal(s[i]) < radix
  }

  /** The value of a string of digits in base `radix`. */
  function RadixValue(s: string, radix: nat): nat
    requires IsRadixDigits(s, radix)
  {
    if s == [] then 0 else RadixValue(s[..|s| - 1], radix) * radix + HexVal(s[|s| - 1])
  }

  /** The base a `0x`, `0o` or `0b` prefix (either case) selects, and 0 for no prefix. */
  function RadixOfPrefix(s: string): nat
  {
    if |s| < 2 || s[0] != '0' then 0
    else if s[1] == 'x' || s[1] == 'X' then 16
    else if s[1] == 'o' || s[1] == 'O' then 8
    else if s[1] == 'b' || s[1] == 'B' then 2
    else 0
  }

  /** The integer literals of ECMAScript's StringNumericLiteral grammar,
      white space already removed: nothing (0), a prefixed binary, octal or
      hexadecimal literal, and decimal digits after an optional sign. */
  function IntegerLiteral(t: string): Option<int>
  {
    var radix := RadixOfPrefix(t);
    if t == [] then Some(0)
    else if radix != 0 then
      (if |t| > 2 && IsRadixDigits(t[2..], radix) then Some(RadixValue(t[2..], radix)) else None)
    else if (t[0] == '+' || t[0] == '-') && |t| > 1 && IsDigits(t[1..]) then
      var v: int := DigitsValue(t[1..]);
      Some(if t[0] == '-' then -v else v)
    else if IsDigits(t) then Some(DigitsValue(t))
    else None
  }

  /** `Number(s)` on the strings the date helpers meet, as far as it yields an
      integer: the literal between surrounding white space is read by
      `IntegerLiteral`. None stands for NaN and for the infinities, which
      make every `Date` built from them invalid alike. */
  function JsNumber(s: string): Option<int>
  {
    IntegerLiteral(Trim(s))
  }

  /** A plain run of decimal digits is its own value. */
  lemma JsNumberDigits(s: string)
    requires IsDigits(s)
    ensures JsNumber(s) == Some(DigitsValue(s))
  {
    assert s != [] ==> !IsSpace(s[0]) && !IsSpace(s[|s| - 1]);
    assert TrimStart(s) == s;
    assert TrimEnd(s) == s;
  }

  /** Surrounding white space is ignored. */
  lemma JsNumberIgnoresSpace(s: string)
    ensures JsNumber(s) == JsNumber(Trim(s))
  {
    TrimIdempotent(s);
  }

  /** A sign applies to a non-empty run of decimal digits. */
  lemma JsNumberSigned(s: string)
    requires IsDigits(s) && s != []
    ensures JsNumber("+" + s) == Some(DigitsValue(s))
    ensures JsNumber("-" + s) == Some(0 - DigitsValue(s) as int)
  {
    SignedUntrimmed('+', s);
    SignedUntrimmed('-', s);
    assert ("+" + s)[1..] == s;
    assert ("-" + s)[1..] == s;
  }

  /** A sign followed by digits has no white space to trim. */
  lemma SignedUntrimmed(c: char, s: string)
    requires (c == '+' || c == '-') && IsDigits(s) && s != []
    ensures Trim([c] + s) == [c] + s
  {
    var t := [c] + s;
    assert t[|t| - 1] == s[|s| - 1];
    assert !IsSpace(t[0]) && !IsSpace(t[|t| - 1]);
    assert TrimStart(t) == t;
    assert TrimEnd(t) == t;
  }

  /** A radix prefix selects its base, and needs at least one digit after it. */
  lemma JsNumberRadix()
    ensures JsNumber("0x1F") == Some(31) && JsNumber("0b101") == Some(5) && JsNumber("0o17") == Some(15)
    ensures JsNumber("0x") == None
  {
    assert Trim("0x1F") == "0x1F" && Trim("0b101") == "0b101" && Trim("0o17") == "0o17" && Trim("0x") == "0x";
    assert "0x1F"[2..] == "1F";
    assert RadixValue("1F", 16) == 31 by { assert "1F"[..1] == "1"; }
    assert "0b101"[2..] == "101";
    assert RadixValue("101", 2) == 5 by { assert "101"[..2] == "10"; assert "10"[..1] == "1"; }
    assert "0o17"[2..] == "17";
    assert RadixValue("17", 8) == 15 by { assert "17"[..1] == "1"; }
  }

  /** The code points `String.prototype.trim` removes: the WhiteSpace and
      LineTerminator characters of ECMAScript. */
  predicate IsSpace(c: char)
  {
    c == '\t' || c == '\n' || c == '\U{000B}' || c == '\U{000C}' || c == '\r' || c == ' '
    || c == '\U{00A0}' || c == '\U{1680}' || ('\U{2000}' <= c <= '\U{200A}') || c == '\U{2028}'
    || c == '\U{2029}' || c == '\U{202F}' || c == '\U{205F}' || c == '\U{3000}' || c == '\U{FEFF}'
  }

  predicate AllSpace(s: string) { forall i :: 0 <= i < |s| ==> IsSpace(s[i]) }

  /** `s` with its leading white space removed. */
  function TrimStart(s: string): string
  {
    if s != [] && IsSpace(s[0]) then TrimStart(s[1..]) else s
  }

  /** `s` with its trailing white space removed. */
  function TrimEnd(s: string): string
  {
    if s != [] && IsSpace(s[|s| - 1]) then TrimEnd(s[..|s| - 1]) else s
  }

  /** `s.trim()`. */
  function Trim(s: string): string
  {
    TrimEnd(TrimStart(s))
  }

  /** `!s.trim()`: the string is empty or white space only
      (`BlankIffTrimEmpty` shows this is exactly `Trim(s) == ""`). */
  predicate Blank(s: string)
  {
    AllSpace(s)
  }

  /** What `TrimStart` removes is white space, and what it keeps does not
      start with any. */
  lemma {:induction false} TrimStartShape(s: string)
    ensures |TrimStart(s)| <= |s| && TrimStart(s) == s[|s| - |TrimStart(s)|..]
    ensures AllSpace(s[..|s| - |TrimStart(s)|])
    ensures TrimStart(s) == [] || !IsSpace(TrimStart(s)[0])
  {
    if s != [] && IsSpace(s[0]) {
      TrimStartShape(s[1..]);
      var k := |s| - |TrimStart(s)|;
      assert s[..k] == [s[0]] + s[1..][..k - 1];
    }
  }

  /** What `TrimEnd` removes is white space, and what it keeps does not end
      with any. */
  lemma {:induction false} TrimEndShape(s: string)
    ensures |TrimEnd(s)| <= |s| && TrimEnd(s) == s[..|TrimEnd(s)|]
    ensures AllSpace(s[|TrimEnd(s)|..])
    ensures TrimEnd(s) == [] || !IsSpace(TrimEnd(s)[|TrimEnd(s)| - 1])
  {
    if s != [] && IsSpace(s[|s| - 1]) {
      TrimEndShape(s[..|s| - 1]);
      var k := |TrimEnd(s)|;
      assert s[k..] == s[..|s| - 1][k..] + [s[|s| - 1]];
    }
  }

  /** Trimming leaves nothing exactly when every character is white space. */
  lemma BlankIffTrimEmpty(s: string)
    ensures Blank(s) <==> Trim(s) == []
  {
    var t := TrimStart(s);
    TrimStartShape(s);
    TrimEndShape(t);
    if Trim(s) == [] {
      assert s == s[..|s| - |t|] + t;
      assert t == TrimEnd(t) + t[|TrimEnd(t)|..];
    }
  }

  /** `trim` is idempotent, and what it returns neither starts nor ends with
      white space. */
  lemma TrimIdempotent(s: string)
    ensures Trim(Trim(s)) == Trim(s)
    ensures var t := Trim(s); t == [] || (!IsSpace(t[0]) && !IsSpace(t[|t| - 1]))
  {
    var a := TrimStart(s);
    TrimStartShape(s);
    TrimEndShape(a);
    var t := TrimEnd(a);
    assert t != [] ==> t[0] == a[0];
    if t != [] {
      assert TrimStart(t) == t;
      assert TrimEnd(t) == t;
    }
  }
}
