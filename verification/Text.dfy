// Character and number text, as the Rust standard library treats it.
module Text {
  import opened Prelude

  // Unicode White_Space, the set of `char::is_whitespace`.
  predicate IsWhitespace(c: char) {
    || '\t' <= c <= '\r' || c == ' ' || c == '\U{85}' || c == '\U{A0}' || c == '\U{1680}'
    || '\U{2000}' <= c <= '\U{200A}' || c == '\U{2028}' || c == '\U{2029}'
    || c == '\U{202F}' || c == '\U{205F}' || c == '\U{3000}'
  }

  const BLANKS: string :=
    "\t\n\U{0B}\U{0C}\r \U{85}\U{A0}\U{1680}\U{2028}\U{2029}\U{202F}\U{205F}\U{3000}"
  const WIDTHS: string :=
    "\U{2000}\U{2001}\U{2002}\U{2003}\U{2004}\U{2005}\U{2006}\U{2007}\U{2008}\U{2009}\U{200A}"

  // All the white space there is: 25 characters.
  lemma WhitespaceIff(c: char)
    ensures IsWhitespace(c) <==> c in BLANKS || c in WIDTHS
  {
    BlankIff(c);
    WidthIff(c);
  }

  lemma BlankIff(c: char)
    ensures c in BLANKS <==> IsWhitespace(c) && !('\U{2000}' <= c <= '\U{200A}')
  {
    var s := BLANKS;
    if '\t' <= c <= '\r' { assert s[c as int - '\t' as int] == c; }
    assert s[5] == ' ' && s[6] == '\U{85}' && s[7] == '\U{A0}' && s[8] == '\U{1680}' && s[9] == '\U{2028}';
    assert s[10] == '\U{2029}' && s[11] == '\U{202F}' && s[12] == '\U{205F}' && s[13] == '\U{3000}';
  }

  lemma WidthIff(c: char)
    ensures c in WIDTHS <==> '\U{2000}' <= c <= '\U{200A}'
  {
    var s := WIDTHS;
    if '\U{2000}' <= c <= '\U{200A}' { assert s[c as int - '\U{2000}' as int] == c; }
  }

  predicate IsDecDigit(c: char) { '0' <= c <= '9' }

  predicate IsHexDigit(c: char) { IsDecDigit(c) || 'a' <= c <= 'f' || 'A' <= c <= 'F' }

  predicate IsAlphanumeric(c: char) { IsDecDigit(c) || 'a' <= c <= 'z' || 'A' <= c <= 'Z' }

  function LowerChar(c: char): char {
    if 'A' <= c <= 'Z' then (c as int + 32) as char else c
  }

  function UpperChar(c: char): char {
    if 'a' <= c <= 'z' then (c as int - 32) as char else c
  }

  function Lower(s: string): string {
    seq(|s|, i requires 0 <= i < |s| => LowerChar(s[i]))
  }

  function Upper(s: string): string {
    seq(|s|, i requires 0 <= i < |s| => UpperChar(s[i]))
  }

  // Upper case is the same letters, none of them small.
  lemma UpperIsCapital(s: string)
    ensures EqIgnoreCase(s, Upper(s)) && forall i :: 0 <= i < |s| ==> !('a' <= Upper(s)[i] <= 'z')
  {
    EqIgnoreCaseAt(s, Upper(s));
  }

  predicate EqIgnoreCase(s: string, t: string) { Lower(s) == Lower(t) }

  lemma EqIgnoreCaseAt(s: string, t: string)
    ensures EqIgnoreCase(s, t)
            <==> |s| == |t| && forall i :: 0 <= i < |s| ==> LowerChar(s[i]) == LowerChar(t[i])
  {
    if EqIgnoreCase(s, t) {
      assert |Lower(s)| == |s| && |Lower(t)| == |t|;
      forall i | 0 <= i < |s| ensures LowerChar(s[i]) == LowerChar(t[i]) {
        assert Lower(s)[i] == Lower(t)[i];
      }
    }
  }

  // ----- digits and radix text -----

  // The digit's value; 36 for a character that is no digit below radix 17.
  function DigitOf(c: char): nat {
    if IsDecDigit(c) then c as nat - '0' as nat
    else if 'a' <= c <= 'f' then c as nat - 'a' as nat + 10
    else if 'A' <= c <= 'F' then c as nat - 'A' as nat + 10
    else 36
  }

  predicate AllDigits(s: string, radix: nat) { forall i :: 0 <= i < |s| ==> DigitOf(s[i]) < radix }

  function ValueOf(s: string, radix: nat): nat {
    if s == "" then 0 else ValueOf(s[..|s| - 1], radix) * radix + DigitOf(s[|s| - 1])
  }

  // `u64::from_str_radix`: one leading '+' is accepted when something follows it; overflow is an error.
  function FromStrRadix(s: string, radix: nat): Option<u64> {
    var digits := if |s| > 1 && s[0] == '+' then s[1..] else s;
    if digits != "" && AllDigits(digits, radix) && ValueOf(digits, radix) < U64_LIMIT
    then Some(ValueOf(digits, radix))
    else None
  }

  function HexChar(d: nat): char
    requires d < 16
  {
    if d < 10 then ('0' as nat + d) as char else ('a' as nat + (d - 10)) as char
  }

  // `{:x}`: lower-case hexadecimal with no leading zero.
  function Hex(n: nat): string {
    if n < 16 then [HexChar(n)] else Hex(n / 16) + [HexChar(n % 16)]
  }

  function Zeros(k: nat): string { seq(k, _ => '0') }

  // `{:0wx}`.
  function HexPadded(n: nat, w: nat): string {
    if |Hex(n)| < w then Zeros(w - |Hex(n)|) + Hex(n) else Hex(n)
  }

  function Pow(b: nat, k: nat): nat { if k == 0 then 1 else b * Pow(b, k - 1) }

  lemma Pow16Is64Bits()
    ensures Pow(16, 16) == U64_LIMIT
    ensures Pow(16, 2) == 0x100
  {
    assert Pow(16, 2) == 0x100;
    assert Pow(16, 4) == 0x1_0000;
    assert Pow(16, 8) == 0x1_0000_0000 by { assert Pow(16, 6) == 0x100_0000; }
    assert Pow(16, 12) == 0x1_0000_0000_0000 by { assert Pow(16, 10) == 0x100_0000_0000; }
    assert Pow(16, 14) == 0x100_0000_0000_0000;
  }

  lemma {:induction false} HexDigitsValue(n: nat)
    ensures Hex(n) != "" && AllDigits(Hex(n), 16) && ValueOf(Hex(n), 16) == n
    ensures forall i :: 0 <= i < |Hex(n)| ==> IsHexDigit(Hex(n)[i]) && LowerChar(Hex(n)[i]) == Hex(n)[i]
  {
    if n < 16 {
      assert ValueOf(Hex(n)[..0], 16) == 0;
    } else {
      HexDigitsValue(n / 16);
      HexDigitAppended(Hex(n / 16), n % 16);
    }
  }

  lemma HexDigitAppended(s: string, d: nat)
    requires d < 16 && AllDigits(s, 16)
    requires forall i :: 0 <= i < |s| ==> IsHexDigit(s[i]) && LowerChar(s[i]) == s[i]
    ensures var t := s + [HexChar(d)];
            && AllDigits(t, 16) && ValueOf(t, 16) == ValueOf(s, 16) * 16 + d
            && forall i :: 0 <= i < |t| ==> IsHexDigit(t[i]) && LowerChar(t[i]) == t[i]
  {
    var t := s + [HexChar(d)];
    assert t[..|t| - 1] == s && DigitOf(HexChar(d)) == d;
    forall i | 0 <= i < |t| ensures DigitOf(t[i]) < 16 && IsHexDigit(t[i]) && LowerChar(t[i]) == t[i] {
      if i < |s| { assert t[i] == s[i]; }
    }
  }

  lemma {:induction false} HexLength(n: nat, k: nat)
    requires k > 0 && n < Pow(16, k)
    ensures |Hex(n)| <= k
  {
    if n >= 16 {
      assert k > 1 by { assert Pow(16, 1) == 16 * Pow(16, 0); }
      HexLength(n / 16, k - 1);
    }
  }

  lemma {:induction false} ZerosValue(k: nat, s: string)
    ensures ValueOf(Zeros(k) + s, 16) == ValueOf(s, 16)
    decreases |s|, k
  {
    if s == "" {
      if k > 0 {
        assert (Zeros(k) + s)[..k - 1] == Zeros(k - 1) + s;
        ZerosValue(k - 1, s);
      }
    } else {
      assert (Zeros(k) + s)[..k + |s| - 1] == Zeros(k) + s[..|s| - 1];
      ZerosValue(k, s[..|s| - 1]);
    }
  }

  lemma ZerosThenDigits(k: nat, s: string)
    requires AllDigits(s, 16) && forall i :: 0 <= i < |s| ==> IsHexDigit(s[i])
    ensures AllDigits(Zeros(k) + s, 16) && forall i :: 0 <= i < k + |s| ==> IsHexDigit((Zeros(k) + s)[i])
  {
    var t := Zeros(k) + s;
    forall i | 0 <= i < |t| ensures DigitOf(t[i]) < 16 && IsHexDigit(t[i]) {
      assert t[i] == if i < k then '0' else s[i - k];
    }
  }

  lemma PaddedIsDigits(n: nat, w: nat)
    ensures |HexPadded(n, w)| == if |Hex(n)| < w then w else |Hex(n)|
    ensures AllDigits(HexPadded(n, w), 16) && ValueOf(HexPadded(n, w), 16) == n
    ensures forall i :: 0 <= i < |HexPadded(n, w)| ==> IsHexDigit(HexPadded(n, w)[i])
  {
    hide Hex, ValueOf, IsHexDigit, AllDigits;
    HexDigitsValue(n);
    if |Hex(n)| < w {
      ZerosValue(w - |Hex(n)|, Hex(n));
      ZerosThenDigits(w - |Hex(n)|, Hex(n));
    }
  }

  lemma DigitsParse(s: string, n: u64)
    requires s != "" && AllDigits(s, 16) && ValueOf(s, 16) == n
    ensures FromStrRadix(s, 16) == Some(n)
  {
    assert s[0] != '+' by { assert DigitOf(s[0]) < 16; }
  }

  // Printed hexadecimal parses back, for every u64, padded or not.
  lemma HexRoundTrip(n: u64, w: nat)
    ensures FromStrRadix(HexPadded(n, w), 16) == Some(n)
    ensures FromStrRadix(Hex(n), 16) == Some(n)
    ensures w <= 16 ==> 1 <= |HexPadded(n, w)| <= 16
  {
    HexDigitsValue(n);
    PaddedIsDigits(n, w);
    DigitsParse(Hex(n), n);
    DigitsParse(HexPadded(n, w), n);
    Pow16Is64Bits();
    HexLength(n, 16);
  }

  // Decimal text, as `{}` prints it.
  function Decimal(n: nat): string {
    if n < 10 then [HexChar(n)] else Decimal(n / 10) + [HexChar(n % 10)]
  }

  lemma {:induction false} DecimalValue(n: nat)
    ensures Decimal(n) != "" && AllDigits(Decimal(n), 10) && ValueOf(Decimal(n), 10) == n
    ensures forall i :: 0 <= i < |Decimal(n)| ==> IsDecDigit(Decimal(n)[i])
  {
    if n < 10 {
      assert ValueOf(Decimal(n)[..0], 10) == 0;
    } else {
      DecimalValue(n / 10);
      assert Decimal(n)[..|Decimal(n)| - 1] == Decimal(n / 10);
    }
  }

  lemma DecimalRoundTrip(n: u64)
    ensures FromStrRadix(Decimal(n), 10) == Some(n)
  {
    DecimalValue(n);
    assert IsDecDigit(Decimal(n)[0]);
  }

  // Digits keep their value when the case of a letter changes.
  lemma {:induction false} ValueIgnoresCase(s: string, t: string, radix: nat)
    requires EqIgnoreCase(s, t) && radix <= 16
    ensures ValueOf(s, radix) == ValueOf(t, radix)
    ensures AllDigits(s, radix) <==> AllDigits(t, radix)
  {
    EqIgnoreCaseAt(s, t);
    if s != "" {
      EqIgnoreCaseAt(s[..|s| - 1], t[..|t| - 1]);
      ValueIgnoresCase(s[..|s| - 1], t[..|t| - 1], radix);
    }
    forall i | 0 <= i < |s| ensures DigitOf(s[i]) == DigitOf(t[i]) {}
  }

  lemma RadixIgnoresCase(s: string, t: string, radix: nat)
    requires EqIgnoreCase(s, t) && radix <= 16
    ensures FromStrRadix(s, radix) == FromStrRadix(t, radix)
  {
    EqIgnoreCaseAt(s, t);
    ValueIgnoresCase(s, t, radix);
    if |s| > 1 && s[0] == '+' {
      EqIgnoreCaseAt(s[1..], t[1..]);
      ValueIgnoresCase(s[1..], t[1..], radix);
    }
  }

  // A text with a character that is neither a digit nor a leading sign is no number.
  lemma NotDigitsNoNumber(s: string, k: nat, radix: nat)
    requires k < |s| && DigitOf(s[k]) >= radix && (k > 0 || s[k] != '+')
    ensures FromStrRadix(s, radix) == None
  {
    if |s| > 1 && s[0] == '+' { assert s[1..][k - 1] == s[k]; }
  }

  // ----- what number texts denote -----

  const DIGITS: string := "0123456789abcdef"

  // A digit's value is its place among the digits, whatever its case.
  lemma DigitOfIff(c: char, d: nat)
    requires d < 16
    ensures DigitOf(c) == d <==> LowerChar(c) == DIGITS[d]
  {}

  // Place-value reading, most significant digit first.
  function Positional(s: string, radix: nat): nat {
    if s == "" then 0 else DigitOf(s[0]) * Pow(radix, |s| - 1) + Positional(s[1..], radix)
  }

  lemma {:induction false} PositionalPush(s: string, c: char, radix: nat)
    ensures Positional(s + [c], radix) == Positional(s, radix) * radix + DigitOf(c)
  {
    var t := s + [c];
    if s == "" {
      assert t[1..] == "" && Pow(radix, 0) == 1;
    } else {
      var d, p, rest := DigitOf(s[0]), Pow(radix, |s| - 1), Positional(s[1..], radix);
      assert t[1..] == s[1..] + [c] && t[0] == s[0];
      PositionalPush(s[1..], c, radix);
      assert Pow(radix, |s|) == radix * p;
      ShiftedSum(d, p, rest, radix);
    }
  }

  lemma ShiftedSum(d: nat, p: nat, rest: nat, radix: nat)
    ensures d * (radix * p) + rest * radix == (d * p + rest) * radix
  {}

  lemma {:induction false} ValueIsPositional(s: string, radix: nat)
    ensures ValueOf(s, radix) == Positional(s, radix)
  {
    if s != "" {
      var front := s[..|s| - 1];
      ValueIsPositional(front, radix);
      PositionalPush(front, s[|s| - 1], radix);
      assert s == front + [s[|s| - 1]];
    }
  }

  predicate Numeral(digits: string, radix: nat, v: nat) {
    digits != "" && AllDigits(digits, radix) && Positional(digits, radix) == v
  }

  // A numeral, perhaps after one plus sign.
  ghost predicate WrittenAs(s: string, radix: nat, v: nat) {
    exists sign, digits :: s == sign + digits && (sign == "" || sign == "+") && Numeral(digits, radix, v)
  }

  lemma FromStrRadixIff(s: string, radix: nat, v: u64)
    requires radix <= 16
    ensures FromStrRadix(s, radix) == Some(v) <==> WrittenAs(s, radix, v)
  {
    hide Positional, ValueOf;
    var digits := if |s| > 1 && s[0] == '+' then s[1..] else s;
    var sign := if |s| > 1 && s[0] == '+' then "+" else "";
    ValueIsPositional(digits, radix);
    assert s == sign + digits;
    forall other, tail | s == other + tail && (other == "" || other == "+") && Numeral(tail, radix, v)
      ensures tail == digits
    {
      assert DigitOf(tail[0]) < 16;
      if other == "" { assert tail == s; } else { assert s[0] == '+' && tail == s[1..]; }
    }
  }

  // `strip_prefix("0x").or_else(strip_prefix("0X"))`.
  function StripHexPrefix(s: string): Option<string> {
    if |s| >= 2 && s[0] == '0' && (s[1] == 'x' || s[1] == 'X') then Some(s[2..]) else None
  }

  // ----- trimming and splitting -----

  // The first index from `i` on whose character is not white space, or the length.
  function SkipWhitespace(s: string, i: nat): (n: nat)
    requires i <= |s|
    ensures i <= n <= |s| && (n < |s| ==> !IsWhitespace(s[n]))
    ensures forall k :: i <= k < n ==> IsWhitespace(s[k])
    decreases |s| - i
  {
    if i < |s| && IsWhitespace(s[i]) then SkipWhitespace(s, i + 1) else i
  }

  // The end of the text that is left when white space is dropped from `s[..i]`.
  function DropWhitespace(s: string, i: nat): (n: nat)
    requires i <= |s|
    ensures n <= i && (0 < n ==> !IsWhitespace(s[n - 1]))
    ensures forall k :: n <= k < i ==> IsWhitespace(s[k])
  {
    if i > 0 && IsWhitespace(s[i - 1]) then DropWhitespace(s, i - 1) else i
  }

  function TrimStart(s: string): string { s[SkipWhitespace(s, 0)..] }

  function TrimEnd(s: string): string { s[..DropWhitespace(s, |s|)] }

  function Trim(s: string): string { TrimEnd(TrimStart(s)) }

  predicate Trimmed(s: string) {
    s != "" ==> !IsWhitespace(s[0]) && !IsWhitespace(s[|s| - 1])
  }

  lemma TrimFixed(s: string)
    ensures Trim(s) == s <==> Trimmed(s)
    ensures Trimmed(Trim(s))
  {
    var t := TrimStart(s);
    var r := TrimEnd(t);
    if r != "" { assert r[0] == t[0] && r[|r| - 1] == t[|r| - 1]; }
  }

  // Index of the first `c` from `i` on, or the length when there is none.
  function IndexFrom(s: string, c: char, i: nat): (n: nat)
    requires i <= |s|
    ensures i <= n <= |s| && (n < |s| ==> s[n] == c)
    ensures forall k :: i <= k < n ==> s[k] != c
    decreases |s| - i
  {
    if i < |s| && s[i] != c then IndexFrom(s, c, i + 1) else i
  }
}
