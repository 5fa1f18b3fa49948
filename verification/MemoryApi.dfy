// The hex memory view of src/memory_api.rs: request validation, hex text in both directions, rows and
// paging at the edge of the 64-bit address space.
module MemoryApi {
  import opened Prelude
  import opened Text

  const MAX_BYTES: nat := 4096
  const MAX_PID: nat := 0x7fff_ffff
  const ROW_BYTES: nat := 16

  datatype RequestError = BadPid | BadSize | BadAddress | RangeOverflow

  function StripAddressPrefix(s: string): string {
    if StripHexPrefix(s).Some? then StripHexPrefix(s).value else s
  }

  predicate AllHexDigits(s: string) { forall k :: 0 <= k < |s| ==> IsHexDigit(s[k]) }

  function Validate(pid: u32, addr: string, size: nat): Result<u64, RequestError> {
    if pid == 0 || pid > MAX_PID then Err(BadPid)
    else if !(1 <= size <= MAX_BYTES) then Err(BadSize)
    else
      var text := StripAddressPrefix(Trim(addr));
      if text == "" || |text| > 16 || !AllHexDigits(text) then Err(BadAddress)
      else
        match FromStrRadix(text, 16)
        case None => Err(BadAddress)
        case Some(a) => if a + (size - 1) < U64_LIMIT then Ok(a) else Err(RangeOverflow)
  }

  // `u8::is_ascii_whitespace`: no vertical tab.
  predicate IsAsciiWhitespace(c: char) { c == ' ' || c == '\t' || c == '\n' || c == '\U{0C}' || c == '\r' }

  function Squeeze(text: string): (r: string)
    ensures |r| <= |text|
  {
    if text == "" then ""
    else Squeeze(text[..|text| - 1]) + (if IsAsciiWhitespace(text[|text| - 1]) then "" else [text[|text| - 1]])
  }

  function PairValue(hi: char, lo: char): byte
    requires IsHexDigit(hi) && IsHexDigit(lo)
  {
    DigitOf(hi) * 16 + DigitOf(lo)
  }

  function DecodePairs(digits: string): (r: seq<byte>)
    requires |digits| % 2 == 0 && AllHexDigits(digits)
    ensures 2 * |r| == |digits|
  {
    if digits == "" then [] else [PairValue(digits[0], digits[1])] + DecodePairs(digits[2..])
  }

  function DecodeHex(text: string): Option<seq<byte>> {
    var digits := Squeeze(text);
    if digits == "" || |digits| > MAX_BYTES * 2 || |digits| % 2 != 0 || !AllHexDigits(digits) then None
    else Some(DecodePairs(digits))
  }

  // ----- the response -----

  datatype MemoryRow = MemoryRow(addr: string, hex: string, ascii: string)

  datatype ReadResponse = ReadResponse(
    pid: u32, addr: string, size: nat, nextAddr: Option<string>, data: seq<byte>, rows: seq<MemoryRow>)

  function ByteText(b: byte): string { HexPadded(b, 2) }

  function Address(a: nat): string { "0x" + HexPadded(a, 16) }

  function HexLine(bytes: seq<byte>): string {
    if bytes == [] then ""
    else if |bytes| == 1 then ByteText(bytes[0])
    else ByteText(bytes[0]) + " " + HexLine(bytes[1..])
  }

  function AsciiOf(b: byte): char { if 0x20 <= b <= 0x7e then b as char else '.' }

  function AsciiLine(bytes: seq<byte>): (r: string)
    ensures |r| == |bytes|
  {
    seq(|bytes|, i requires 0 <= i < |bytes| => AsciiOf(bytes[i]))
  }

  // The rows of `data`, the first at `addr`.
  function Rows(addr: nat, data: seq<byte>): seq<MemoryRow>
    decreases |data|
  {
    if data == [] then []
    else
      var n := if |data| < ROW_BYTES then |data| else ROW_BYTES;
      [MemoryRow(Address(addr), HexLine(data[..n]), AsciiLine(data[..n]))] + Rows(addr + ROW_BYTES, data[n..])
  }

  function FormatRead(pid: u32, addr: u64, data: seq<byte>): ReadResponse {
    ReadResponse(pid, Address(addr), |data|,
                 if addr + |data| < U64_LIMIT then Some(Address(addr + |data|)) else None,
                 data, Rows(addr, data))
  }

  // ----- validation -----

  lemma AddressTextParses(a: u64, size: nat, pid: u32)
    requires 1 <= pid <= MAX_PID && 1 <= size <= MAX_BYTES && a + (size - 1) < U64_LIMIT
    ensures Validate(pid, Address(a), size) == Ok(a)
  {
    hide FromStrRadix, HexPadded, Trim, IsWhitespace;
    var digits, text := HexPadded(a, 16), Address(a);
    HexRoundTrip(a, 16);
    PaddedIsDigits(a, 16);
    PrefixedIsTrimmed(digits);
    assert text[2..] == digits;
  }

  lemma PrefixedIsTrimmed(digits: string)
    requires digits != "" && AllHexDigits(digits)
    ensures Trim("0x" + digits) == "0x" + digits
  {
    hide Trim;
    var text := "0x" + digits;
    assert IsHexDigit(digits[|digits| - 1]) && text[|text| - 1] == digits[|digits| - 1];
    TrimFixed(text);
  }

  predicate Blank(s: string) { forall k :: 0 <= k < |s| ==> IsWhitespace(s[k]) }

  // White space, perhaps a prefix, one to sixteen hex digits, white space.
  predicate AddressParts(addr: string, pre: string, prefix: string, digits: string, post: string) {
    && addr == pre + (prefix + digits) + post && Blank(pre) && Blank(post)
    && (prefix == "" || prefix == "0x" || prefix == "0X")
    && 1 <= |digits| <= 16 && AllHexDigits(digits)
  }

  ghost predicate Denotes(addr: string, a: u64) {
    exists pre, prefix, digits, post :: AddressParts(addr, pre, prefix, digits, post) && ValueOf(digits, 16) == a
  }

  lemma TrimPadded(pre: string, body: string, post: string)
    requires Blank(pre) && Blank(post) && body != "" && Trimmed(body)
    ensures Trim(pre + body + post) == body
  {
    var s := pre + body + post;
    assert s[|pre|] == body[0] && forall k :: 0 <= k < |pre| ==> s[k] == pre[k];
    var t := TrimStart(s);
    assert t == body + post;
    assert t[|body| - 1] == body[|body| - 1] && forall k :: |body| <= k < |t| ==> t[k] == post[k - |body|];
    assert t[..|body|] == body;
  }

  lemma HexIsSolid(prefix: string, digits: string)
    requires (prefix == "" || prefix == "0x" || prefix == "0X") && digits != "" && AllHexDigits(digits)
    ensures Trimmed(prefix + digits) && StripAddressPrefix(prefix + digits) == digits
  {
    var text := prefix + digits;
    assert IsHexDigit(digits[0]) && IsHexDigit(digits[|digits| - 1]) && text[|text| - 1] == digits[|digits| - 1];
    if prefix == "" {
      assert text == digits;
      assert |digits| > 1 ==> IsHexDigit(digits[1]);
    } else {
      assert text[2..] == digits && text[0] == '0' && text[1] == prefix[1];
    }
  }

  lemma TrimSplits(s: string) returns (pre: string, post: string)
    ensures Blank(pre) && Blank(post) && s == pre + Trim(s) + post
  {
    hide IsWhitespace;
    var n, t := SkipWhitespace(s, 0), TrimStart(s);
    var m := DropWhitespace(t, |t|);
    pre, post := s[..n], t[m..];
    forall k | 0 <= k < n ensures IsWhitespace(pre[k]) { assert pre[k] == s[k]; }
    forall k | 0 <= k < |post| ensures IsWhitespace(post[k]) { assert post[k] == t[m + k]; }
    assert s == pre + t && t == Trim(s) + post;
    ConcatAssociative(pre, Trim(s), post);
  }

  function PrefixOf(text: string): string { if StripHexPrefix(text).Some? then text[..2] else "" }

  lemma PrefixStripped(text: string)
    ensures text == PrefixOf(text) + StripAddressPrefix(text)
    ensures PrefixOf(text) == "" || PrefixOf(text) == "0x" || PrefixOf(text) == "0X"
  {
    if StripHexPrefix(text).Some? {
      assert text[..2] == [text[0], text[1]] && text == text[..2] + text[2..];
    } else {
      assert "" + text == text;
    }
  }

  // A request passes exactly when pid and size are in range, the address is one to sixteen hex digits
  // with an optional prefix and surrounding white space, and its last byte is still a 64-bit address.
  lemma ValidateIff(pid: u32, addr: string, size: nat, a: u64)
    ensures Validate(pid, addr, size) == Ok(a) <==>
              1 <= pid <= MAX_PID && 1 <= size <= MAX_BYTES && Denotes(addr, a) && a + size <= U64_LIMIT
  {
    hide Trim, ValueOf, StripAddressPrefix, PrefixOf, FromStrRadix, AllHexDigits, Blank;
    var text := StripAddressPrefix(Trim(addr));
    if 1 <= |text| <= 16 && AllHexDigits(text) {
      HexDigitsParse(text);
      var pre, post := TrimSplits(addr);
      PrefixStripped(Trim(addr));
      assert AddressParts(addr, pre, PrefixOf(Trim(addr)), text, post);
    }
    forall pre, prefix, digits, post | AddressParts(addr, pre, prefix, digits, post) ensures digits == text {
      HexIsSolid(prefix, digits);
      TrimPadded(pre, prefix + digits, post);
    }
  }

  // Up to sixteen hex digits always name a 64-bit value.
  lemma HexDigitsParse(text: string)
    requires 1 <= |text| <= 16 && AllHexDigits(text)
    ensures ValueOf(text, 16) < U64_LIMIT && FromStrRadix(text, 16) == Some(ValueOf(text, 16))
  {
    assert forall k :: 0 <= k < |text| ==> IsHexDigit(text[k]) && DigitOf(text[k]) < 16;
    ValueBound(text);
    Pow16Is64Bits();
    PowMonotone(|text|, 16);
    DigitsParse(text, ValueOf(text, 16));
  }

  lemma {:induction false} ValueBound(s: string)
    requires AllDigits(s, 16)
    ensures ValueOf(s, 16) < Pow(16, |s|)
  {
    if s != "" { ValueBound(s[..|s| - 1]); }
  }

  lemma {:induction false} PowMonotone(i: nat, j: nat)
    requires i <= j
    ensures Pow(16, i) <= Pow(16, j)
    decreases j
  {
    if i < j { PowMonotone(i, j - 1); }
  }

  // Which error a refused request gets: pid first, then size, then address, then range.
  lemma ValidateErrors(pid: u32, addr: string, size: nat)
    ensures var goodPid, goodSize := 1 <= pid <= 0x7fff_ffff, 1 <= size <= 4096;
            && (Validate(pid, addr, size) == Err(BadPid) <==> !goodPid)
            && (Validate(pid, addr, size) == Err(BadSize) <==> goodPid && !goodSize)
            && (Validate(pid, addr, size) == Err(BadAddress)
                <==> goodPid && goodSize && forall a: u64 :: !Denotes(addr, a))
            && (Validate(pid, addr, size) == Err(RangeOverflow)
                <==> goodPid && goodSize && exists a: u64 :: Denotes(addr, a) && a + size > U64_LIMIT)
  {
    hide Trim, ValueOf, StripAddressPrefix, FromStrRadix, AllHexDigits, Denotes;
    var text := StripAddressPrefix(Trim(addr));
    forall a: u64 ensures Denotes(addr, a) <==> 1 <= |text| <= 16 && AllHexDigits(text) && ValueOf(text, 16) == a {
      ValidateIff(1, addr, 1, a);
      if 1 <= |text| <= 16 && AllHexDigits(text) { HexDigitsParse(text); }
    }
    if 1 <= |text| <= 16 && AllHexDigits(text) {
      HexDigitsParse(text);
      assert Denotes(addr, ValueOf(text, 16));
    }
  }

  // ----- decoding -----

  function PairText(b: byte): (r: string)
    ensures |r| == 2
  {
    [HexChar(b / 16), HexChar(b % 16)]
  }

  function HexPairs(data: seq<byte>): (r: string)
    ensures |r| == 2 * |data|
  {
    if data == [] then "" else PairText(data[0]) + HexPairs(data[1..])
  }

  lemma PairRoundTrip(b: byte)
    ensures ByteText(b) == [HexChar(b / 16), HexChar(b % 16)]
    ensures IsHexDigit(HexChar(b / 16)) && IsHexDigit(HexChar(b % 16))
    ensures PairValue(HexChar(b / 16), HexChar(b % 16)) == b
  {
    if b >= 16 { assert Hex(b) == [HexChar(b / 16)] + [HexChar(b % 16)]; }
  }

  lemma DigitOfHexChar(c: char)
    requires IsHexDigit(c)
    ensures DigitOf(c) < 16 && HexChar(DigitOf(c)) == LowerChar(c)
  {}

  // Digits decode to `data` exactly when, in lower case, they are its hex pairs.
  lemma {:induction false} PairsDecodeIff(digits: string, data: seq<byte>)
    requires |digits| % 2 == 0 && AllHexDigits(digits)
    ensures DecodePairs(digits) == data <==> Lower(digits) == HexPairs(data)
  {
    if digits == "" {
      assert Lower(digits) == "";
    } else if data == [] {
      assert |Lower(digits)| == |digits|;
    } else {
      PairsDecodeIff(digits[2..], data[1..]);
      FirstPair(digits, data);
    }
  }

  lemma FirstPair(digits: string, data: seq<byte>)
    requires |digits| >= 2 && IsHexDigit(digits[0]) && IsHexDigit(digits[1]) && data != []
    ensures Lower(digits) == HexPairs(data)
            <==> PairValue(digits[0], digits[1]) == data[0] && Lower(digits[2..]) == HexPairs(data[1..])
  {
    var low := Lower(digits);
    var hi, lo := HexChar(data[0] / 16), HexChar(data[0] % 16);
    assert low[2..] == Lower(digits[2..]);
    assert low == [low[0], low[1]] + low[2..];
    PairIff(digits[0], digits[1], data[0]);
    if low == HexPairs(data) {
      SplitsAlike([low[0], low[1]], low[2..], [hi, lo], HexPairs(data[1..]));
      assert [low[0], low[1]][0] == [hi, lo][0] && [low[0], low[1]][1] == [hi, lo][1];
    }
  }

  lemma PairIff(a: char, b: char, v: byte)
    requires IsHexDigit(a) && IsHexDigit(b)
    ensures PairValue(a, b) == v <==> LowerChar(a) == HexChar(v / 16) && LowerChar(b) == HexChar(v % 16)
  {
    hide HexChar, DigitOf, LowerChar;
    DigitOfHexChar(a);
    DigitOfHexChar(b);
    SixteenSplit(DigitOf(a), DigitOf(b), v);
    HexCharsDiffer(DigitOf(a), v / 16);
    HexCharsDiffer(DigitOf(b), v % 16);
  }

  lemma SixteenSplit(hi: nat, lo: nat, v: nat)
    requires hi < 16 && lo < 16
    ensures hi * 16 + lo == v <==> hi == v / 16 && lo == v % 16
  {}

  lemma HexCharsDiffer(x: nat, y: nat)
    requires x < 16 && y < 16
    ensures HexChar(x) == HexChar(y) <==> x == y
  {}

  lemma HexPairsAreDigits(data: seq<byte>)
    ensures AllHexDigits(HexPairs(data))
  {
    if data != [] {
      HexPairsAreDigits(data[1..]);
      PairRoundTrip(data[0]);
    }
  }

  lemma LowerDigits(s: string)
    requires AllHexDigits(Lower(s))
    ensures AllHexDigits(s)
  {
    forall k | 0 <= k < |s| ensures IsHexDigit(s[k]) { assert IsHexDigit(Lower(s)[k]); }
  }

  // Decoding succeeds with `data` exactly on the texts that are its hex pairs in either case, with
  // ASCII white space anywhere, for one to 4096 bytes.
  lemma DecodeHexIff(text: string, data: seq<byte>)
    ensures DecodeHex(text) == Some(data)
            <==> 1 <= |data| <= MAX_BYTES && Lower(Squeeze(text)) == HexPairs(data)
  {
    hide Squeeze, DecodePairs, HexPairs;
    var digits := Squeeze(text);
    if Lower(digits) == HexPairs(data) {
      HexPairsAreDigits(data);
      LowerDigits(digits);
      assert |digits| == |Lower(digits)|;
    }
    if |digits| % 2 == 0 && AllHexDigits(digits) {
      PairsDecodeIff(digits, data);
      assert |digits| == |Lower(digits)|;
    }
  }

  // ----- the hex view read back -----

  lemma {:induction false} SqueezeConcat(a: string, b: string)
    ensures Squeeze(a + b) == Squeeze(a) + Squeeze(b)
    decreases |b|
  {
    if b == "" {
      assert a + b == a;
    } else {
      assert (a + b)[..|a + b| - 1] == a + b[..|b| - 1];
      SqueezeConcat(a, b[..|b| - 1]);
    }
  }

  // A blank, tab, line feed, form feed or carriage return may stand anywhere, even inside a pair; no other
  // character that is not a digit may.
  lemma BlankAnywhere(a: string, c: char, b: string)
    ensures c in " \t\n\U{0C}\r" ==> DecodeHex(a + [c] + b) == DecodeHex(a + b)
    ensures c !in " \t\n\U{0C}\r" && !IsHexDigit(c) ==> DecodeHex(a + [c] + b) == None
  {
    hide DecodePairs;
    SqueezeConcat(a + [c], b);
    SqueezeConcat(a, [c]);
    SqueezeConcat(a, b);
    SqueezeOne(c);
    if Squeeze([c]) == "" {
      assert Squeeze(a) + "" == Squeeze(a);
    } else {
      assert (Squeeze(a) + [c] + Squeeze(b))[|Squeeze(a)|] == c;
    }
    hide Squeeze;
  }

  lemma SqueezeOne(c: char)
    ensures Squeeze([c]) == if c in " \t\n\U{0C}\r" then "" else [c]
  {
    assert [c][..0] == "" && Squeeze("") == "";
    BlankChars(c);
    assert "" + [c] == [c];
  }

  lemma BlankChars(c: char)
    ensures c in " \t\n\U{0C}\r" <==> IsAsciiWhitespace(c)
  {
    var blanks := " \t\n\U{0C}\r";
    assert blanks[0] == ' ' && blanks[1] == '\t' && blanks[2] == '\n' && blanks[3] == '\U{0C}' && blanks[4] == '\r';
  }

  lemma {:induction false} SqueezeSolid(s: string)
    requires AllHexDigits(s)
    ensures Squeeze(s) == s
  {
    if s != "" {
      SqueezeSolid(s[..|s| - 1]);
      assert s == s[..|s| - 1] + [s[|s| - 1]];
      assert IsHexDigit(s[|s| - 1]);
    }
  }

  lemma SpaceSqueezed()
    ensures Squeeze(" ") == ""
  {
    assert " "[..0] == "";
  }

  lemma SqueezeSpaced(a: string, b: string)
    ensures Squeeze(a + " " + b) == Squeeze(a) + Squeeze(b)
  {
    hide Squeeze;
    SqueezeConcat(a + " ", b);
    SqueezeConcat(a, " ");
    SpaceSqueezed();
    assert Squeeze(a) + "" == Squeeze(a);
  }

  lemma {:induction false} HexPairsConcat(a: seq<byte>, b: seq<byte>)
    ensures HexPairs(a + b) == HexPairs(a) + HexPairs(b)
  {
    hide PairText;
    if a == [] {
      assert a + b == b;
    } else {
      HexPairsConcat(a[1..], b);
      assert (a + b)[1..] == a[1..] + b && (a + b)[0] == a[0];
      ConcatAssociative(PairText(a[0]), HexPairs(a[1..]), HexPairs(b));
    }
  }

  lemma {:induction false} HexLineIsPairs(bytes: seq<byte>)
    ensures Squeeze(HexLine(bytes)) == HexPairs(bytes)
  {
    if bytes != [] {
      var text := ByteText(bytes[0]);
      PairRoundTrip(bytes[0]);
      SqueezeSolid(text);
      HexLineIsPairs(bytes[1..]);
      if |bytes| > 1 {
        hide Squeeze, ByteText;
        SqueezeSpaced(text, HexLine(bytes[1..]));
      }
    }
  }

  // The hex columns of all rows, joined by spaces.
  function JoinHex(rows: seq<MemoryRow>): string {
    if rows == [] then ""
    else if |rows| == 1 then rows[0].hex
    else rows[0].hex + " " + JoinHex(rows[1..])
  }

  lemma {:induction false} JoinedRowsArePairs(addr: nat, data: seq<byte>)
    ensures Squeeze(JoinHex(Rows(addr, data))) == HexPairs(data)
    decreases |data|
  {
    hide Squeeze, HexLine, HexPairs, AsciiLine, Address;
    if data == [] {
      HexLineIsPairs([]);
      assert HexLine([]) == "" by { NoBytesNoText(); }
    } else {
      var n := if |data| < ROW_BYTES then |data| else ROW_BYTES;
      var rest := Rows(addr + ROW_BYTES, data[n..]);
      HexLineIsPairs(data[..n]);
      JoinedRowsArePairs(addr + ROW_BYTES, data[n..]);
      HexPairsConcat(data[..n], data[n..]);
      assert data == data[..n] + data[n..];
      assert Rows(addr, data)[1..] == rest;
      if rest == [] {
        NoBytesNoText();
        assert data[n..] == [];
        assert HexPairs(data[..n]) + "" == HexPairs(data[..n]);
      } else {
        SqueezeSpaced(HexLine(data[..n]), JoinHex(rest));
      }
    }
  }

  lemma NoBytesNoText()
    ensures HexLine([]) == "" && HexPairs([]) == ""
  {}

  lemma {:induction false} HexPairsAreLower(data: seq<byte>)
    ensures Lower(HexPairs(data)) == HexPairs(data)
  {
    if data != [] {
      HexPairsAreLower(data[1..]);
      var s := HexPairs(data);
      forall k | 0 <= k < |s| ensures LowerChar(s[k]) == s[k] {
        if k >= 2 { assert s[k] == HexPairs(data[1..])[k - 2] && Lower(HexPairs(data[1..]))[k - 2] == s[k]; }
      }
    }
  }

  // What the view shows is what was read: its hex columns decode to the data.
  lemma HexViewRoundTrip(addr: u64, data: seq<byte>)
    requires 1 <= |data| <= MAX_BYTES
    ensures DecodeHex(JoinHex(Rows(addr, data))) == Some(data)
  {
    hide DecodeHex, Rows, JoinHex, HexPairs;
    JoinedRowsArePairs(addr, data);
    HexPairsAreLower(data);
    DecodeHexIff(JoinHex(Rows(addr, data)), data);
  }

  function RowOf(addr: nat, data: seq<byte>, i: nat): MemoryRow
    requires ROW_BYTES * i < |data|
  {
    var end := if ROW_BYTES * i + ROW_BYTES < |data| then ROW_BYTES * i + ROW_BYTES else |data|;
    MemoryRow(Address(addr + ROW_BYTES * i), HexLine(data[ROW_BYTES * i..end]), AsciiLine(data[ROW_BYTES * i..end]))
  }

  lemma {:induction false} RowCount(addr: nat, data: seq<byte>)
    ensures ROW_BYTES * |Rows(addr, data)| >= |data|
    ensures data != [] ==> ROW_BYTES * (|Rows(addr, data)| - 1) < |data|
    decreases |data|
  {
    hide HexLine, AsciiLine, Address;
    if data != [] {
      var n := if |data| < ROW_BYTES then |data| else ROW_BYTES;
      RowCount(addr + ROW_BYTES, data[n..]);
    }
  }

  lemma SliceOfTail(data: seq<byte>, n: nat, lo: nat, hi: nat)
    requires n + hi <= |data| && lo <= hi
    ensures data[n..][lo..hi] == data[n + lo..n + hi]
  {}

  lemma {:induction false} RowAt(addr: nat, data: seq<byte>, i: nat)
    requires ROW_BYTES * i < |data|
    ensures i < |Rows(addr, data)| && Rows(addr, data)[i] == RowOf(addr, data, i)
    decreases |data|
  {
    hide HexLine, AsciiLine, Address;
    var n := if |data| < ROW_BYTES then |data| else ROW_BYTES;
    var rest := data[n..];
    if i > 0 {
      RowAt(addr + ROW_BYTES, rest, i - 1);
      var lo := ROW_BYTES * (i - 1);
      var hi := if lo + ROW_BYTES < |rest| then lo + ROW_BYTES else |rest|;
      SliceOfTail(data, n, lo, hi);
      assert addr + ROW_BYTES + lo == addr + ROW_BYTES * i;
    }
  }

  // The rows tile the range: row i starts 16 * i bytes in, shows those bytes and no others, and its
  // address never leaves 64 bits.
  lemma RowsTile(addr: u64, data: seq<byte>, i: nat)
    requires data != [] && addr + |data| <= U64_LIMIT
    ensures i < |Rows(addr, data)| <==> ROW_BYTES * i < |data|
    ensures ROW_BYTES * i < |data| ==> Rows(addr, data)[i] == RowOf(addr, data, i) && addr + ROW_BYTES * i < U64_LIMIT
  {
    hide Rows, RowOf;
    RowCount(addr, data);
    if ROW_BYTES * i < |data| { RowAt(addr, data, i); }
  }

  // ----- the response -----

  lemma {:induction false} HexLineAt(bytes: seq<byte>, k: nat)
    requires k < |bytes|
    ensures |HexLine(bytes)| == 3 * |bytes| - 1
    ensures HexLine(bytes)[3 * k..3 * k + 2] == ByteText(bytes[k])
    ensures k + 1 < |bytes| ==> HexLine(bytes)[3 * k + 2] == ' '
    decreases |bytes|
  {
    PairRoundTrip(bytes[0]);
    hide ByteText;
    if |bytes| > 1 {
      HexLineAt(bytes[1..], if k > 0 then k - 1 else 0);
      SpacedAt(ByteText(bytes[0]), HexLine(bytes[1..]), if k > 0 then 3 * (k - 1) else 0);
    }
  }

  lemma SpacedAt(first: string, rest: string, i: nat)
    requires |first| == 2 && i + 2 <= |rest|
    ensures var t := first + " " + rest;
            && |t| == 3 + |rest| && t[0..2] == first && t[2] == ' ' && t[3 + i..3 + i + 2] == rest[i..i + 2]
            && (i + 2 < |rest| ==> t[3 + i + 2] == rest[i + 2])
  {}

  // A row's columns, position by position: its address, two digits and a space per byte, and each byte as a
  // character where it is one that prints.
  ghost predicate RowShows(row: MemoryRow, addr: u64, bytes: seq<byte>) {
    && StripHexPrefix(row.addr).Some? && FromStrRadix(StripHexPrefix(row.addr).value, 16) == Some(addr)
    && |row.hex| == 3 * |bytes| - 1 && |row.ascii| == |bytes|
    && (forall k :: 0 <= k < |bytes| ==> HexShows(row.hex, k, bytes[k]))
    && (forall k :: 0 <= k < |bytes| - 1 ==> row.hex[3 * k + 2] == ' ')
    && (forall k :: 0 <= k < |bytes| ==> AsciiShows(row.ascii[k], bytes[k]))
  }

  predicate HexShows(hex: string, k: nat, b: byte) {
    3 * k + 2 <= |hex| && FromStrRadix(hex[3 * k..3 * k + 2], 16) == Some(b)
  }

  predicate AsciiShows(c: char, b: byte) {
    if ' ' as nat <= b <= '~' as nat then c as nat == b else c == '.'
  }

  lemma ByteReadsBack(b: byte)
    ensures FromStrRadix(ByteText(b), 16) == Some(b)
  {
    HexRoundTrip(b, 2);
  }

  lemma RowIsShown(addr: u64, bytes: seq<byte>)
    requires bytes != []
    ensures RowShows(MemoryRow(Address(addr), HexLine(bytes), AsciiLine(bytes)), addr, bytes)
  {
    hide ByteText, HexLine, FromStrRadix, HexPadded;
    HexRoundTrip(addr, 16);
    assert Address(addr)[2..] == HexPadded(addr, 16);
    HexLineAt(bytes, 0);
    forall k | 0 <= k < |bytes| ensures HexShows(HexLine(bytes), k, bytes[k]) {
      HexLineAt(bytes, k);
      ByteReadsBack(bytes[k]);
    }
    forall k | 0 <= k < |bytes| - 1 ensures HexLine(bytes)[3 * k + 2] == ' ' { HexLineAt(bytes, k); }
  }

  // The whole response of a read: pid, address and size as asked, and rows of 16 bytes that show the data.
  lemma ResponseShowsData(pid: u32, a: u64, data: seq<byte>, i: nat)
    requires data != [] && a + |data| <= U64_LIMIT
    ensures var r := FormatRead(pid, a, data);
            && r.pid == pid && r.size == |data| && r.data == data
            && StripHexPrefix(r.addr).Some? && FromStrRadix(StripHexPrefix(r.addr).value, 16) == Some(a)
            && (i < |r.rows| <==> 16 * i < |data|)
            && (16 * i < |data| ==> RowShows(r.rows[i], a + 16 * i, data[16 * i..Min(16 * i + 16, |data|)]))
  {
    hide Rows, HexLine, AsciiLine, FromStrRadix, HexPadded, RowShows;
    HexRoundTrip(a, 16);
    assert Address(a)[2..] == HexPadded(a, 16);
    RowsTile(a, data, i);
    if 16 * i < |data| { RowIsShown(a + 16 * i, data[16 * i..Min(16 * i + 16, |data|)]); }
  }

  // ----- paging -----

  // The bytes of the target's memory from `a` on.
  function MemoryAt(mem: nat -> byte, a: nat, n: nat): (r: seq<byte>)
    ensures |r| == n
  {
    if n == 0 then [] else MemoryAt(mem, a, n - 1) + [mem(a + n - 1)]
  }

  lemma {:induction false} MemorySplit(mem: nat -> byte, a: nat, n: nat, m: nat)
    ensures MemoryAt(mem, a, n + m) == MemoryAt(mem, a, n) + MemoryAt(mem, a + n, m)
  {
    if m > 0 {
      MemorySplit(mem, a, n, m - 1);
      ConcatAssociative(MemoryAt(mem, a, n), MemoryAt(mem, a + n, m - 1), [mem(a + n + m - 1)]);
    }
  }

  // A client that reads `sizes` bytes page by page, each time asking for the `next_addr` it was given;
  // none when a request is refused or there is no next address to ask for.
  function Walk(mem: nat -> byte, pid: u32, text: string, sizes: seq<nat>): Option<seq<byte>>
    decreases |sizes|
  {
    if sizes == [] then Some([])
    else
      match Validate(pid, text, sizes[0])
      case Err(_) => None
      case Ok(a) =>
        var page := FormatRead(pid, a, MemoryAt(mem, a, sizes[0]));
        if |sizes| == 1 then Some(page.data)
        else if page.nextAddr.None? then None
        else
          match Walk(mem, pid, page.nextAddr.value, sizes[1..])
          case None => None
          case Some(more) => Some(page.data + more)
  }

  function Sum(sizes: seq<nat>): nat { if sizes == [] then 0 else sizes[0] + Sum(sizes[1..]) }

  predicate PageSizes(sizes: seq<nat>) { forall k :: 0 <= k < |sizes| ==> 1 <= sizes[k] <= MAX_BYTES }

  // There is a next address exactly when the page does not end at the top of the address space.
  lemma NextAddressIff(pid: u32, a: u64, size: nat, data: seq<byte>)
    requires Validate(pid, Address(a), size) == Ok(a) && |data| == size
    ensures FormatRead(pid, a, data).nextAddr == None <==> a + size == U64_LIMIT
  {
    hide Address, Rows, Trim, FromStrRadix;
    ValidateIff(pid, Address(a), size, a);
  }

  // Paging reads the memory itself, with no gap and no overlap, and gets to the end exactly when the
  // range fits below 2^64.
  lemma {:induction false} WalkReadsMemory(mem: nat -> byte, pid: u32, a: u64, sizes: seq<nat>)
    requires 1 <= pid <= MAX_PID && PageSizes(sizes) && sizes != []
    ensures Walk(mem, pid, Address(a), sizes)
            == if a + Sum(sizes) <= U64_LIMIT then Some(MemoryAt(mem, a, Sum(sizes))) else None
    decreases |sizes|
  {
    hide Address, Validate, MemoryAt, Rows;
    var n, rest := sizes[0], sizes[1..];
    assert 1 <= n <= MAX_BYTES;
    if a + n <= U64_LIMIT {
      AddressTextParses(a, n, pid);
      if rest == [] {
        assert Sum(rest) == 0;
      } else if a + n < U64_LIMIT {
        WalkReadsMemory(mem, pid, a + n, rest);
        MemorySplit(mem, a, n, Sum(rest));
      } else {
        assert Sum(rest) >= rest[0] >= 1;
      }
    } else {
      AddressRefused(pid, a, n);
    }
  }

  lemma AddressRefused(pid: u32, a: u64, size: nat)
    requires a + size > U64_LIMIT
    ensures Validate(pid, Address(a), size).Err?
  {
    if Validate(pid, Address(a), size).Ok? && 1 <= pid <= MAX_PID {
      AddressTextParses(a, 1, pid);
    }
  }
}
