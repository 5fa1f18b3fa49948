// Register tables of src/arch: names by index, and the index found again from any spelling of a name.
module Registers {
  import opened Prelude
  import opened Text

  datatype Arch = X86_64 | Aarch64

  // `SAMPLE_REGS_USER` of each architecture.
  const X86_SAMPLE_REGS: nat := 0xFF0FFF
  const AARCH64_SAMPLE_REGS: nat := 0x1_FFFF_FFFF

  function CountOnes(n: nat): nat { if n == 0 then 0 else n % 2 + CountOnes(n / 2) }

  // `arch::regs_count()`.
  function RegsCount(arch: Arch): nat { if arch.X86_64? then 20 else 33 }

  // `n` in binary with `k` ones, or zeros, after it.
  function WithOnes(n: nat, k: nat): nat { if k == 0 then n else 2 * WithOnes(n, k - 1) + 1 }

  function WithZeros(n: nat, k: nat): nat { if k == 0 then n else 2 * WithZeros(n, k - 1) }

  lemma {:induction false} OnesAppended(n: nat, k: nat)
    ensures CountOnes(WithOnes(n, k)) == CountOnes(n) + k && CountOnes(WithZeros(n, k)) == CountOnes(n)
  {
    if k > 0 {
      OnesAppended(n, k - 1);
      OneMore(WithOnes(n, k - 1));
      OneMore(WithZeros(n, k - 1));
      hide CountOnes;
    }
  }

  lemma OneMore(n: nat)
    ensures CountOnes(2 * n + 1) == CountOnes(n) + 1 && CountOnes(2 * n) == CountOnes(n)
  {
    assert (2 * n + 1) / 2 == n && (2 * n) / 2 == n;
  }

  lemma RegsCountIsOnes(arch: Arch)
    ensures RegsCount(arch) == CountOnes(if arch.X86_64? then X86_SAMPLE_REGS else AARCH64_SAMPLE_REGS)
  {
    NoOnes();
    hide CountOnes;
    assert WithOnes(0, 8) == 0xFF;
    assert WithZeros(0xFF, 4) == 0xFF0;
    assert WithOnes(0xFF0, 12) == 0xFF0FFF;
    ThirtyThreeOnes();
    OnesAppended(0, 8);
    OnesAppended(0xFF, 4);
    OnesAppended(0xFF0, 12);
    OnesAppended(0, 33);
  }

  lemma NoOnes()
    ensures CountOnes(0) == 0
  {}

  lemma ThirtyThreeOnes()
    ensures WithOnes(0, 33) == AARCH64_SAMPLE_REGS
  {
    assert WithOnes(0, 16) == 0xFFFF by { assert WithOnes(0, 8) == 0xFF; }
    assert WithOnes(0, 32) == 0xFFFF_FFFF by { assert WithOnes(0, 24) == 0xFF_FFFF; }
  }

  function IdToStr(arch: Arch, id: nat): string {
    match arch
    case X86_64 => X86Name(id)
    case Aarch64 => Aarch64Name(id)
  }

  function X86Name(id: nat): string {
    match id
    case 0 => "ax" case 1 => "bx" case 2 => "cx" case 3 => "dx" case 4 => "si" case 5 => "di"
    case 6 => "bp" case 7 => "sp" case 8 => "ip" case 9 => "flags" case 10 => "cs" case 11 => "ss"
    case 12 => "r8" case 13 => "r9" case 14 => "r10" case 15 => "r11" case 16 => "r12"
    case 17 => "r13" case 18 => "r14" case 19 => "r15"
    case _ => "unknown"
  }

  function Aarch64Name(id: nat): string {
    match id
    case 0 => "x0" case 1 => "x1" case 2 => "x2" case 3 => "x3" case 4 => "x4" case 5 => "x5"
    case 6 => "x6" case 7 => "x7" case 8 => "x8" case 9 => "x9" case 10 => "x10" case 11 => "x11"
    case 12 => "x12" case 13 => "x13" case 14 => "x14" case 15 => "x15" case 16 => "x16"
    case 17 => "x17" case 18 => "x18" case 19 => "x19" case 20 => "x20" case 21 => "x21"
    case 22 => "x22" case 23 => "x23" case 24 => "x24" case 25 => "x25" case 26 => "x26"
    case 27 => "x27" case 28 => "x28" case 29 => "fp" case 30 => "lr" case 31 => "sp" case 32 => "pc"
    case _ => "unknown"
  }

  // The first index from `i` on whose name matches, ignoring ASCII case.
  function FindReg(arch: Arch, name: string, i: nat): (r: Option<nat>)
    requires i <= RegsCount(arch)
    ensures r.Some? ==> i <= r.value < RegsCount(arch) && EqIgnoreCase(IdToStr(arch, r.value), name)
    ensures forall j :: i <= j < (if r.Some? then r.value else RegsCount(arch)) ==>
              !EqIgnoreCase(IdToStr(arch, j), name)
    decreases RegsCount(arch) - i
  {
    if i == RegsCount(arch) then None
    else if EqIgnoreCase(IdToStr(arch, i), name) then Some(i)
    else FindReg(arch, name, i + 1)
  }

  // The index spelled by a name, read off its lower-case letters and digits.
  function SpelledIndex(arch: Arch, low: string): int {
    if |low| < 2 then 99
    else if arch.Aarch64? then
      if low[0] == 'x' then (if |low| == 2 then DigitOf(low[1]) else 10 * DigitOf(low[1]) + DigitOf(low[2]))
      else if low[0] == 'f' then 29
      else if low[0] == 'l' then 30
      else if low[0] == 's' then 31
      else 32
    else if low[0] == 'r' then
      (if |low| == 2 then DigitOf(low[1]) + 4 else 10 * DigitOf(low[1]) + DigitOf(low[2]) + 4)
    else if low[1] == 'x' then low[0] as int - 'a' as int
    else if low[1] == 'i' then (if low[0] == 's' then 4 else 5)
    else if low[1] == 'p' then (if low[0] == 'b' then 6 else if low[0] == 's' then 7 else 8)
    else if low[1] == 'l' then 9
    else if low[0] == 'c' then 10 else 11
  }

  lemma Aarch64Spelled(i: nat)
    requires i < 33
    ensures SpelledIndex(Aarch64, Lower(Aarch64Name(i))) == i
  {
    var n := Aarch64Name(i);
    assert Lower(n)[0] == LowerChar(n[0]) && Lower(n)[1] == LowerChar(n[1]);
    if 10 <= i < 29 { assert Lower(n)[2] == LowerChar(n[2]); }
  }

  lemma X86Spelled(i: nat)
    requires i < 20
    ensures SpelledIndex(X86_64, Lower(X86Name(i))) == i
  {
    var n := X86Name(i);
    assert Lower(n)[0] == LowerChar(n[0]) && Lower(n)[1] == LowerChar(n[1]);
    if 14 <= i { assert Lower(n)[2] == LowerChar(n[2]); }
  }

  // Every register is found by its own name in any case, and by no other register's.
  lemma NameFindsReg(arch: Arch, i: nat, name: string)
    requires i < RegsCount(arch) && EqIgnoreCase(IdToStr(arch, i), name)
    ensures FindReg(arch, name, 0) == Some(i)
  {
    hide X86Name, Aarch64Name, SpelledIndex;
    var found := FindReg(arch, name, 0);
    var j := if found.Some? then found.value else i;
    assert Lower(IdToStr(arch, i)) == Lower(IdToStr(arch, j));
    if arch.X86_64? { X86Spelled(i); X86Spelled(j); } else { Aarch64Spelled(i); Aarch64Spelled(j); }
  }

  // The names that are a letter and a number.
  lemma NumberedNames(i: nat)
    ensures i < 29 ==> IdToStr(Aarch64, i) == "x" + Decimal(i)
    ensures 8 <= i < 16 ==> IdToStr(X86_64, i + 4) == "r" + Decimal(i)
  {
    hide X86Name, Aarch64Name;
    if i < 29 { XName(i); }
    if 8 <= i < 16 { RName(i); }
  }

  lemma XName(i: nat)
    requires i < 29
    ensures Aarch64Name(i) == "x" + Decimal(i)
  {
    assert Decimal(i) == if i < 10 then [HexChar(i)] else [HexChar(i / 10), HexChar(i % 10)];
    hide Decimal;
  }

  lemma RName(i: nat)
    requires 8 <= i < 16
    ensures X86Name(i + 4) == "r" + Decimal(i)
  {
    assert Decimal(i) == if i < 10 then [HexChar(i)] else [HexChar(i / 10), HexChar(i % 10)];
    hide Decimal;
  }

  predicate IsWordChar(c: char) { IsAlphanumeric(c) || c == '_' }

  // A word character is a decimal digit, a letter in either case, or the underscore.
  lemma WordCharIff(c: char)
    ensures IsWordChar(c) <==> c == '_' || c in "0123456789" || LowerChar(c) in "abcdefghijklmnopqrstuvwxyz"
  {
    DecimalDigitIff(c);
    SmallLetterIff(LowerChar(c));
  }

  lemma DecimalDigitIff(c: char)
    ensures c in "0123456789" <==> '0' <= c <= '9'
  {
    var s := "0123456789";
    if '0' <= c <= '9' { assert s[c as int - '0' as int] == c; }
  }

  lemma SmallLetterIff(c: char)
    ensures c in "abcdefghijklmnopqrstuvwxyz" <==> 'a' <= c <= 'z'
  {
    var s := "abcdefghijklmnopqrstuvwxyz";
    if 'a' <= c <= 'z' { assert s[c as int - 'a' as int] == c; }
  }

  // Register names are words.
  lemma NameIsWord(arch: Arch, i: nat)
    requires i < RegsCount(arch)
    ensures IdToStr(arch, i) != ""
    ensures forall k :: 0 <= k < |IdToStr(arch, i)| ==> IsWordChar(IdToStr(arch, i)[k])
  {}
}
