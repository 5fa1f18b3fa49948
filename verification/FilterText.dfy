// Filters written back as text, and the spellings of one filter that all parse alike.
module FilterText {
  import opened Prelude
  import opened Text
  import opened Registers
  import opened Tokenizer
  import opened FilterParser
  import opened FilterGrammar

  // ----- canonical text -----

  function OperatorText(op: Operator): string {
    match op
    case Eq => "=="
    case Ne => "!="
    case Gt => ">"
    case Ge => ">="
    case Lt => "<"
    case Le => "<="
  }

  function NumberText(v: u64): string { "0x" + Hex(v) }

  function PrintPred(arch: Arch, p: Predicate): PredText {
    PredText(IdToStr(arch, p.reg),
             if p.mask.Some? then Some(NumberText(p.mask.value)) else None,
             OperatorText(p.op),
             NumberText(p.value))
  }

  function PrintGroup(arch: Arch, group: seq<Predicate>): Conj
    requires group != []
  {
    if |group| == 1 then OnePred(PrintPred(arch, group[0]))
    else AndThen(PrintPred(arch, group[0]), "and", PrintGroup(arch, group[1..]))
  }

  function PrintGroups(arch: Arch, groups: seq<seq<Predicate>>): Disj
    requires groups != [] && forall k :: 0 <= k < |groups| ==> groups[k] != []
  {
    if |groups| == 1 then OneGroup(PrintGroup(arch, groups[0]))
    else OrElse(PrintGroup(arch, groups[0]), "or", PrintGroups(arch, groups[1..]))
  }

  // What a parsed filter can hold: non-empty groups over registers that exist.
  predicate PrintableGroup(arch: Arch, group: seq<Predicate>) {
    group != [] && forall k :: 0 <= k < |group| ==> group[k].reg < RegsCount(arch)
  }

  predicate Printable(arch: Arch, groups: seq<seq<Predicate>>) {
    groups != [] && forall k :: 0 <= k < |groups| ==> PrintableGroup(arch, groups[k])
  }

  function PrintFilter(arch: Arch, groups: seq<seq<Predicate>>): string
    requires Printable(arch, groups)
  {
    Spaced(DisjTokens(PrintGroups(arch, groups)))
  }

  lemma NumberTextParses(v: u64)
    ensures ParseValue(NumberText(v)) == Ok(v)
    ensures IsToken(NumberText(v))
  {
    hide Hex, FromStrRadix;
    HexRoundTrip(v, 0);
    HexDigitsValue(v);
    assert NumberText(v)[2..] == Hex(v);
    HexIsWord(Hex(v));
  }

  lemma HexIsWord(digits: string)
    requires forall k :: 0 <= k < |digits| ==> IsHexDigit(digits[k])
    ensures IsToken("0x" + digits)
  {
    var t := "0x" + digits;
    forall k | 0 <= k < |t| ensures IsWordChar(t[k]) {
      if k >= 2 { assert IsHexDigit(digits[k - 2]) && t[k] == digits[k - 2]; }
    }
  }

  lemma PrintedPred(arch: Arch, p: Predicate)
    requires p.reg < RegsCount(arch)
    ensures GoodPred(arch, PrintPred(arch, p)) && PredMeaning(arch, PrintPred(arch, p)) == p
    ensures forall t :: t in PredTokens(PrintPred(arch, p)) ==> IsToken(t)
  {
    hide IdToStr, ParseValue, NumberText;
    NameFindsReg(arch, p.reg, IdToStr(arch, p.reg));
    NameIsWord(arch, p.reg);
    NumberTextParses(p.value);
    if p.mask.Some? { NumberTextParses(p.mask.value); }
    PrintedOperator(p.op);
  }

  lemma PrintedOperator(op: Operator)
    ensures ParseOperator(OperatorText(op)) == Ok(op) && IsToken(OperatorText(op)) && IsToken("&")
    ensures IsToken("and") && IsToken("or")
  {}

  lemma {:induction false} PrintedGroup(arch: Arch, group: seq<Predicate>)
    requires PrintableGroup(arch, group)
    ensures GoodConj(arch, PrintGroup(arch, group)) && ConjMeaning(arch, PrintGroup(arch, group)) == group
    ensures forall t :: t in ConjTokens(PrintGroup(arch, group)) ==> IsToken(t)
  {
    hide GoodPred, PredMeaning, PrintPred, PredTokens, IsToken;
    PrintedPred(arch, group[0]);
    PrintedOperator(Eq);
    if |group| > 1 {
      PrintedGroup(arch, group[1..]);
      assert group == [group[0]] + group[1..];
    }
  }

  lemma {:induction false} PrintedGroups(arch: Arch, groups: seq<seq<Predicate>>)
    requires Printable(arch, groups)
    ensures GoodDisj(arch, PrintGroups(arch, groups)) && DisjMeaning(arch, PrintGroups(arch, groups)) == groups
    ensures forall t :: t in DisjTokens(PrintGroups(arch, groups)) ==> IsToken(t)
  {
    hide GoodConj, ConjMeaning, PrintGroup, ConjTokens, IsToken;
    assert PrintableGroup(arch, groups[0]);
    PrintedGroup(arch, groups[0]);
    PrintedOperator(Eq);
    if |groups| > 1 {
      PrintedGroups(arch, groups[1..]);
      assert groups == [groups[0]] + groups[1..];
    }
  }

  // Printing a filter and parsing the text gives the same filter back.
  lemma FilterRoundTrip(arch: Arch, groups: seq<seq<Predicate>>)
    requires Printable(arch, groups)
    ensures ParseText(arch, PrintFilter(arch, groups)) == Ok(groups)
  {
    hide IsToken, GoodDisj, DisjMeaning, DisjTokens, Spaced, ParseTokens, Tokens;
    PrintedGroups(arch, groups);
    SpacedRoundTrip(DisjTokens(PrintGroups(arch, groups)));
    DerivationParses(arch, PrintGroups(arch, groups));
  }

  lemma {:induction false} GroupIsPrintable(arch: Arch, c: Conj)
    requires GoodConj(arch, c)
    ensures PrintableGroup(arch, ConjMeaning(arch, c))
  {
    if c.AndThen? { GroupIsPrintable(arch, c.rest); }
  }

  lemma {:induction false} FilterIsPrintable(arch: Arch, d: Disj)
    requires GoodDisj(arch, d)
    ensures Printable(arch, DisjMeaning(arch, d))
  {
    hide GoodConj, ConjMeaning, PrintableGroup;
    GroupIsPrintable(arch, d.group);
    if d.OrElse? { FilterIsPrintable(arch, d.rest); }
  }

  // Whatever parses has non-empty groups over existing registers, so it can be printed and re-read.
  lemma ParsedIsPrintable(arch: Arch, ts: seq<string>)
    requires ParseTokens(arch, ts).Ok?
    ensures Printable(arch, ParseTokens(arch, ts).value)
    ensures ParseText(arch, PrintFilter(arch, ParseTokens(arch, ts).value)) == ParseTokens(arch, ts)
  {
    hide Printable, ParseText, PrintFilter;
    var d := ParseHasDerivation(arch, ts);
    FilterIsPrintable(arch, d);
    FilterRoundTrip(arch, ParseTokens(arch, ts).value);
  }

  // ----- spellings -----

  predicate IsEquals(t: string) { t == "=" || t == "==" }

  // Two spellings of one token: letter case, `and`/`&&`, `or`/`||`, `=`/`==`.
  predicate SameSpelling(a: string, b: string) {
    EqIgnoreCase(a, b) || (IsAnd(a) && IsAnd(b)) || (IsOr(a) && IsOr(b)) || (IsEquals(a) && IsEquals(b))
  }

  predicate SameTokens(ts: seq<string>, us: seq<string>) {
    |ts| == |us| && forall k :: 0 <= k < |ts| ==> SameSpelling(ts[k], us[k])
  }

  // Both fail, or both succeed with the same value.
  predicate Agree<T(==)>(r: Result<T, FilterError>, s: Result<T, FilterError>) {
    (r.Ok? <==> s.Ok?) && (r.Ok? ==> r.value == s.value)
  }

  lemma {:induction false} FindRegIgnoresCase(arch: Arch, a: string, b: string, i: nat)
    requires EqIgnoreCase(a, b) && i <= RegsCount(arch)
    ensures FindReg(arch, a, i) == FindReg(arch, b, i)
    decreases RegsCount(arch) - i
  {
    hide IdToStr;
    if i < RegsCount(arch) { FindRegIgnoresCase(arch, a, b, i + 1); }
  }

  lemma SameReg(arch: Arch, a: string, b: string)
    requires SameSpelling(a, b)
    ensures Agree(ParseReg(arch, a), ParseReg(arch, b))
  {
    if EqIgnoreCase(a, b) {
      FindRegIgnoresCase(arch, a, b, 0);
    } else {
      RegIsNotReserved(arch, a);
      RegIsNotReserved(arch, b);
    }
  }

  lemma StripIgnoresCase(a: string, b: string)
    requires EqIgnoreCase(a, b)
    ensures StripHexPrefix(a).Some? <==> StripHexPrefix(b).Some?
    ensures StripHexPrefix(a).Some? ==> EqIgnoreCase(StripHexPrefix(a).value, StripHexPrefix(b).value)
  {
    EqIgnoreCaseAt(a, b);
    if |a| >= 2 {
      assert LowerChar(a[0]) == LowerChar(b[0]) && LowerChar(a[1]) == LowerChar(b[1]);
      EqIgnoreCaseAt(a[2..], b[2..]);
    }
  }

  lemma NumberIgnoresCase(a: string, b: string)
    requires EqIgnoreCase(a, b)
    ensures NumberOf(a) == NumberOf(b)
  {
    hide FromStrRadix, StripHexPrefix, EqIgnoreCase;
    StripIgnoresCase(a, b);
    RadixIgnoresCase(a, b, 10);
    if StripHexPrefix(a).Some? { RadixIgnoresCase(StripHexPrefix(a).value, StripHexPrefix(b).value, 16); }
  }

  lemma SameValue(a: string, b: string)
    requires SameSpelling(a, b)
    ensures Agree(ParseValue(a), ParseValue(b))
  {
    if EqIgnoreCase(a, b) {
      NumberIgnoresCase(a, b);
    } else {
      ValueIsNotReserved(a);
      ValueIsNotReserved(b);
    }
  }

  lemma NoLettersSame(a: string, b: string)
    requires EqIgnoreCase(a, b) && forall k :: 0 <= k < |a| ==> !IsAlphanumeric(a[k])
    ensures a == b
  {
    EqIgnoreCaseAt(a, b);
    assert forall k :: 0 <= k < |a| ==> a[k] == b[k];
  }

  lemma SameOperator(a: string, b: string)
    requires SameSpelling(a, b)
    ensures Agree(ParseOperator(a), ParseOperator(b))
  {
    if EqIgnoreCase(a, b) {
      if ParseOperator(a).Ok? { NoLettersSame(a, b); }
      if ParseOperator(b).Ok? { NoLettersSame(b, a); }
    } else {
      if ParseOperator(a).Ok? { OperatorIsNoWord(a); }
      if ParseOperator(b).Ok? { OperatorIsNoWord(b); }
    }
  }

  lemma SameConnective(a: string, b: string)
    requires SameSpelling(a, b)
    ensures IsAnd(a) <==> IsAnd(b)
    ensures IsOr(a) <==> IsOr(b)
    ensures EqIgnoreCase(a, "&") <==> EqIgnoreCase(b, "&")
  {
    WordShapes(a);
    WordShapes(b);
  }

  lemma SamePredicate(arch: Arch, ts: seq<string>, us: seq<string>, pos: nat)
    requires SameTokens(ts, us) && pos <= |ts|
    ensures Agree(PredicateAt(arch, ts, pos), PredicateAt(arch, us, pos))
  {
    hide ParseReg, ParseOperator, ParseValue, SameSpelling, EqIgnoreCase;
    if pos < |ts| { SameReg(arch, ts[pos], us[pos]); }
    SameMask(ts, us, pos + 1);
    var p := if MaskAt(ts, pos + 1).Ok? then MaskAt(ts, pos + 1).value.1 else pos;
    if p < |ts| { SameOperator(ts[p], us[p]); }
    if p + 1 < |ts| { SameValue(ts[p + 1], us[p + 1]); }
  }

  lemma SameMask(ts: seq<string>, us: seq<string>, pos: nat)
    requires SameTokens(ts, us)
    ensures Agree(MaskAt(ts, pos), MaskAt(us, pos))
  {
    hide ParseValue, SameSpelling, EqIgnoreCase;
    if pos < |ts| { SameConnective(ts[pos], us[pos]); }
    if pos + 1 < |ts| { SameValue(ts[pos + 1], us[pos + 1]); }
  }

  lemma {:induction false} SameGroup(arch: Arch, ts: seq<string>, us: seq<string>, pos: nat)
    requires SameTokens(ts, us) && pos <= |ts|
    ensures Agree(GroupAt(arch, ts, pos), GroupAt(arch, us, pos))
    decreases |ts| - pos
  {
    hide PredicateAt, SameSpelling, EqIgnoreCase;
    SamePredicate(arch, ts, us, pos);
    if PredicateAt(arch, ts, pos).Ok? {
      var next := PredicateAt(arch, ts, pos).value.1;
      if next < |ts| {
        SameConnective(ts[next], us[next]);
        SameGroup(arch, ts, us, next + 1);
      }
    }
  }

  lemma {:induction false} SameFilter(arch: Arch, ts: seq<string>, us: seq<string>, pos: nat)
    requires SameTokens(ts, us) && pos <= |ts|
    ensures Agree(FilterAt(arch, ts, pos), FilterAt(arch, us, pos))
    decreases |ts| - pos
  {
    hide GroupAt, SameSpelling, EqIgnoreCase;
    SameGroup(arch, ts, us, pos);
    if GroupAt(arch, ts, pos).Ok? {
      var next := GroupAt(arch, ts, pos).value.1;
      if next < |ts| {
        SameConnective(ts[next], us[next]);
        SameFilter(arch, ts, us, next + 1);
      }
    }
  }

  // Re-spelling tokens changes neither whether a filter parses nor what it parses to.
  lemma SpellingInvariance(arch: Arch, ts: seq<string>, us: seq<string>)
    requires SameTokens(ts, us)
    ensures Agree(ParseTokens(arch, ts), ParseTokens(arch, us))
  {
    SameFilter(arch, ts, us, 0);
  }

  // The same for texts: any two layouts whose tokens are spellings of each other.
  lemma TextSpellingInvariance(arch: Arch, l: Layout, m: Layout)
    requires WellLaid(l) && WellLaid(m) && SameTokens(TokensOf(l), TokensOf(m))
    ensures Agree(ParseText(arch, Written(l)), ParseText(arch, Written(m)))
  {
    TokenizeComplete(l);
    TokenizeComplete(m);
    SpellingInvariance(arch, TokensOf(l), TokensOf(m));
  }

  // ----- upper case -----

  lemma UpperCharKinds(c: char, d: char)
    ensures IsWhitespace(UpperChar(c)) <==> IsWhitespace(c)
    ensures IsOperatorChar(UpperChar(c)) <==> IsOperatorChar(c)
    ensures IsWordChar(UpperChar(c)) <==> IsWordChar(c)
    ensures !IsWordChar(c) ==> UpperChar(c) == c
    ensures IsOperatorChar(c) ==> (Continues(c, UpperChar(d)) <==> Continues(c, d))
  {}

  function UpperAll(ts: seq<string>): (us: seq<string>)
    ensures |us| == |ts| && forall k :: 0 <= k < |ts| ==> us[k] == Upper(ts[k])
  {
    seq(|ts|, k requires 0 <= k < |ts| => Upper(ts[k]))
  }

  lemma {:induction false} UpperWordEnd(s: string, i: nat)
    requires i <= |s|
    ensures WordEnd(Upper(s), i) == WordEnd(s, i)
    decreases |s| - i
  {
    if i < |s| {
      UpperCharKinds(s[i], s[i]);
      if IsWordChar(s[i]) { UpperWordEnd(s, i + 1); }
    }
  }

  lemma {:induction false} UpperTokens(s: string, i: nat)
    requires i <= |s|
    ensures TokensFrom(s, i).Ok? ==> TokensFrom(Upper(s), i) == Ok(UpperAll(TokensFrom(s, i).value))
    ensures TokensFrom(s, i).Err? ==> TokensFrom(Upper(s), i) == TokensFrom(s, i)
    decreases |s| - i
  {
    hide IsWhitespace, IsOperatorChar, IsWordChar, Continues, UpperChar, WordEnd;
    if i < |s| {
      UpperCharKinds(s[i], s[i]);
      if IsWhitespace(s[i]) {
        UpperTokens(s, i + 1);
      } else if IsOperatorChar(s[i]) || IsWordChar(s[i]) {
        if i + 1 < |s| { UpperCharKinds(s[i], s[i + 1]); }
        UpperOperator(s[i]);
        UpperWordEnd(s, i + 1);
        var n := TokenEnd(s, i);
        assert TokenEnd(Upper(s), i) == n;
        UpperTokens(s, n);
        assert Upper(s)[i..n] == Upper(s[i..n]);
        if TokensFrom(s, n).Ok? { UpperPrepend(s[i..n], TokensFrom(s, n).value); }
      }
    }
  }

  lemma UpperOperator(c: char)
    ensures IsOperatorChar(c) ==> UpperChar(c) == c
  {}

  lemma UpperPrepend(t: string, ts: seq<string>)
    ensures UpperAll([t] + ts) == [Upper(t)] + UpperAll(ts)
  {}

  // A filter in capitals is the same filter.
  lemma UpperCaseInvariance(arch: Arch, s: string)
    ensures Agree(ParseText(arch, s), ParseText(arch, Upper(s)))
  {
    UpperTokens(s, 0);
    if Tokens(s).Ok? {
      var ts := Tokens(s).value;
      forall k | 0 <= k < |ts| ensures SameSpelling(ts[k], UpperAll(ts)[k]) { UpperIsCapital(ts[k]); }
      SpellingInvariance(arch, ts, UpperAll(ts));
    }
  }
}
