// What a filter text means, and that the parsed filter means the same. The meaning is read off the
// tokens alone: split at an `or` first, then at an `and`, then test the register of that name.
module FilterMeaning {
  import opened Prelude
  import opened Text
  import opened Bits
  import opened Registers
  import opened FilterParser
  import opened FilterGrammar

  // ----- a token list has one derivation -----

  lemma PredUnique(arch: Arch, p: PredText, q: PredText, r: seq<string>, t: seq<string>)
    requires GoodPred(arch, p) && GoodPred(arch, q)
    requires PredTokens(p) + r == PredTokens(q) + t
    ensures p == q && r == t
  {
    hide ParseValue, ParseReg;
    OperatorIsNoWord(p.op);
    OperatorIsNoWord(q.op);
    var a, b := PredTokens(p) + r, PredTokens(q) + t;
    assert a[0] == b[0] && a[1] == b[1] && a[2] == b[2];
    assert p.mask.Some? <==> q.mask.Some?;
    SplitsAlike(PredTokens(p), r, PredTokens(q), t);
    if p.mask.Some? { assert a[3] == b[3] && a[4] == b[4]; }
  }

  lemma {:induction false} ConjUnique(arch: Arch, c: Conj, d: Conj, r: seq<string>, t: seq<string>)
    requires GoodConj(arch, c) && GoodConj(arch, d)
    requires ConjTokens(c) + r == ConjTokens(d) + t
    requires (r != [] ==> !IsAnd(r[0])) && (t != [] ==> !IsAnd(t[0]))
    ensures c == d && r == t
  {
    hide GoodPred, PredTokens, IsAnd;
    var cr := if c.AndThen? then [c.word] + ConjTokens(c.rest) else [];
    var dr := if d.AndThen? then [d.word] + ConjTokens(d.rest) else [];
    ConcatAssociative(PredTokens(c.pred), cr, r);
    ConcatAssociative(PredTokens(d.pred), dr, t);
    assert ConjTokens(c) + r == PredTokens(c.pred) + (cr + r);
    assert ConjTokens(d) + t == PredTokens(d.pred) + (dr + t);
    PredUnique(arch, c.pred, d.pred, cr + r, dr + t);
    if c.AndThen? { assert (cr + r)[0] == c.word; }
    if d.AndThen? { assert (dr + t)[0] == d.word; }
    assert [] + r == r && [] + t == t;
    assert c.AndThen? <==> d.AndThen?;
    if c.AndThen? && d.AndThen? {
      ConcatAssociative([c.word], ConjTokens(c.rest), r);
      ConcatAssociative([d.word], ConjTokens(d.rest), t);
      SplitsAlike([c.word], ConjTokens(c.rest) + r, [d.word], ConjTokens(d.rest) + t);
      assert [c.word][0] == [d.word][0];
      ConjUnique(arch, c.rest, d.rest, r, t);
    }
  }

  lemma {:induction false} DisjUnique(arch: Arch, c: Disj, d: Disj)
    requires GoodDisj(arch, c) && GoodDisj(arch, d) && DisjTokens(c) == DisjTokens(d)
    ensures c == d
  {
    hide GoodConj, ConjTokens, IsAnd, IsOr;
    var cr := if c.OrElse? then [c.word] + DisjTokens(c.rest) else [];
    var dr := if d.OrElse? then [d.word] + DisjTokens(d.rest) else [];
    assert ConjTokens(c.group) + [] == ConjTokens(c.group) && ConjTokens(d.group) + [] == ConjTokens(d.group);
    if c.OrElse? { OrIsNotAnd(c.word); }
    if d.OrElse? { OrIsNotAnd(d.word); }
    ConjUnique(arch, c.group, d.group, cr, dr);
    if c.OrElse? && d.OrElse? {
      SplitsAlike([c.word], DisjTokens(c.rest), [d.word], DisjTokens(d.rest));
      assert [c.word][0] == [d.word][0];
      DisjUnique(arch, c.rest, d.rest);
    }
  }

  // ----- the Boolean meaning of a token list -----

  // Registers as a hit shows them: name and value.
  function Named(arch: Arch, regs: seq<u64>): seq<(string, u64)> {
    seq(|regs|, i requires 0 <= i < |regs| => (IdToStr(arch, i), regs[i]))
  }

  function Lookup(named: seq<(string, u64)>, name: string, i: nat): Option<u64>
    requires i <= |named|
    decreases |named| - i
  {
    if i == |named| then None
    else if EqIgnoreCase(named[i].0, name) then Some(named[i].1)
    else Lookup(named, name, i + 1)
  }

  // The relation an operator's text stands for.
  predicate Relates(op: string, a: nat, b: nat) {
    || (a == b && (op == "=" || op == "==" || op == ">=" || op == "<="))
    || (a > b && (op == ">" || op == ">=" || op == "!="))
    || (a < b && (op == "<" || op == "<=" || op == "!="))
  }

  // Decimal digits, or hexadecimal digits after 0x or 0X; one plus sign may stand before the digits.
  ghost predicate DenotesNumber(t: string, v: nat) {
    WrittenAs(t, 10, v) || exists rest :: (t == "0x" + rest || t == "0X" + rest) && WrittenAs(rest, 16, v)
  }

  // `lhs` is what the comparison sees of the register: the bits it shares with the mask, if there is one.
  ghost predicate Masked(reg: u64, mask: Option<string>, lhs: u64) {
    if mask.None? then lhs == reg else exists m: u64 :: DenotesNumber(mask.value, m) && SharedBits(reg, m, lhs)
  }

  // `NAME [& MASK] OP VALUE`, tested on the register of that name.
  ghost predicate Test(named: seq<(string, u64)>, name: string, mask: Option<string>, op: string, value: string) {
    var reg := Lookup(named, name, 0);
    && reg.Some?
    && exists lhs: u64, v: u64 :: Masked(reg.value, mask, lhs) && DenotesNumber(value, v) && Relates(op, lhs, v)
  }

  ghost predicate AtomTruth(named: seq<(string, u64)>, ts: seq<string>) {
    if |ts| == 3 then Test(named, ts[0], None, ts[1], ts[2])
    else |ts| == 5 && ts[1] == "&" && Test(named, ts[0], Some(ts[2]), ts[3], ts[4])
  }

  function FirstAnd(ts: seq<string>, i: nat): (k: nat)
    requires i <= |ts|
    ensures i <= k <= |ts|
    decreases |ts| - i
  {
    if i < |ts| && !IsAnd(ts[i]) then FirstAnd(ts, i + 1) else i
  }

  function FirstOr(ts: seq<string>, i: nat): (k: nat)
    requires i <= |ts|
    ensures i <= k <= |ts|
    decreases |ts| - i
  {
    if i < |ts| && !IsOr(ts[i]) then FirstOr(ts, i + 1) else i
  }

  ghost predicate AndTruth(named: seq<(string, u64)>, ts: seq<string>)
    decreases |ts|
  {
    var k := FirstAnd(ts, 0);
    if k < |ts| then AndTruth(named, ts[..k]) && AndTruth(named, ts[k + 1..]) else AtomTruth(named, ts)
  }

  ghost predicate Truth(named: seq<(string, u64)>, ts: seq<string>)
    decreases |ts|
  {
    var k := FirstOr(ts, 0);
    if k < |ts| then Truth(named, ts[..k]) || Truth(named, ts[k + 1..]) else AndTruth(named, ts)
  }

  // ----- where the connectives stand -----

  lemma {:induction false} FirstAndIs(ts: seq<string>, i: nat, k: nat)
    requires i <= k <= |ts| && (forall j :: i <= j < k ==> !IsAnd(ts[j])) && (k < |ts| ==> IsAnd(ts[k]))
    ensures FirstAnd(ts, i) == k
    decreases k - i
  {
    if i < k { FirstAndIs(ts, i + 1, k); }
  }

  lemma {:induction false} FirstOrIs(ts: seq<string>, i: nat, k: nat)
    requires i <= k <= |ts| && (forall j :: i <= j < k ==> !IsOr(ts[j])) && (k < |ts| ==> IsOr(ts[k]))
    ensures FirstOr(ts, i) == k
    decreases k - i
  {
    if i < k { FirstOrIs(ts, i + 1, k); }
  }

  predicate NoConnectives(ts: seq<string>) { forall j :: 0 <= j < |ts| ==> !IsAnd(ts[j]) && !IsOr(ts[j]) }

  lemma ReservedAreNotOperators(t: string)
    ensures IsAnd(t) || IsOr(t) ==> IsReserved(t)
    ensures ParseOperator(t).Ok? || t == "&" ==> !IsAnd(t) && !IsOr(t)
  {
    WordShapes(t);
  }

  lemma OkTokensNotConnectives(arch: Arch, t: string)
    requires ParseReg(arch, t).Ok? || ParseValue(t).Ok? || ParseOperator(t).Ok? || t == "&"
    ensures !IsAnd(t) && !IsOr(t)
  {
    hide ParseReg, ParseValue, ParseOperator, IsAnd, IsOr;
    ReservedAreNotOperators(t);
    if IsReserved(t) {
      RegIsNotReserved(arch, t);
      ValueIsNotReserved(t);
    }
  }

  lemma PredHasNoConnectives(arch: Arch, p: PredText)
    requires GoodPred(arch, p)
    ensures NoConnectives(PredTokens(p))
  {
    hide IsAnd, IsOr, ParseReg, ParseValue, ParseOperator;
    OkTokensNotConnectives(arch, p.reg);
    OkTokensNotConnectives(arch, p.op);
    OkTokensNotConnectives(arch, p.value);
    OkTokensNotConnectives(arch, "&");
    if p.mask.Some? { OkTokensNotConnectives(arch, p.mask.value); }
  }

  predicate NoOrs(ts: seq<string>) { forall j :: 0 <= j < |ts| ==> !IsOr(ts[j]) }

  lemma {:induction false} ConjHasNoOr(arch: Arch, c: Conj)
    requires GoodConj(arch, c)
    ensures NoOrs(ConjTokens(c))
  {
    hide GoodPred, PredTokens, IsOr;
    PredHasNoConnectives(arch, c.pred);
    if c.AndThen? {
      ConjHasNoOr(arch, c.rest);
      AndIsNotOr(c.word);
    }
  }

  lemma AndIsNotOr(t: string)
    requires IsAnd(t)
    ensures !IsOr(t)
  {
    WordShapes(t);
  }

  // ----- the parsed filter has that meaning -----

  lemma {:induction false} LookupByIndex(arch: Arch, regs: seq<u64>, name: string, i: nat)
    requires i <= RegsCount(arch) && i <= |regs| && FindReg(arch, name, i).Some?
    ensures var k := FindReg(arch, name, i).value;
            Lookup(Named(arch, regs), name, i) == if k < |regs| then Some(regs[k]) else None
    decreases |regs| - i
  {
    hide IdToStr;
    if i < |regs| && !EqIgnoreCase(IdToStr(arch, i), name) { LookupByIndex(arch, regs, name, i + 1); }
  }

  lemma OperatorRelates(op: string, a: u64, b: u64)
    requires ParseOperator(op).Ok?
    ensures Compare(ParseOperator(op).value, a, b) == Relates(op, a, b)
  {}

  // A number token parses to a value exactly when it denotes it.
  lemma NumberIff(t: string, v: u64)
    ensures ParseValue(t) == Ok(v) <==> DenotesNumber(t, v)
  {
    hide FromStrRadix, WrittenAs;
    FromStrRadixIff(t, 10, v);
    var hex := StripHexPrefix(t);
    if hex.Some? {
      FromStrRadixIff(hex.value, 16, v);
      assert t == "0x" + hex.value || t == "0X" + hex.value;
      NotDigitsNoNumber(t, 1, 10);
      assert FromStrRadix(t, 10) == None;
    }
    forall rest | t == "0x" + rest || t == "0X" + rest ensures hex == Some(rest) { assert t[2..] == rest; }
  }

  // Decimal as people write it.
  lemma DecimalParses(v: u64)
    ensures ParseValue(Decimal(v)) == Ok(v)
  {
    DecimalRoundTrip(v);
    DecimalValue(v);
    assert StripHexPrefix(Decimal(v)) == None by {
      if |Decimal(v)| >= 2 { assert IsDecDigit(Decimal(v)[1]); }
    }
  }

  lemma MaskedIff(reg: u64, mask: Option<string>, lhs: u64)
    requires mask.Some? ==> ParseValue(mask.value).Ok?
    ensures Masked(reg, mask, lhs)
            <==> lhs == if mask.Some? then BitAnd(reg, ParseValue(mask.value).value) else reg
  {
    hide BitAnd, SharedBits, DenotesNumber, ParseValue;
    if mask.Some? {
      var m := ParseValue(mask.value).value;
      NumberIff(mask.value, m);
      BitAndIff(reg, m, lhs);
      forall k: u64 | DenotesNumber(mask.value, k) ensures k == m { NumberIff(mask.value, k); }
    }
  }

  lemma TestIs(named: seq<(string, u64)>, name: string, mask: Option<string>, op: string, value: string)
    requires ParseValue(value).Ok? && (mask.Some? ==> ParseValue(mask.value).Ok?) && Lookup(named, name, 0).Some?
    ensures var reg := Lookup(named, name, 0).value;
            var lhs := if mask.Some? then BitAnd(reg, ParseValue(mask.value).value) else reg;
            Test(named, name, mask, op, value) == Relates(op, lhs, ParseValue(value).value)
  {
    hide Masked, DenotesNumber, BitAnd, Relates, ParseValue, Lookup;
    var reg, v := Lookup(named, name, 0).value, ParseValue(value).value;
    var lhs := if mask.Some? then BitAnd(reg, ParseValue(mask.value).value) else reg;
    MaskedIff(reg, mask, lhs);
    NumberIff(value, v);
    forall l: u64, k: u64 | Masked(reg, mask, l) && DenotesNumber(value, k) ensures l == lhs && k == v {
      MaskedIff(reg, mask, l);
      NumberIff(value, k);
    }
  }

  lemma PredTruth(arch: Arch, regs: seq<u64>, p: PredText)
    requires GoodPred(arch, p)
    ensures AtomTruth(Named(arch, regs), PredTokens(p)) == Holds(PredMeaning(arch, p), regs)
  {
    hide BitAnd, Test, Compare, Relates, Named, IdToStr, ParseOperator, ParseValue;
    LookupByIndex(arch, regs, p.reg, 0);
    var reg := Lookup(Named(arch, regs), p.reg, 0);
    if reg.Some? {
      TestIs(Named(arch, regs), p.reg, p.mask, p.op, p.value);
      var lhs := if p.mask.Some? then BitAnd(reg.value, ParseValue(p.mask.value).value) else reg.value;
      OperatorRelates(p.op, lhs, ParseValue(p.value).value);
    } else {
      NoRegNoTest(Named(arch, regs), p);
    }
  }

  lemma NoRegNoTest(named: seq<(string, u64)>, p: PredText)
    requires Lookup(named, p.reg, 0).None?
    ensures !Test(named, p.reg, p.mask, p.op, p.value)
  {}

  lemma AllHoldFirst(p: Predicate, group: seq<Predicate>, regs: seq<u64>)
    ensures AllHold([p] + group, regs) == (Holds(p, regs) && AllHold(group, regs))
  {
    hide Holds;
    var all := [p] + group;
    assert all[0] == p;
    forall q ensures q in all <==> q == p || q in group {}
    if AllHold(all, regs) { assert p in all; }
  }

  lemma MatchesFirst(g: seq<Predicate>, groups: seq<seq<Predicate>>, regs: seq<u64>)
    ensures Matches([g] + groups, regs) == (AllHold(g, regs) || Matches(groups, regs))
  {
    hide AllHold;
    var all := [g] + groups;
    assert all[0] == g;
    forall h ensures h in all <==> h == g || h in groups {}
    if AllHold(g, regs) { assert g in all; }
    if Matches(groups, regs) {
      var h :| h in groups && AllHold(h, regs);
      assert h in all;
    }
  }

  lemma {:induction false} ConjTruth(arch: Arch, regs: seq<u64>, c: Conj)
    requires GoodConj(arch, c)
    ensures AndTruth(Named(arch, regs), ConjTokens(c)) == AllHold(ConjMeaning(arch, c), regs)
  {
    hide GoodPred, PredTokens, PredMeaning, Holds, AllHold, AtomTruth, Named, IsAnd, IsOr;
    var ts, first, named := ConjTokens(c), PredTokens(c.pred), Named(arch, regs);
    PredHasNoConnectives(arch, c.pred);
    PredTruth(arch, regs, c.pred);
    FirstAndIs(first, 0, |first|);
    AllHoldFirst(PredMeaning(arch, c.pred), if c.AndThen? then ConjMeaning(arch, c.rest) else [], regs);
    NothingHolds(regs);
    if c.AndThen? {
      ConjTruth(arch, regs, c.rest);
      assert ts[..|first|] == first && ts[|first|] == c.word && ts[|first| + 1..] == ConjTokens(c.rest);
      FirstAndIs(ts, 0, |first|);
      assert AndTruth(named, first) == AtomTruth(named, first);
    }
  }

  lemma NothingHolds(regs: seq<u64>)
    ensures AllHold([], regs) && !Matches([], regs)
  {}

  lemma {:induction false} DisjTruth(arch: Arch, regs: seq<u64>, d: Disj)
    requires GoodDisj(arch, d)
    ensures Truth(Named(arch, regs), DisjTokens(d)) == Matches(DisjMeaning(arch, d), regs)
  {
    hide GoodConj, ConjTokens, ConjMeaning, AllHold, Matches, AndTruth, Named, IsOr;
    var ts, first, named := DisjTokens(d), ConjTokens(d.group), Named(arch, regs);
    ConjHasNoOr(arch, d.group);
    ConjTruth(arch, regs, d.group);
    FirstOrIs(first, 0, |first|);
    MatchesFirst(ConjMeaning(arch, d.group), if d.OrElse? then DisjMeaning(arch, d.rest) else [], regs);
    NothingHolds(regs);
    if d.OrElse? {
      DisjTruth(arch, regs, d.rest);
      assert ts[..|first|] == first && ts[|first|] == d.word && ts[|first| + 1..] == DisjTokens(d.rest);
      FirstOrIs(ts, 0, |first|);
      assert Truth(named, first) == AndTruth(named, first);
    }
  }

  // A parsed filter lets a hit through exactly when its text is true of the hit's named registers.
  lemma MatchesIsTruth(arch: Arch, ts: seq<string>, regs: seq<u64>)
    requires ParseTokens(arch, ts).Ok?
    ensures Matches(ParseTokens(arch, ts).value, regs) == Truth(Named(arch, regs), ts)
  {
    var d := ParseHasDerivation(arch, ts);
    DisjTruth(arch, regs, d);
  }
}
