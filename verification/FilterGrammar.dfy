// The filter language itself: concrete syntax, its Boolean meaning read off the text with `and`
// binding tighter than `or`, and the parser's agreement with both.
module FilterGrammar {
  import opened Prelude
  import opened Text
  import opened Registers
  import opened FilterParser

  // ----- concrete syntax: a derivation keeps every spelling -----

  datatype PredText = PredText(reg: string, mask: Option<string>, op: string, value: string)

  datatype Conj = OnePred(pred: PredText) | AndThen(pred: PredText, word: string, rest: Conj)

  datatype Disj = OneGroup(group: Conj) | OrElse(group: Conj, word: string, rest: Disj)

  predicate IsAnd(t: string) { EqIgnoreCase(t, "and") || EqIgnoreCase(t, "&&") }

  predicate IsOr(t: string) { EqIgnoreCase(t, "or") || EqIgnoreCase(t, "||") }

  predicate GoodPred(arch: Arch, p: PredText) {
    && ParseReg(arch, p.reg).Ok? && ParseOperator(p.op).Ok? && ParseValue(p.value).Ok?
    && (p.mask.Some? ==> ParseValue(p.mask.value).Ok?)
  }

  predicate GoodConj(arch: Arch, c: Conj) {
    GoodPred(arch, c.pred) && (c.AndThen? ==> IsAnd(c.word) && GoodConj(arch, c.rest))
  }

  predicate GoodDisj(arch: Arch, d: Disj) {
    GoodConj(arch, d.group) && (d.OrElse? ==> IsOr(d.word) && GoodDisj(arch, d.rest))
  }

  function PredTokens(p: PredText): (r: seq<string>)
    ensures |r| == if p.mask.Some? then 5 else 3
  {
    if p.mask.Some? then [p.reg, "&", p.mask.value, p.op, p.value] else [p.reg, p.op, p.value]
  }

  function ConjTokens(c: Conj): seq<string> {
    match c
    case OnePred(p) => PredTokens(p)
    case AndThen(p, word, rest) => PredTokens(p) + ([word] + ConjTokens(rest))
  }

  function DisjTokens(d: Disj): seq<string> {
    match d
    case OneGroup(g) => ConjTokens(g)
    case OrElse(g, word, rest) => ConjTokens(g) + ([word] + DisjTokens(rest))
  }

  function PredMeaning(arch: Arch, p: PredText): Predicate
    requires GoodPred(arch, p)
  {
    Predicate(ParseReg(arch, p.reg).value,
              if p.mask.Some? then Some(ParseValue(p.mask.value).value) else None,
              ParseOperator(p.op).value,
              ParseValue(p.value).value)
  }

  function ConjMeaning(arch: Arch, c: Conj): seq<Predicate>
    requires GoodConj(arch, c)
  {
    [PredMeaning(arch, c.pred)] + (if c.AndThen? then ConjMeaning(arch, c.rest) else [])
  }

  function DisjMeaning(arch: Arch, d: Disj): seq<seq<Predicate>>
    requires GoodDisj(arch, d)
  {
    [ConjMeaning(arch, d.group)] + (if d.OrElse? then DisjMeaning(arch, d.rest) else [])
  }

  // `part` stands in `ts` at `pos`.
  predicate Stands(ts: seq<string>, pos: nat, part: seq<string>) {
    pos + |part| <= |ts| && ts[pos..pos + |part|] == part
  }

  lemma StandsSplit(ts: seq<string>, pos: nat, a: seq<string>, b: seq<string>)
    ensures Stands(ts, pos, a + b) <==> Stands(ts, pos, a) && Stands(ts, pos + |a|, b)
  {
    if pos + |a| + |b| <= |ts| {
      assert ts[pos..pos + |a| + |b|] == ts[pos..pos + |a|] + ts[pos + |a|..pos + |a| + |b|];
      if Stands(ts, pos, a + b) { SplitsAlike(ts[pos..pos + |a|], ts[pos + |a|..pos + |a| + |b|], a, b); }
    }
  }

  // `a`, the token `w`, then `b`.
  lemma StandsJoined(ts: seq<string>, pos: nat, a: seq<string>, w: string, b: seq<string>)
    ensures Stands(ts, pos, a + ([w] + b))
            <==> Stands(ts, pos, a) && pos + |a| < |ts| && ts[pos + |a|] == w && Stands(ts, pos + |a| + 1, b)
  {
    StandsSplit(ts, pos, a, [w] + b);
    StandsSplit(ts, pos + |a|, [w], b);
    if pos + |a| < |ts| { assert ts[pos + |a|..pos + |a| + 1] == [ts[pos + |a|]]; }
  }

  lemma StandsAt(ts: seq<string>, pos: nat, part: seq<string>, k: nat)
    requires Stands(ts, pos, part) && k < |part|
    ensures ts[pos + k] == part[k]
  {
    assert ts[pos..pos + |part|][k] == part[k];
  }

  // ----- tokens keep their roles apart -----

  lemma WordShapes(t: string)
    ensures EqIgnoreCase(t, "and") ==> |t| == 3 && LowerChar(t[0]) == 'a'
    ensures EqIgnoreCase(t, "or") ==> |t| == 2 && LowerChar(t[0]) == 'o'
    ensures EqIgnoreCase(t, "&&") ==> |t| == 2 && t[0] == '&'
    ensures EqIgnoreCase(t, "||") ==> |t| == 2 && t[0] == '|'
    ensures EqIgnoreCase(t, "&") ==> t == "&"
  {
    EqIgnoreCaseAt(t, "and");
    EqIgnoreCaseAt(t, "or");
    EqIgnoreCaseAt(t, "&&");
    EqIgnoreCaseAt(t, "||");
    EqIgnoreCaseAt(t, "&");
    assert |t| > 0 ==> LowerChar(t[0]) == LowerChar(t[0]);
  }

  predicate IsReserved(t: string) { IsAnd(t) || IsOr(t) || EqIgnoreCase(t, "&") || t == "=" || t == "==" }

  lemma ReservedStart(t: string)
    requires IsReserved(t)
    ensures t != "" && var c := LowerChar(t[0]);
            (c == 'a' && |t| == 3) || (c == 'o' && |t| == 2) || c == '&' || c == '|' || c == '='
  {
    WordShapes(t);
  }

  lemma OperatorIsNoWord(t: string)
    requires ParseOperator(t).Ok?
    ensures !IsAnd(t) && !IsOr(t) && !EqIgnoreCase(t, "&")
  {
    WordShapes(t);
  }

  lemma ValueIsNotReserved(t: string)
    requires IsReserved(t)
    ensures ParseValue(t).Err?
  {
    ReservedStart(t);
    NotDigitsNoNumber(t, 0, 10);
  }

  lemma NamesAreNotReserved(arch: Arch, i: nat)
    requires i < RegsCount(arch)
    ensures var n := IdToStr(arch, i);
            && |n| >= 2 && IsWordChar(n[0]) && IsWordChar(LowerChar(n[0]))
            && (LowerChar(n[0]) == 'a' ==> |n| == 2) && LowerChar(n[0]) != 'o'
  {}

  lemma RegIsNotReserved(arch: Arch, t: string)
    requires IsReserved(t)
    ensures ParseReg(arch, t).Err?
  {
    hide X86Name, Aarch64Name, IsReserved;
    ReservedStart(t);
    var r := FindReg(arch, t, 0);
    if r.Some? {
      NamesAreNotReserved(arch, r.value);
      EqIgnoreCaseAt(IdToStr(arch, r.value), t);
    }
  }

  // ----- completeness: every derivation is parsed to its meaning -----

  lemma PlainPredicate(arch: Arch, ts: seq<string>, pos: nat)
    requires pos + 3 <= |ts| && !TokenAt(ts, pos + 1, "&")
    requires GoodPred(arch, PredText(ts[pos], None, ts[pos + 1], ts[pos + 2]))
    ensures PredicateAt(arch, ts, pos)
            == Ok((PredMeaning(arch, PredText(ts[pos], None, ts[pos + 1], ts[pos + 2])), pos + 3))
  {
    hide ParseReg, ParseOperator, ParseValue, Lower;
  }

  lemma MaskedPredicate(arch: Arch, ts: seq<string>, pos: nat)
    requires pos + 5 <= |ts| && ts[pos + 1] == "&"
    requires GoodPred(arch, PredText(ts[pos], Some(ts[pos + 2]), ts[pos + 3], ts[pos + 4]))
    ensures PredicateAt(arch, ts, pos)
            == Ok((PredMeaning(arch, PredText(ts[pos], Some(ts[pos + 2]), ts[pos + 3], ts[pos + 4])), pos + 5))
  {
    hide ParseReg, ParseOperator, ParseValue, Lower;
  }

  lemma PredComplete(arch: Arch, ts: seq<string>, pos: nat, p: PredText)
    requires GoodPred(arch, p) && Stands(ts, pos, PredTokens(p))
    ensures PredicateAt(arch, ts, pos) == Ok((PredMeaning(arch, p), pos + |PredTokens(p)|))
  {
    hide PredicateAt, PredMeaning, ParseValue, ParseReg, ParseOperator;
    var part := PredTokens(p);
    StandsAt(ts, pos, part, 0);
    StandsAt(ts, pos, part, 1);
    StandsAt(ts, pos, part, 2);
    if p.mask.Some? {
      StandsAt(ts, pos, part, 3);
      StandsAt(ts, pos, part, 4);
      MaskedPredicate(arch, ts, pos);
    } else {
      OperatorIsNoWord(p.op);
      PlainPredicate(arch, ts, pos);
    }
  }

  lemma {:induction false} ConjComplete(arch: Arch, ts: seq<string>, pos: nat, c: Conj)
    requires GoodConj(arch, c) && Stands(ts, pos, ConjTokens(c)) && !AndAt(ts, pos + |ConjTokens(c)|)
    ensures GroupAt(arch, ts, pos) == Ok((ConjMeaning(arch, c), pos + |ConjTokens(c)|))
    decreases c
  {
    hide GoodPred, PredMeaning, PredicateAt, PredTokens, Stands, EqIgnoreCase;
    var first := PredTokens(c.pred);
    if c.AndThen? {
      StandsJoined(ts, pos, first, c.word, ConjTokens(c.rest));
      ConjComplete(arch, ts, pos + |first| + 1, c.rest);
    }
    PredComplete(arch, ts, pos, c.pred);
  }

  lemma {:induction false} DisjComplete(arch: Arch, ts: seq<string>, pos: nat, d: Disj)
    requires GoodDisj(arch, d) && Stands(ts, pos, DisjTokens(d)) && pos + |DisjTokens(d)| == |ts|
    ensures FilterAt(arch, ts, pos) == Ok((DisjMeaning(arch, d), |ts|))
    decreases d
  {
    hide GoodConj, ConjMeaning, GroupAt, ConjTokens, Stands, EqIgnoreCase;
    var first := ConjTokens(d.group);
    if d.OrElse? {
      StandsJoined(ts, pos, first, d.word, DisjTokens(d.rest));
      OrIsNotAnd(d.word);
      DisjComplete(arch, ts, pos + |first| + 1, d.rest);
    }
    ConjComplete(arch, ts, pos, d.group);
  }

  lemma OrIsNotAnd(t: string)
    requires IsOr(t)
    ensures !IsAnd(t)
  {
    WordShapes(t);
  }

  // ----- soundness: what is parsed is a derivation -----

  lemma PlainParts(arch: Arch, ts: seq<string>, pos: nat)
    requires pos <= |ts| && PredicateAt(arch, ts, pos).Ok? && !TokenAt(ts, pos + 1, "&")
    ensures pos + 3 <= |ts| && GoodPred(arch, PredText(ts[pos], None, ts[pos + 1], ts[pos + 2]))
  {
    hide ParseReg, ParseOperator, ParseValue, Lower;
  }

  lemma MaskedParts(arch: Arch, ts: seq<string>, pos: nat)
    requires pos <= |ts| && PredicateAt(arch, ts, pos).Ok? && TokenAt(ts, pos + 1, "&")
    ensures pos + 5 <= |ts| && GoodPred(arch, PredText(ts[pos], Some(ts[pos + 2]), ts[pos + 3], ts[pos + 4]))
  {
    hide ParseReg, ParseOperator, ParseValue, Lower;
  }

  lemma PredSound(arch: Arch, ts: seq<string>, pos: nat) returns (p: PredText)
    requires pos <= |ts| && PredicateAt(arch, ts, pos).Ok?
    ensures GoodPred(arch, p) && Stands(ts, pos, PredTokens(p))
    ensures PredicateAt(arch, ts, pos) == Ok((PredMeaning(arch, p), pos + |PredTokens(p)|))
  {
    hide PredicateAt, PredMeaning, GoodPred;
    if TokenAt(ts, pos + 1, "&") {
      WordShapes(ts[pos + 1]);
      MaskedParts(arch, ts, pos);
      p := PredText(ts[pos], Some(ts[pos + 2]), ts[pos + 3], ts[pos + 4]);
      assert ts[pos..pos + 5] == PredTokens(p);
      MaskedPredicate(arch, ts, pos);
    } else {
      PlainParts(arch, ts, pos);
      p := PredText(ts[pos], None, ts[pos + 1], ts[pos + 2]);
      assert ts[pos..pos + 3] == PredTokens(p);
      PlainPredicate(arch, ts, pos);
    }
  }

  lemma {:induction false} ConjSound(arch: Arch, ts: seq<string>, pos: nat) returns (c: Conj)
    requires pos <= |ts| && GroupAt(arch, ts, pos).Ok?
    ensures GoodConj(arch, c) && Stands(ts, pos, ConjTokens(c))
    ensures GroupAt(arch, ts, pos) == Ok((ConjMeaning(arch, c), pos + |ConjTokens(c)|))
    decreases |ts| - pos
  {
    hide GoodPred, PredMeaning, PredicateAt, PredTokens, Stands, EqIgnoreCase;
    var p := PredSound(arch, ts, pos);
    var next := pos + |PredTokens(p)|;
    if AndAt(ts, next) {
      var rest := ConjSound(arch, ts, next + 1);
      c := AndThen(p, ts[next], rest);
      StandsJoined(ts, pos, PredTokens(p), ts[next], ConjTokens(rest));
    } else {
      c := OnePred(p);
    }
  }

  lemma {:induction false} DisjSound(arch: Arch, ts: seq<string>, pos: nat) returns (d: Disj)
    requires pos <= |ts| && FilterAt(arch, ts, pos).Ok?
    ensures GoodDisj(arch, d) && Stands(ts, pos, DisjTokens(d))
    ensures FilterAt(arch, ts, pos) == Ok((DisjMeaning(arch, d), pos + |DisjTokens(d)|))
    decreases |ts| - pos
  {
    hide GoodConj, ConjMeaning, GroupAt, ConjTokens, Stands, EqIgnoreCase;
    var g := ConjSound(arch, ts, pos);
    var next := pos + |ConjTokens(g)|;
    if OrAt(ts, next) {
      var rest := DisjSound(arch, ts, next + 1);
      d := OrElse(g, ts[next], rest);
      StandsJoined(ts, pos, ConjTokens(g), ts[next], DisjTokens(rest));
    } else {
      d := OneGroup(g);
    }
  }

  predicate Derives(arch: Arch, d: Disj, ts: seq<string>) { GoodDisj(arch, d) && DisjTokens(d) == ts }

  lemma DerivationParses(arch: Arch, d: Disj)
    requires GoodDisj(arch, d)
    ensures ParseTokens(arch, DisjTokens(d)) == Ok(DisjMeaning(arch, d))
  {
    var ts := DisjTokens(d);
    assert ts[0..|ts|] == ts;
    DisjComplete(arch, ts, 0, d);
  }

  lemma ParseHasDerivation(arch: Arch, ts: seq<string>) returns (d: Disj)
    requires ParseTokens(arch, ts).Ok?
    ensures Derives(arch, d, ts) && ParseTokens(arch, ts) == Ok(DisjMeaning(arch, d))
  {
    d := DisjSound(arch, ts, 0);
    assert ts[0..|ts|] == ts;
  }

  // Parsing succeeds exactly on the token lists the grammar derives, with the derivation's meaning.
  lemma ParseIffDerives(arch: Arch, ts: seq<string>, groups: seq<seq<Predicate>>)
    ensures ParseTokens(arch, ts) == Ok(groups)
            <==> exists d :: Derives(arch, d, ts) && DisjMeaning(arch, d) == groups
  {
    if ParseTokens(arch, ts) == Ok(groups) {
      var d := ParseHasDerivation(arch, ts);
      assert Derives(arch, d, ts) && DisjMeaning(arch, d) == groups;
    }
    forall d | Derives(arch, d, ts) && DisjMeaning(arch, d) == groups ensures ParseTokens(arch, ts) == Ok(groups) {
      DerivationParses(arch, d);
    }
  }
}
