// `RegFilter` of src/filter.rs: the recursive-descent parser over a mutable cursor, the functions it
// computes, and the evaluator.
module FilterParser {
  import opened Prelude
  import opened Text
  import opened Bits
  import opened Registers
  import opened Tokenizer

  datatype Operator = Eq | Ne | Gt | Ge | Lt | Le

  datatype Predicate = Predicate(reg: nat, mask: Option<u64>, op: Operator, value: u64)

  datatype FilterError =
    | UnexpectedCharacter(c: char)
    | EmptyFilter
    | UnexpectedToken(token: string)
    | ExpectedRegister
    | UnknownRegister(token: string)
    | ExpectedMask
    | ExpectedOperator
    | InvalidOperator(token: string)
    | ExpectedValue
    | InvalidNumber(token: string)

  // ----- evaluation -----

  predicate Compare(op: Operator, lhs: u64, rhs: u64) {
    match op
    case Eq => lhs == rhs
    case Ne => lhs != rhs
    case Gt => lhs > rhs
    case Ge => lhs >= rhs
    case Lt => lhs < rhs
    case Le => lhs <= rhs
  }

  predicate Holds(p: Predicate, regs: seq<u64>) {
    p.reg < |regs|
    && Compare(p.op, if p.mask.Some? then BitAnd(regs[p.reg], p.mask.value) else regs[p.reg], p.value)
  }

  predicate AllHold(group: seq<Predicate>, regs: seq<u64>) {
    forall p :: p in group ==> Holds(p, regs)
  }

  // `RegFilter::matches`: some group holds in full.
  predicate Matches(groups: seq<seq<Predicate>>, regs: seq<u64>) {
    exists g :: g in groups && AllHold(g, regs)
  }

  // ----- single tokens -----

  function ParseReg(arch: Arch, name: string): Result<nat, FilterError> {
    match FindReg(arch, name, 0)
    case Some(i) => Ok(i)
    case None => Err(UnknownRegister(name))
  }

  function ParseOperator(t: string): Result<Operator, FilterError> {
    if t == "=" || t == "==" then Ok(Eq)
    else if t == "!=" then Ok(Ne)
    else if t == ">" then Ok(Gt)
    else if t == ">=" then Ok(Ge)
    else if t == "<" then Ok(Lt)
    else if t == "<=" then Ok(Le)
    else Err(InvalidOperator(t))
  }

  function NumberOf(t: string): Option<u64> {
    match StripHexPrefix(t)
    case Some(hex) => FromStrRadix(hex, 16)
    case None => FromStrRadix(t, 10)
  }

  function ParseValue(t: string): Result<u64, FilterError> {
    match NumberOf(t)
    case Some(v) => Ok(v)
    case None => Err(InvalidNumber(t))
  }

  // ----- the grammar, read off the token list -----

  predicate TokenAt(ts: seq<string>, pos: nat, expected: string) {
    pos < |ts| && EqIgnoreCase(ts[pos], expected)
  }

  predicate AnyTokenAt(ts: seq<string>, pos: nat, expected: seq<string>) {
    exists e :: e in expected && TokenAt(ts, pos, e)
  }

  const AND_WORDS: seq<string> := ["and", "&&"]
  const OR_WORDS: seq<string> := ["or", "||"]

  predicate AndAt(ts: seq<string>, pos: nat) { TokenAt(ts, pos, "and") || TokenAt(ts, pos, "&&") }

  predicate OrAt(ts: seq<string>, pos: nat) { TokenAt(ts, pos, "or") || TokenAt(ts, pos, "||") }

  function MaskAt(ts: seq<string>, pos: nat): (r: Result<(Option<u64>, nat), FilterError>)
    ensures pos <= |ts| && r.Ok? ==> pos <= r.value.1 <= |ts|
  {
    if TokenAt(ts, pos, "&") then
      if pos + 1 == |ts| then Err(ExpectedMask)
      else
        var mask :- ParseValue(ts[pos + 1]);
        Ok((Some(mask), pos + 2))
    else Ok((None, pos))
  }

  function PredicateAt(arch: Arch, ts: seq<string>, pos: nat): (r: Result<(Predicate, nat), FilterError>)
    requires pos <= |ts|
    ensures r.Ok? ==> pos < r.value.1 <= |ts|
  {
    if pos == |ts| then Err(ExpectedRegister)
    else
      var reg :- ParseReg(arch, ts[pos]);
      var (mask, p) :- MaskAt(ts, pos + 1);
      if p == |ts| then Err(ExpectedOperator)
      else
        var op :- ParseOperator(ts[p]);
        if p + 1 == |ts| then Err(ExpectedValue)
        else
          var value :- ParseValue(ts[p + 1]);
          Ok((Predicate(reg, mask, op, value), p + 2))
  }

  // What a method returns, when the function it follows also says where the cursor ends.
  function Dropping<T>(r: Result<(T, nat), FilterError>): Result<T, FilterError> {
    match r
    case Ok((v, _)) => Ok(v)
    case Err(e) => Err(e)
  }

  // `front` put before the list a later part of the input yields.
  function Before<T>(front: seq<T>, r: Result<(seq<T>, nat), FilterError>): Result<(seq<T>, nat), FilterError> {
    match r
    case Ok((vs, n)) => Ok((front + vs, n))
    case Err(e) => Err(e)
  }

  lemma BeforeMore<T>(front: seq<T>, v: T, r: Result<(seq<T>, nat), FilterError>)
    ensures Before(front, Before([v], r)) == Before(front + [v], r)
    ensures Before([], r) == r
  {
    if r.Ok? {
      ConcatAssociative(front, [v], r.value.0);
      assert [] + r.value.0 == r.value.0;
    }
  }

  // `first`, then whatever follows it.
  function GroupAt(arch: Arch, ts: seq<string>, pos: nat): (r: Result<(seq<Predicate>, nat), FilterError>)
    requires pos <= |ts|
    ensures r.Ok? ==> pos < r.value.1 <= |ts| && r.value.0 != []
    decreases |ts| - pos, 1
  {
    var (first, next) :- PredicateAt(arch, ts, pos);
    Before([first], MorePredicates(arch, ts, next))
  }

  function MorePredicates(arch: Arch, ts: seq<string>, pos: nat): (r: Result<(seq<Predicate>, nat), FilterError>)
    requires pos <= |ts|
    ensures r.Ok? ==> pos <= r.value.1 <= |ts|
    decreases |ts| - pos, 2
  {
    if AndAt(ts, pos) then GroupAt(arch, ts, pos + 1) else Ok(([], pos))
  }

  function FilterAt(arch: Arch, ts: seq<string>, pos: nat): (r: Result<(seq<seq<Predicate>>, nat), FilterError>)
    requires pos <= |ts|
    ensures r.Ok? ==> pos < r.value.1 <= |ts| && r.value.0 != []
    decreases |ts| - pos, 1
  {
    var (first, next) :- GroupAt(arch, ts, pos);
    Before([first], MoreGroups(arch, ts, next))
  }

  function MoreGroups(arch: Arch, ts: seq<string>, pos: nat): (r: Result<(seq<seq<Predicate>>, nat), FilterError>)
    requires pos <= |ts|
    ensures r.Ok? ==> pos <= r.value.1 <= |ts|
    decreases |ts| - pos, 2
  {
    if OrAt(ts, pos) then FilterAt(arch, ts, pos + 1) else Ok(([], pos))
  }

  function ParseTokens(arch: Arch, ts: seq<string>): Result<seq<seq<Predicate>>, FilterError> {
    if ts == [] then Err(EmptyFilter)
    else
      var (groups, end) :- FilterAt(arch, ts, 0);
      if end != |ts| then Err(UnexpectedToken(ts[end])) else Ok(groups)
  }

  function ParseText(arch: Arch, input: string): Result<seq<seq<Predicate>>, FilterError> {
    match Tokens(input)
    case Err(c) => Err(UnexpectedCharacter(c))
    case Ok(ts) => ParseTokens(arch, ts)
  }

  // ----- the parser object -----

  class Parser {
    const arch: Arch
    const tokens: seq<string>
    var pos: nat

    constructor (arch: Arch, tokens: seq<string>)
      ensures this.arch == arch && this.tokens == tokens && pos == 0
    {
      this.arch, this.tokens, this.pos := arch, tokens, 0;
    }

    method Next() returns (token: Option<string>)
      requires pos <= |tokens|
      modifies this`pos
      ensures old(pos) == |tokens| ==> token == None && pos == old(pos)
      ensures old(pos) < |tokens| ==> token == Some(tokens[old(pos)]) && pos == old(pos) + 1
    {
      if pos == |tokens| {
        return None;
      }
      token := Some(tokens[pos]);
      pos := pos + 1;
    }

    method Consume(expected: string) returns (taken: bool)
      requires pos <= |tokens|
      modifies this`pos
      ensures taken == TokenAt(tokens, old(pos), expected)
      ensures pos == old(pos) + (if taken then 1 else 0) <= |tokens|
    {
      taken := pos < |tokens| && EqIgnoreCase(tokens[pos], expected);
      if taken {
        pos := pos + 1;
      }
    }

    method ConsumeAny(expected: seq<string>) returns (taken: bool)
      requires pos <= |tokens|
      modifies this`pos
      ensures taken == AnyTokenAt(tokens, old(pos), expected)
      ensures pos == old(pos) + (if taken then 1 else 0) <= |tokens|
    {
      for i := 0 to |expected|
        invariant pos == old(pos)
        invariant !AnyTokenAt(tokens, pos, expected[..i])
      {
        taken := Consume(expected[i]);
        if taken {
          assert expected[i] in expected;
          return true;
        }
        assert expected[..i + 1] == expected[..i] + [expected[i]];
      }
      assert expected[..|expected|] == expected;
      taken := false;
    }

    method ParsePredicate() returns (r: Result<Predicate, FilterError>)
      requires pos <= |tokens|
      modifies this`pos
      ensures r == Dropping(PredicateAt(arch, tokens, old(pos)))
      ensures r.Ok? ==> pos == PredicateAt(arch, tokens, old(pos)).value.1 <= |tokens|
    {
      var name := Next();
      if name == None {
        return Err(ExpectedRegister);
      }
      var reg :- ParseReg(arch, name.value);
      var mask := None;
      var masked := Consume("&");
      if masked {
        var text := Next();
        if text == None {
          return Err(ExpectedMask);
        }
        var m :- ParseValue(text.value);
        mask := Some(m);
      }
      var opText := Next();
      if opText == None {
        return Err(ExpectedOperator);
      }
      var op :- ParseOperator(opText.value);
      var valueText := Next();
      if valueText == None {
        return Err(ExpectedValue);
      }
      var value :- ParseValue(valueText.value);
      r := Ok(Predicate(reg, mask, op, value));
    }

    method ParseAndGroup() returns (r: Result<seq<Predicate>, FilterError>)
      requires pos <= |tokens|
      modifies this`pos
      ensures r == Dropping(GroupAt(arch, tokens, old(pos)))
      ensures r.Ok? ==> pos == GroupAt(arch, tokens, old(pos)).value.1 <= |tokens|
    {
      hide PredicateAt, AndAt;
      ghost var whole := GroupAt(arch, tokens, pos);
      var first :- ParsePredicate();
      var group := [first];
      while true
        invariant pos <= |tokens| && whole == Before(group, MorePredicates(arch, tokens, pos))
        decreases |tokens| - pos
      {
        WordsAt(tokens, pos);
        var more := ConsumeAny(AND_WORDS);
        if !more {
          break;
        }
        var p :- ParsePredicate();
        BeforeMore(group, p, MorePredicates(arch, tokens, pos));
        group := group + [p];
      }
      assert group + [] == group;
      r := Ok(group);
    }

    method ParseFilter() returns (r: Result<seq<seq<Predicate>>, FilterError>)
      requires pos <= |tokens|
      modifies this`pos
      ensures r == Dropping(FilterAt(arch, tokens, old(pos)))
      ensures r.Ok? ==> pos == FilterAt(arch, tokens, old(pos)).value.1 <= |tokens|
    {
      hide GroupAt, PredicateAt, AndAt, OrAt;
      ghost var whole := FilterAt(arch, tokens, pos);
      var first :- ParseAndGroup();
      var groups := [first];
      while true
        invariant pos <= |tokens| && whole == Before(groups, MoreGroups(arch, tokens, pos))
        decreases |tokens| - pos
      {
        WordsAt(tokens, pos);
        var more := ConsumeAny(OR_WORDS);
        if !more {
          break;
        }
        var group :- ParseAndGroup();
        BeforeMore(groups, group, MoreGroups(arch, tokens, pos));
        groups := groups + [group];
      }
      assert groups + [] == groups;
      r := Ok(groups);
    }
  }

  lemma WordsAt(ts: seq<string>, pos: nat)
    ensures AnyTokenAt(ts, pos, AND_WORDS) == AndAt(ts, pos)
    ensures AnyTokenAt(ts, pos, OR_WORDS) == OrAt(ts, pos)
  {
    assert "and" in AND_WORDS && "&&" in AND_WORDS && "or" in OR_WORDS && "||" in OR_WORDS;
  }

  // `RegFilter::parse`.
  method ParseFilterText(arch: Arch, input: string) returns (r: Result<seq<seq<Predicate>>, FilterError>)
    ensures r == ParseText(arch, input)
  {
    var tokenized := Tokenize(input);
    if tokenized.Err? {
      return Err(UnexpectedCharacter(tokenized.error));
    }
    var tokens := tokenized.value;
    if tokens == [] {
      return Err(EmptyFilter);
    }
    var parser := new Parser(arch, tokens);
    var groups :- parser.ParseFilter();
    if parser.pos != |tokens| {
      return Err(UnexpectedToken(tokens[parser.pos]));
    }
    r := Ok(groups);
  }
}
