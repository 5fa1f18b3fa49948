// `tokenize` of src/filter.rs: the loop, the function it computes, and what that function means.
module Tokenizer {
  import opened Prelude
  import opened Text
  import opened Registers

  predicate IsOperatorChar(c: char) {
    c == '=' || c == '!' || c == '>' || c == '<' || c == '&' || c == '|'
  }

  // Does `next` extend the one-character operator `c`?
  predicate Continues(c: char, next: char) {
    if c == '&' || c == '|' then next == c else next == '='
  }

  function WordEnd(s: string, i: nat): (n: nat)
    requires i <= |s|
    ensures i <= n <= |s| && (n < |s| ==> !IsWordChar(s[n]))
    ensures forall k :: i <= k < n ==> IsWordChar(s[k])
    decreases |s| - i
  {
    if i < |s| && IsWordChar(s[i]) then WordEnd(s, i + 1) else i
  }

  // The end of the token that starts at `i`.
  function TokenEnd(s: string, i: nat): (n: nat)
    requires i < |s| && (IsOperatorChar(s[i]) || IsWordChar(s[i]))
    ensures i < n <= |s|
  {
    if IsOperatorChar(s[i]) then (if i + 1 < |s| && Continues(s[i], s[i + 1]) then i + 2 else i + 1)
    else WordEnd(s, i + 1)
  }

  // The tokens of `s[i..]`, or the first character no token can hold.
  function TokensFrom(s: string, i: nat): Result<seq<string>, char>
    requires i <= |s|
    decreases |s| - i
  {
    if i == |s| then Ok([])
    else if IsWhitespace(s[i]) then TokensFrom(s, i + 1)
    else if IsOperatorChar(s[i]) || IsWordChar(s[i]) then
      Prepend([s[i..TokenEnd(s, i)]], TokensFrom(s, TokenEnd(s, i)))
    else Err(s[i])
  }

  function Prepend(front: seq<string>, r: Result<seq<string>, char>): Result<seq<string>, char> {
    match r
    case Ok(ts) => Ok(front + ts)
    case Err(c) => Err(c)
  }

  function Tokens(s: string): Result<seq<string>, char> { TokensFrom(s, 0) }

  method Tokenize(input: string) returns (r: Result<seq<string>, char>)
    ensures r == Tokens(input)
  {
    var tokens: seq<string> := [];
    var i := 0;
    PrependNothing(Tokens(input));
    while i < |input|
      invariant i <= |input|
      invariant Prepend(tokens, TokensFrom(input, i)) == Tokens(input)
    {
      var ch := input[i];
      if IsWhitespace(ch) {
        i := i + 1;
      } else if IsOperatorChar(ch) {
        var end := i + 1;
        if end < |input| && Continues(ch, input[end]) { end := end + 1; }
        PrependTwice(tokens, [input[i..end]], TokensFrom(input, end));
        tokens := tokens + [input[i..end]];
        i := end;
      } else if IsWordChar(ch) {
        var end := i + 1;
        while end < |input| && IsWordChar(input[end])
          invariant i < end <= |input| && WordEnd(input, end) == WordEnd(input, i + 1)
        {
          end := end + 1;
        }
        PrependTwice(tokens, [input[i..end]], TokensFrom(input, end));
        tokens := tokens + [input[i..end]];
        i := end;
      } else {
        return Err(ch);
      }
    }
    assert tokens + [] == tokens;
    r := Ok(tokens);
  }

  lemma PrependNothing(r: Result<seq<string>, char>)
    ensures Prepend([], r) == r
  {
    if r.Ok? { assert [] + r.value == r.value; }
  }

  lemma PrependTwice(a: seq<string>, b: seq<string>, r: Result<seq<string>, char>)
    ensures Prepend(a, Prepend(b, r)) == Prepend(a + b, r)
  {
    if r.Ok? { ConcatAssociative(a, b, r.value); }
  }

  // ----- what a token list says about the text -----

  predicate IsWord(t: string) { t != "" && forall k :: 0 <= k < |t| ==> IsWordChar(t[k]) }

  predicate IsOperator(t: string) {
    || (|t| == 1 && IsOperatorChar(t[0]))
    || (|t| == 2 && IsOperatorChar(t[0]) && Continues(t[0], t[1]))
  }

  const OPERATORS: seq<string> := ["=", "==", "!", "!=", ">", ">=", "<", "<=", "&", "&&", "|", "||"]

  lemma OperatorsAre(t: string)
    ensures IsOperator(t) <==> t in OPERATORS
  {
    if IsOperator(t) {
      if |t| == 1 { OneCharOperators(t); } else { TwoCharOperators(t); }
    }
  }

  lemma OneCharOperators(t: string)
    requires |t| == 1 && IsOperatorChar(t[0])
    ensures t in OPERATORS
  {
    assert t == [t[0]];
    assert OPERATORS[0] == "=" && OPERATORS[2] == "!" && OPERATORS[4] == ">" && OPERATORS[6] == "<";
    assert OPERATORS[8] == "&" && OPERATORS[10] == "|";
  }

  lemma TwoCharOperators(t: string)
    requires |t| == 2 && IsOperatorChar(t[0]) && Continues(t[0], t[1])
    ensures t in OPERATORS
  {
    assert t == [t[0], t[1]];
    assert OPERATORS[1] == "==" && OPERATORS[3] == "!=" && OPERATORS[5] == ">=" && OPERATORS[7] == "<=";
    assert OPERATORS[9] == "&&" && OPERATORS[11] == "||";
  }

  predicate IsToken(t: string) { IsWord(t) || IsOperator(t) }

  // `t` directly followed by `next` would be read as one longer token.
  predicate Glues(t: string, next: char)
    requires IsToken(t)
  {
    if IsWord(t) then IsWordChar(next) else |t| == 1 && Continues(t[0], next)
  }

  predicate Blank(g: string) { forall k :: 0 <= k < |g| ==> IsWhitespace(g[k]) }

  // One way to lay tokens out: white space `gaps[k]` before token `k`, and the last gap at the end.
  datatype Layout = End(gap: string) | Tok(gap: string, token: string, rest: Layout)

  function Written(l: Layout): string {
    match l
    case End(gap) => gap
    case Tok(gap, token, rest) => gap + token + Written(rest)
  }

  function TokensOf(l: Layout): seq<string> {
    match l
    case End(_) => []
    case Tok(_, token, rest) => [token] + TokensOf(rest)
  }

  // Gaps are blank and are empty only between tokens that do not glue.
  predicate WellLaid(l: Layout) {
    match l
    case End(gap) => Blank(gap)
    case Tok(gap, token, rest) =>
      Blank(gap) && IsToken(token) && WellLaid(rest) && (Written(rest) != "" ==> !Glues(token, Written(rest)[0]))
  }

  lemma WordCharKinds(c: char)
    ensures IsWordChar(c) ==> !IsWhitespace(c) && !IsOperatorChar(c)
    ensures IsOperatorChar(c) ==> !IsWhitespace(c)
  {}

  // ----- reading a layout back -----

  lemma {:induction false} BlankSkipped(s: string, i: nat, n: nat)
    requires i <= n <= |s| && forall k :: i <= k < n ==> IsWhitespace(s[k])
    ensures TokensFrom(s, i) == TokensFrom(s, n)
    decreases n - i
  {
    if i < n { BlankSkipped(s, i + 1, n); }
  }

  lemma {:induction false} WordEndIs(s: string, i: nat, n: nat)
    requires i <= n <= |s| && (forall k :: i <= k < n ==> IsWordChar(s[k])) && (n < |s| ==> !IsWordChar(s[n]))
    ensures WordEnd(s, i) == n
    decreases n - i
  {
    if i < n { WordEndIs(s, i + 1, n); }
  }

  // A token standing at `i` with nothing after it that it could swallow is read whole.
  lemma TokenReadWhole(s: string, i: nat, t: string)
    requires IsToken(t) && i + |t| <= |s| && s[i..i + |t|] == t
    requires i + |t| < |s| ==> !Glues(t, s[i + |t|])
    ensures t != "" && s[i] == t[0] && (IsOperatorChar(s[i]) || IsWordChar(s[i])) && !IsWhitespace(s[i])
    ensures TokenEnd(s, i) == i + |t|
  {
    assert forall k :: 0 <= k < |t| ==> s[i + k] == t[k];
    WordCharKinds(t[0]);
    if IsWord(t) {
      forall k | i + 1 <= k < i + |t| ensures IsWordChar(s[k]) { assert s[k] == t[k - i]; }
      WordEndIs(s, i + 1, i + |t|);
    } else {
      assert IsOperator(t) && s[i] == t[0];
      if |t| == 2 { assert s[i + 1] == t[1]; }
    }
  }

  lemma GapSkipped(s: string, i: nat, l: Layout)
    requires WellLaid(l) && i <= |s| && s[i..] == Written(l)
    ensures i + |l.gap| <= |s| && TokensFrom(s, i) == TokensFrom(s, i + |l.gap|)
  {
    var g := |l.gap|;
    assert g <= |Written(l)| && Written(l)[..g] == l.gap;
    forall k | i <= k < i + g ensures IsWhitespace(s[k]) { assert s[k] == s[i..][k - i] == l.gap[k - i]; }
    BlankSkipped(s, i, i + g);
  }

  lemma {:induction false} LayoutTokens(s: string, i: nat, l: Layout)
    requires WellLaid(l) && i <= |s| && s[i..] == Written(l)
    ensures TokensFrom(s, i) == Ok(TokensOf(l))
    decreases l
  {
    hide IsToken, Glues, IsOperatorChar, IsWordChar, IsWhitespace, TokenEnd;
    GapSkipped(s, i, l);
    if l.Tok? {
      TokAt(s, i, l);
      var a := i + |l.gap|;
      var b := a + |l.token|;
      if b < |s| { assert Written(l.rest)[0] == s[b]; }
      TokenReadWhole(s, a, l.token);
      LayoutTokens(s, b, l.rest);
    }
  }

  lemma TokAt(s: string, i: nat, l: Layout)
    requires l.Tok? && i <= |s| && s[i..] == Written(l)
    ensures var a := i + |l.gap|; var b := a + |l.token|;
            a <= b <= |s| && s[a..b] == l.token && s[b..] == Written(l.rest)
  {
    var a := i + |l.gap|;
    var b := a + |l.token|;
    assert s[a..b] == s[i..][|l.gap|..|l.gap| + |l.token|];
    assert s[b..] == s[i..][|l.gap| + |l.token|..];
  }

  // Any text laid out from tokens is split into exactly those tokens.
  lemma TokenizeComplete(l: Layout)
    requires WellLaid(l)
    ensures Tokens(Written(l)) == Ok(TokensOf(l))
  {
    assert Written(l)[0..] == Written(l);
    LayoutTokens(Written(l), 0, l);
  }

  // ----- and every successful reading is such a layout -----

  // The layout of `s[i..]` that the reading went through.
  function LayoutFrom(s: string, i: nat): Layout
    requires i <= |s| && TokensFrom(s, i).Ok?
    decreases |s| - i
  {
    if i == |s| then End("")
    else if IsWhitespace(s[i]) then
      var l := LayoutFrom(s, i + 1);
      if l.End? then End([s[i]] + l.gap) else Tok([s[i]] + l.gap, l.token, l.rest)
    else Tok("", s[i..TokenEnd(s, i)], LayoutFrom(s, TokenEnd(s, i)))
  }

  lemma TokenIsToken(s: string, i: nat)
    requires i < |s| && (IsOperatorChar(s[i]) || IsWordChar(s[i]))
    ensures IsToken(s[i..TokenEnd(s, i)])
    ensures TokenEnd(s, i) < |s| ==> !Glues(s[i..TokenEnd(s, i)], s[TokenEnd(s, i)])
  {
    var n := TokenEnd(s, i);
    var t := s[i..n];
    WordCharKinds(s[i]);
    assert t[0] == s[i];
    if IsOperatorChar(s[i]) {
      assert !IsWord(t);
      if n == i + 2 { assert t[1] == s[i + 1]; }
    } else {
      forall k | 0 <= k < |t| ensures IsWordChar(t[k]) { assert t[k] == s[i + k]; }
    }
  }

  lemma {:induction false} LayoutSound(s: string, i: nat)
    requires i <= |s| && TokensFrom(s, i).Ok?
    ensures WellLaid(LayoutFrom(s, i))
    ensures Written(LayoutFrom(s, i)) == s[i..]
    ensures TokensOf(LayoutFrom(s, i)) == TokensFrom(s, i).value
    decreases |s| - i
  {
    hide IsToken, Glues, TokenEnd, IsOperatorChar, IsWordChar, IsWhitespace;
    if i < |s| {
      if IsWhitespace(s[i]) {
        LayoutSound(s, i + 1);
        BlankFirst(s[i], LayoutFrom(s, i + 1));
        assert s[i..] == [s[i]] + s[i + 1..];
      } else {
        var n := TokenEnd(s, i);
        LayoutSound(s, n);
        TokenIsToken(s, i);
        assert s[i..] == "" + s[i..n] + s[n..];
        if n < |s| { assert s[n..][0] == s[n]; }
      }
    }
  }

  lemma BlankFirst(c: char, l: Layout)
    requires IsWhitespace(c) && WellLaid(l)
    ensures var m := if l.End? then End([c] + l.gap) else Tok([c] + l.gap, l.token, l.rest);
            WellLaid(m) && Written(m) == [c] + Written(l) && TokensOf(m) == TokensOf(l)
  {
    if l.Tok? { assert [c] + l.gap + l.token + Written(l.rest) == [c] + (l.gap + l.token + Written(l.rest)); }
  }

  // ----- main results -----

  function Joined(ts: seq<string>): string { if ts == [] then "" else ts[0] + Joined(ts[1..]) }

  function Spaced(ts: seq<string>): string {
    if ts == [] then "" else if |ts| == 1 then ts[0] else ts[0] + " " + Spaced(ts[1..])
  }

  function WithoutBlanks(s: string): string {
    if s == "" then ""
    else WithoutBlanks(s[..|s| - 1]) + (if IsWhitespace(s[|s| - 1]) then "" else [s[|s| - 1]])
  }

  predicate IsFilterChar(c: char) { IsWhitespace(c) || IsOperatorChar(c) || IsWordChar(c) }

  lemma {:induction false} WordsAreFilterChars(s: string, i: nat)
    requires i <= |s|
    ensures TokensFrom(s, i).Ok? <==> forall k :: i <= k < |s| ==> IsFilterChar(s[k])
    decreases |s| - i
  {
    if i < |s| && IsFilterChar(s[i]) {
      if IsWhitespace(s[i]) {
        WordsAreFilterChars(s, i + 1);
      } else {
        var n := TokenEnd(s, i);
        WordsAreFilterChars(s, n);
        forall k | i <= k < n ensures IsFilterChar(s[k]) {
          if IsOperatorChar(s[i]) && k == i + 1 { assert Continues(s[i], s[k]); }
        }
      }
    }
  }

  // Tokenizing fails exactly when some character belongs to no token and is no white space.
  lemma TokenizeFailsIff(s: string)
    ensures Tokens(s).Ok? <==> forall k :: 0 <= k < |s| ==> IsFilterChar(s[k])
  {
    WordsAreFilterChars(s, 0);
  }

  lemma {:induction false} WithoutBlanksConcat(a: string, b: string)
    ensures WithoutBlanks(a + b) == WithoutBlanks(a) + WithoutBlanks(b)
    decreases |b|
  {
    if b == "" {
      assert a + b == a;
    } else {
      var c := b[..|b| - 1];
      assert (a + b)[..|a| + |b| - 1] == a + c;
      WithoutBlanksConcat(a, c);
    }
  }

  lemma {:induction false} BlankVanishes(g: string)
    requires Blank(g)
    ensures WithoutBlanks(g) == ""
  {
    if g != "" { BlankVanishes(g[..|g| - 1]); }
  }

  lemma {:induction false} SolidStays(t: string)
    requires forall k :: 0 <= k < |t| ==> !IsWhitespace(t[k])
    ensures WithoutBlanks(t) == t
  {
    if t != "" {
      SolidStays(t[..|t| - 1]);
      assert t == t[..|t| - 1] + [t[|t| - 1]];
    }
  }

  lemma TokenIsSolid(t: string)
    requires IsToken(t)
    ensures t != "" && forall k :: 0 <= k < |t| ==> !IsWhitespace(t[k])
  {
    if IsWord(t) {
      forall k | 0 <= k < |t| ensures !IsWhitespace(t[k]) { WordCharKinds(t[k]); }
    }
  }

  lemma TokConserves(gap: string, token: string, rest: string)
    requires Blank(gap) && IsToken(token)
    ensures WithoutBlanks(gap + token + rest) == token + WithoutBlanks(rest)
  {
    BlankVanishes(gap);
    TokenIsSolid(token);
    SolidStays(token);
    WithoutBlanksConcat(gap + token, rest);
    WithoutBlanksConcat(gap, token);
    assert "" + token == token;
  }

  lemma {:induction false} LayoutConserves(l: Layout)
    requires WellLaid(l)
    ensures WithoutBlanks(Written(l)) == Joined(TokensOf(l))
    ensures forall k :: 0 <= k < |TokensOf(l)| ==> IsToken(TokensOf(l)[k])
  {
    hide WithoutBlanks, IsToken, Glues, Blank;
    match l
    case End(gap) => BlankVanishes(gap);
    case Tok(gap, token, rest) =>
      LayoutConserves(rest);
      TokConserves(gap, token, Written(rest));
      assert TokensOf(l)[1..] == TokensOf(rest);
  }

  // The tokens together are the text without its white space, and each is a word or an operator.
  lemma TokenizeConserves(s: string)
    requires Tokens(s).Ok?
    ensures Joined(Tokens(s).value) == WithoutBlanks(s)
    ensures forall k :: 0 <= k < |Tokens(s).value| ==> IsToken(Tokens(s).value[k])
  {
    LayoutSound(s, 0);
    assert s[0..] == s;
    LayoutConserves(LayoutFrom(s, 0));
  }

  function SpacedLayout(ts: seq<string>, gap: string): Layout {
    if ts == [] then End("") else Tok(gap, ts[0], SpacedLayout(ts[1..], " "))
  }

  lemma {:induction false} SpacedIsLaid(ts: seq<string>, gap: string)
    requires Blank(gap) && forall k :: 0 <= k < |ts| ==> IsToken(ts[k])
    ensures WellLaid(SpacedLayout(ts, gap))
    ensures Written(SpacedLayout(ts, gap)) == if ts == [] then "" else gap + Spaced(ts)
    ensures TokensOf(SpacedLayout(ts, gap)) == ts
  {
    hide IsToken, Glues, IsWhitespace;
    if ts != [] {
      var rest := SpacedLayout(ts[1..], " ");
      BlankSpace(ts[0]);
      SpacedIsLaid(ts[1..], " ");
      assert ts == [ts[0]] + ts[1..];
      if |ts| > 1 {
        SpacedFirst(gap, ts[0], Spaced(ts[1..]));
      } else {
        assert gap + ts[0] + "" == gap + ts[0];
      }
      assert Written(SpacedLayout(ts, gap)) == gap + ts[0] + Written(rest);
    }
  }

  lemma SpacedFirst(gap: string, t: string, tail: string)
    ensures gap + t + (" " + tail) == gap + (t + " " + tail) && (" " + tail)[0] == ' '
  {}

  lemma BlankSpace(t: string)
    ensures Blank(" ") && (IsToken(t) ==> !Glues(t, ' '))
  {}

  lemma NothingIsBlank()
    ensures Blank("") && Spaced([]) == ""
  {}

  // Tokens written with single spaces between them come back unchanged.
  lemma SpacedRoundTrip(ts: seq<string>)
    requires forall k :: 0 <= k < |ts| ==> IsToken(ts[k])
    ensures Tokens(Spaced(ts)) == Ok(ts)
  {
    hide IsToken, Tokens, Blank;
    NothingIsBlank();
    SpacedIsLaid(ts, "");
    assert "" + Spaced(ts) == Spaced(ts);
    TokenizeComplete(SpacedLayout(ts, ""));
  }

  lemma TokenizeIdempotent(s: string)
    requires Tokens(s).Ok?
    ensures Tokens(Spaced(Tokens(s).value)) == Tokens(s)
  {
    TokenizeConserves(s);
    SpacedRoundTrip(Tokens(s).value);
  }

  // A token list is the reading of a text exactly when the text is a layout of it.
  lemma TokenizeIff(s: string, ts: seq<string>)
    ensures Tokens(s) == Ok(ts) <==> exists l :: WellLaid(l) && Written(l) == s && TokensOf(l) == ts
  {
    if Tokens(s) == Ok(ts) {
      LayoutSound(s, 0);
      assert s[0..] == s;
    }
    forall l | WellLaid(l) && Written(l) == s && TokensOf(l) == ts ensures Tokens(s) == Ok(ts) {
      TokenizeComplete(l);
    }
  }
}
