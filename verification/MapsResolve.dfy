// Addresses and `module+offset` expressions against one list of mapped regions (src/maps.rs).
module MapsResolve {
  import opened Prelude
  import opened Text
  import opened FileNames

  datatype MapRegion = MapRegion(
    start: string, end: string, perms: string, offset: string, dev: string, inode: u64, pathname: Option<string>)

  datatype ParsedRegion = ParsedRegion(start: u64, end: u64, region: MapRegion)

  datatype AddressResolution = AddressResolution(region: MapRegion, module_: string, offset: string, display: string)

  datatype ExpressionError =
    | InvalidExpression
    | MissingModule
    | InvalidOffset
    | ModuleNotFound
    | AddressOverflow

  // ----- address to symbol -----

  predicate Contains(r: ParsedRegion, addr: u64) { r.start <= addr < r.end }

  // Index of the first region from `i` on that contains the address.
  function FindRegion(regions: seq<ParsedRegion>, addr: u64, i: nat): (r: Option<nat>)
    requires i <= |regions|
    ensures r.Some? ==> i <= r.value < |regions| && Contains(regions[r.value], addr)
    ensures forall j :: i <= j < (if r.Some? then r.value else |regions|) ==> !Contains(regions[j], addr)
    decreases |regions| - i
  {
    if i == |regions| then None
    else if Contains(regions[i], addr) then Some(i)
    else FindRegion(regions, addr, i + 1)
  }

  function ModuleLabel(r: MapRegion): string {
    match r.pathname
    case Some(path) => if FileName(path).Some? then FileName(path).value else path
    case None => r.start + "-" + r.end
  }

  function Resolution(r: ParsedRegion, addr: u64): AddressResolution
    requires Contains(r, addr)
  {
    var offset := "0x" + Hex(addr - r.start);
    AddressResolution(r.region, ModuleLabel(r.region), offset, ModuleLabel(r.region) + "+" + offset)
  }

  function ResolveOne(regions: seq<ParsedRegion>, addr: u64): Option<AddressResolution> {
    var found := FindRegion(regions, addr, 0);
    if found.Some? then Some(Resolution(regions[found.value], addr)) else None
  }

  // ----- symbol to address -----

  function ParseNumericAddr(value: string): Option<u64> {
    if value == "" then None
    else if StripHexPrefix(value).Some? then FromStrRadix(StripHexPrefix(value).value, 16)
    else if forall k :: 0 <= k < |value| ==> IsHexDigit(value[k]) then FromStrRadix(value, 16)
    else None
  }

  function ParseModuleOffset(expression: string): Result<(string, u64), ExpressionError> {
    var plus := IndexFrom(expression, '+', 0);
    if plus == |expression| then Err(InvalidExpression)
    else
      var name := Trim(expression[..plus]);
      if name == "" then Err(MissingModule)
      else
        match ParseNumericAddr(Trim(expression[plus + 1..]))
        case None => Err(InvalidOffset)
        case Some(offset) => Ok((name, offset))
  }

  predicate EndsWith(s: string, suffix: string) { |suffix| <= |s| && s[|s| - |suffix|..] == suffix }

  predicate ModuleMatches(path: string, name: string) {
    || EqIgnoreCase(path, name)
    || EndsWith(Lower(path), "/" + Lower(name))
    || (FileName(path).Some? && EqIgnoreCase(FileName(path).value, name))
  }

  // Index of the first region from `i` on whose path the name stands for.
  function FindModule(regions: seq<ParsedRegion>, name: string, i: nat): (r: Option<nat>)
    requires i <= |regions|
    ensures r.Some? ==>
              && i <= r.value < |regions| && regions[r.value].region.pathname.Some?
              && ModuleMatches(regions[r.value].region.pathname.value, name)
    ensures forall j :: i <= j < (if r.Some? then r.value else |regions|) ==>
              !(regions[j].region.pathname.Some? && ModuleMatches(regions[j].region.pathname.value, name))
    decreases |regions| - i
  {
    if i == |regions| then None
    else if regions[i].region.pathname.Some? && ModuleMatches(regions[i].region.pathname.value, name) then Some(i)
    else FindModule(regions, name, i + 1)
  }

  function ResolveModuleOffset(regions: seq<ParsedRegion>, expression: string): Result<u64, ExpressionError> {
    var (name, offset) :- ParseModuleOffset(expression);
    match FindModule(regions, name, 0)
    case None => Err(ModuleNotFound)
    case Some(m) =>
      var sum := regions[m].start + offset;
      if sum < U64_LIMIT then Ok(sum) else Err(AddressOverflow)
  }

  // `resolve_expression`, with the maps it reads given.
  function ResolveExpression(regions: seq<ParsedRegion>, expression: string): Result<u64, ExpressionError> {
    match ParseNumericAddr(Trim(expression))
    case Some(addr) => Ok(addr)
    case None => ResolveModuleOffset(regions, expression)
  }

  // ----- what a resolution says -----

  // The label: the file name, or the whole path when it has none, or the bounds of a region with no path.
  lemma ModuleLabelIff(r: MapRegion, symbol: string)
    ensures r.pathname.None? ==> (ModuleLabel(r) == symbol <==> symbol == r.start + "-" + r.end)
    ensures r.pathname.Some? ==>
              var path := r.pathname.value;
              ModuleLabel(r) == symbol
              <==> HasFileName(path, symbol) || ((forall f :: !HasFileName(path, f)) && symbol == path)
  {
    hide HasFileName, FileName;
    if r.pathname.Some? {
      var path := r.pathname.value;
      FileNameIff(path, symbol);
      forall f: string ensures HasFileName(path, f) <==> FileName(path) == Some(f) { FileNameIff(path, f); }
      if FileName(path).Some? { assert HasFileName(path, FileName(path).value); }
    }
  }

  // An address resolves exactly when it lies in a region -- from its start up to, not including, its end --
  // and then to the first such region.
  lemma ResolveOneIff(regions: seq<ParsedRegion>, addr: u64)
    ensures ResolveOne(regions, addr).Some?
            <==> exists i :: 0 <= i < |regions| && regions[i].start <= addr < regions[i].end
    ensures ResolveOne(regions, addr).Some? ==>
              exists i :: 0 <= i < |regions| && regions[i].start <= addr < regions[i].end
                && (forall j :: 0 <= j < i ==> !(regions[j].start <= addr < regions[j].end))
                && Shows(ResolveOne(regions, addr).value, regions[i], addr)
  {
    hide ModuleLabel, Hex, ParseNumericAddr;
    var found := FindRegion(regions, addr, 0);
    if found.Some? {
      ResolutionShows(regions[found.value], addr);
    } else {
      assert forall j :: 0 <= j < |regions| ==> !Contains(regions[j], addr);
    }
  }

  // The region itself, its label, an offset that reads back as the distance from its start, and both joined.
  predicate Shows(res: AddressResolution, r: ParsedRegion, addr: u64) {
    && res.region == r.region && res.module_ == ModuleLabel(r.region) && res.display == res.module_ + "+" + res.offset
    && r.start <= addr && ParseNumericAddr(res.offset) == Some(addr - r.start)
  }

  lemma ResolutionShows(r: ParsedRegion, addr: u64)
    requires Contains(r, addr)
    ensures Shows(Resolution(r, addr), r, addr)
  {
    hide ModuleLabel, Hex, Trim, ParseNumericAddr;
    var t := "0x" + Hex(addr - r.start);
    OffsetReadBack(addr - r.start);
    HexIsTrimmed(addr - r.start);
  }

  lemma HexIsTrimmed(n: nat)
    ensures Trim("0x" + Hex(n)) == "0x" + Hex(n)
  {
    hide Trim, Hex;
    var t := "0x" + Hex(n);
    HexDigitsValue(n);
    assert t[|t| - 1] == Hex(n)[|Hex(n)| - 1];
    TrimFixed(t);
  }

  // ----- what an expression stands for -----

  // A number: hexadecimal digits alone, or after 0x or 0X and perhaps a plus sign.
  lemma NumericIff(s: string, a: u64)
    ensures ParseNumericAddr(s) == Some(a)
            <==> Numeral(s, 16, a) || exists rest :: (s == "0x" + rest || s == "0X" + rest) && WrittenAs(rest, 16, a)
  {
    hide FromStrRadix, WrittenAs, Positional;
    var hex := StripHexPrefix(s);
    ValueIsPositional(s, 16);
    if hex.Some? {
      FromStrRadixIff(hex.value, 16, a);
      assert s == "0x" + hex.value || s == "0X" + hex.value;
      assert DigitOf(s[1]) == 36;
    } else if s != "" && forall k :: 0 <= k < |s| ==> IsHexDigit(s[k]) {
      DigitsFromRadix(s, a);
    } else if s != "" {
      var k :| 0 <= k < |s| && !IsHexDigit(s[k]);
      assert DigitOf(s[k]) >= 16;
    }
    forall rest | s == "0x" + rest || s == "0X" + rest ensures hex == Some(rest) { assert s[2..] == rest; }
  }

  lemma DigitsFromRadix(s: string, a: u64)
    requires s != "" && forall k :: 0 <= k < |s| ==> IsHexDigit(s[k])
    ensures AllDigits(s, 16) && (FromStrRadix(s, 16) == Some(a) <==> ValueOf(s, 16) == a)
  {
    hide ValueOf;
    assert s[0] != '+';
  }

  // Around its first plus sign: a name and an offset, each trimmed, or which of them is missing.
  lemma ModuleOffsetIs(name: string, offset: string)
    requires NoPlus(name)
    ensures ParseModuleOffset(name) == Err(InvalidExpression)
    ensures ParseModuleOffset(name + "+" + offset)
            == if Trim(name) == "" then Err(MissingModule)
               else if ParseNumericAddr(Trim(offset)).None? then Err(InvalidOffset)
               else Ok((Trim(name), ParseNumericAddr(Trim(offset)).value))
  {
    hide Trim, ParseNumericAddr;
    var e := name + "+" + offset;
    IndexIs(e, '+', |name|);
    assert e[..|name|] == name && e[|name| + 1..] == offset;
  }

  // The names a path answers to: itself, its end after a slash, or its file name, in any case.
  ghost predicate AnswersTo(path: string, name: string) {
    || EqIgnoreCase(path, name)
    || (exists front :: Lower(path) == front + "/" + Lower(name))
    || (exists f :: HasFileName(path, f) && EqIgnoreCase(f, name))
  }

  lemma ModuleMatchesIff(path: string, name: string)
    ensures ModuleMatches(path, name) <==> AnswersTo(path, name)
  {
    hide HasFileName, FileName, EqIgnoreCase;
    var low, end := Lower(path), "/" + Lower(name);
    if EndsWith(low, end) {
      assert low == low[..|low| - |end|] + end;
      assert low == low[..|low| - |end|] + "/" + Lower(name);
    }
    forall front | low == front + "/" + Lower(name) ensures EndsWith(low, end) {
      assert front + "/" + Lower(name) == front + end;
      assert low[|low| - |end|..] == end;
    }
    forall f: string ensures HasFileName(path, f) <==> FileName(path) == Some(f) { FileNameIff(path, f); }
  }

  // A path whose last piece is another name does not answer to a name without a slash.
  lemma OtherNameRefused(path: string, front: string, last: string, name: string)
    requires NamedBy(path, front, last, "") && front != "" && NoSlash(name) && !EqIgnoreCase(last, name)
    ensures !ModuleMatches(path, name)
  {
    EqIgnoreCaseAt(last, name);
    EqIgnoreCaseAt(path, name);
    FileNameIff(path, last);
    assert HasFileName(path, last);
    var k := |front| - 1;
    assert path == front + last && path[k] == '/';
    if |path| == |name| { assert name[k] != '/' && LowerChar(name[k]) != LowerChar(path[k]); }
    if EndsWith(Lower(path), "/" + Lower(name)) { EndIsLast(path, front, last, name); }
  }

  lemma AfterSlash(a: string, x: string, b: string, y: string)
    requires a + x == b + "/" + y && a != "" && a[|a| - 1] == '/' && NoSlash(x) && NoSlash(y)
    ensures x == y
  {
    assert |a + x| == |b + "/" + y|;
    CharOf(a, x, |a| - 1);
    CharOf(a, x, |b|);
    CharOf(b + "/", y, |a| - 1);
    CharOf(b + "/", y, |b|);
    SplitsAlike(a, x, b + "/", y);
  }

  lemma LowerKeepsSlashes(s: string, t: string)
    ensures Lower(s + t) == Lower(s) + Lower(t) && (NoSlash(s) ==> NoSlash(Lower(s)))
    ensures s != "" && s[|s| - 1] == '/' ==> Lower(s)[|s| - 1] == '/'
  {}

  lemma EndIsLast(path: string, front: string, last: string, name: string)
    requires path == front + last && front != "" && front[|front| - 1] == '/' && NoSlash(last) && NoSlash(name)
    requires EndsWith(Lower(path), "/" + Lower(name))
    ensures EqIgnoreCase(last, name)
  {
    hide NoSlash;
    var low, end := Lower(path), "/" + Lower(name);
    LowerKeepsSlashes(front, last);
    LowerKeepsSlashes(last, "");
    LowerKeepsSlashes(name, "");
    var before := low[..|low| - |end|];
    assert low == before + end && before + end == before + "/" + Lower(name);
    AfterSlash(Lower(front), Lower(last), before, Lower(name));
  }

  // A name and an offset resolve from the first region that answers to the name, if the sum fits 64 bits.
  lemma NameResolves(regions: seq<ParsedRegion>, k: nat, path: string, name: string, off: u64)
    requires k < |regions| && regions[k].region.pathname == Some(path) && AnswersTo(path, name)
    requires forall j :: 0 <= j < k ==>
               regions[j].region.pathname.None? || !AnswersTo(regions[j].region.pathname.value, name)
    requires NoPlus(name) && Trimmed(name) && name != ""
    ensures ResolveExpression(regions, name + "+" + ("0x" + Hex(off)))
            == if regions[k].start + off < U64_LIMIT then Ok(regions[k].start + off) else Err(AddressOverflow)
  {
    hide Trim, Hex, ModuleMatches, AnswersTo, ParseNumericAddr, ParseModuleOffset;
    TrimFixed(name);
    DisplayParses(name, off);
    ModuleMatchesIff(path, name);
    forall j | 0 <= j < k
      ensures !(regions[j].region.pathname.Some? && ModuleMatches(regions[j].region.pathname.value, name))
    {
      if regions[j].region.pathname.Some? { ModuleMatchesIff(regions[j].region.pathname.value, name); }
    }
  }

  // No region answers: the module is reported missing. A number needs no region at all.
  lemma UnknownNameRefused(regions: seq<ParsedRegion>, name: string, off: u64)
    requires forall j :: 0 <= j < |regions| ==>
               regions[j].region.pathname.None? || !AnswersTo(regions[j].region.pathname.value, name)
    requires NoPlus(name) && Trimmed(name) && name != ""
    ensures ResolveExpression(regions, name + "+" + ("0x" + Hex(off))) == Err(ModuleNotFound)
  {
    hide Trim, Hex, ModuleMatches, AnswersTo, ParseNumericAddr, ParseModuleOffset;
    TrimFixed(name);
    DisplayParses(name, off);
    var found := FindModule(regions, name, 0);
    if found.Some? { ModuleMatchesIff(regions[found.value].region.pathname.value, name); }
  }

  lemma NumberResolves(regions: seq<ParsedRegion>, a: u64)
    ensures ResolveExpression(regions, "0x" + Hex(a)) == Ok(a)
    ensures ResolveExpression(regions, Hex(a)) == Ok(a)
  {
    hide Trim, Hex, ParseNumericAddr;
    OffsetReadBack(a);
    BareHexReadBack(a);
  }

  lemma BareHexReadBack(a: u64)
    ensures ParseNumericAddr(Trim(Hex(a))) == Some(a)
  {
    hide Hex, Trim, FromStrRadix;
    HexDigitsValue(a);
    HexRoundTrip(a, 0);
    TrimFixed(Hex(a));
    assert |Hex(a)| > 1 ==> IsHexDigit(Hex(a)[1]);
  }

  // ----- the round trip -----

  // "+0x" stands at `j`.
  predicate HasMark(s: string, j: nat) { j + 3 <= |s| && s[j] == '+' && s[j + 1] == '0' && s[j + 2] == 'x' }

  lemma MarkIsNoNumber(s: string, j: nat)
    requires HasMark(s, j)
    ensures ParseNumericAddr(s) == None
  {
    assert !IsHexDigit(s[j]);
    if StripHexPrefix(s).Some? {
      assert j >= 2 && s[2..][j] == 'x';
      NotDigitsNoNumber(s[2..], j, 16);
    }
  }

  lemma MarkSurvivesTrim(s: string, j: nat)
    requires HasMark(s, j)
    ensures exists k :: HasMark(Trim(s), k)
  {
    var n := SkipWhitespace(s, 0);
    assert !IsWhitespace(s[j]) && !IsWhitespace(s[j + 2]);
    assert n <= j;
    var t := TrimStart(s);
    assert t[j - n] == s[j] && t[j - n + 1] == s[j + 1] && t[j - n + 2] == s[j + 2];
    assert !IsWhitespace(t[j - n + 2]);
    assert DropWhitespace(t, |t|) >= j - n + 3;
    assert HasMark(Trim(s), j - n);
  }

  lemma MarkedTrimIsNoNumber(s: string, j: nat)
    requires HasMark(s, j)
    ensures ParseNumericAddr(Trim(s)) == None
  {
    MarkSurvivesTrim(s, j);
    var k :| HasMark(Trim(s), k);
    MarkIsNoNumber(Trim(s), k);
  }

  predicate NoPlus(s: string) { forall i :: 0 <= i < |s| ==> s[i] != '+' }

  lemma IndexIs(s: string, c: char, n: nat)
    requires n < |s| && s[n] == c && forall i :: 0 <= i < n ==> s[i] != c
    ensures IndexFrom(s, c, 0) == n
  {}

  // Every printed offset is read back.
  lemma OffsetReadBack(off: u64)
    ensures ParseNumericAddr(Trim("0x" + Hex(off))) == Some(off)
  {
    hide Hex, HexChar, Trim, FromStrRadix;
    var t := "0x" + Hex(off);
    HexDigitsValue(off);
    HexRoundTrip(off, 0);
    assert t[|t| - 1] == Hex(off)[|Hex(off)| - 1];
    assert Trimmed(t);
    TrimFixed(t);
    assert t[2..] == Hex(off);
  }

  // How a displayed symbol is taken apart again.
  lemma DisplayParses(symbol: string, off: u64)
    ensures ParseNumericAddr(Trim(symbol + "+" + ("0x" + Hex(off)))) == None
    ensures ParseModuleOffset(symbol + "+" + ("0x" + Hex(off))).Ok? <==> NoPlus(symbol) && Trim(symbol) != ""
    ensures NoPlus(symbol) && Trim(symbol) != "" ==>
              ParseModuleOffset(symbol + "+" + ("0x" + Hex(off))) == Ok((Trim(symbol), off))
  {
    hide Hex, ParseNumericAddr, Trim;
    var d := symbol + "+" + ("0x" + Hex(off));
    assert HasMark(d, |symbol|);
    MarkedTrimIsNoNumber(d, |symbol|);
    if NoPlus(symbol) {
      IndexIs(d, '+', |symbol|);
      assert d[..|symbol|] == symbol && d[|symbol| + 1..] == "0x" + Hex(off);
      OffsetReadBack(off);
    } else {
      LabelWithPlusFails(symbol, d);
    }
  }

  lemma LabelWithPlusFails(symbol: string, d: string)
    requires !NoPlus(symbol) && |symbol| <= |d| && d[..|symbol|] == symbol && HasMark(d, |symbol|)
    ensures ParseModuleOffset(d).Err?
  {
    hide Trim, ParseNumericAddr;
    var p := IndexFrom(d, '+', 0);
    var i :| 0 <= i < |symbol| && symbol[i] == '+';
    assert d[i] == d[..|symbol|][i];
    assert p <= i;
    var rest := d[p + 1..];
    var j := |symbol| - (p + 1);
    assert rest[j] == d[|symbol|] && rest[j + 1] == d[|symbol| + 1] && rest[j + 2] == d[|symbol| + 2];
    MarkedTrimIsNoNumber(rest, j);
  }

  // A displayed symbol leads back to its address exactly when its label holds no '+' and the first
  // region the trimmed label stands for starts where the address's own region starts.
  lemma SymbolRoundTripIff(regions: seq<ParsedRegion>, addr: u64)
    requires ResolveOne(regions, addr).Some?
    ensures var own := regions[FindRegion(regions, addr, 0).value];
            var symbol := ModuleLabel(own.region);
            var first := FindModule(regions, Trim(symbol), 0);
            ResolveExpression(regions, ResolveOne(regions, addr).value.display) == Ok(addr)
            <==> NoPlus(symbol) && Trim(symbol) != "" && first.Some? && regions[first.value].start == own.start
  {
    hide ModuleLabel, Hex, ParseModuleOffset, ParseNumericAddr, Trim, FindModule;
    var own := regions[FindRegion(regions, addr, 0).value];
    DisplayParses(ModuleLabel(own.region), addr - own.start);
  }

  // A named region answers to its own label.
  lemma LabelMatchesOwn(r: MapRegion)
    requires r.pathname.Some?
    ensures ModuleMatches(r.pathname.value, ModuleLabel(r))
  {}

  // The common case: the region is the first with its name, and the name has nothing to trim.
  lemma SymbolRoundTrip(regions: seq<ParsedRegion>, addr: u64)
    requires ResolveOne(regions, addr).Some?
    requires var k := FindRegion(regions, addr, 0).value;
             var symbol := ModuleLabel(regions[k].region);
             NoPlus(symbol) && symbol != "" && Trimmed(symbol) && FindModule(regions, symbol, 0) == Some(k)
    ensures ResolveExpression(regions, ResolveOne(regions, addr).value.display) == Ok(addr)
  {
    hide ModuleLabel, Trim, FindModule, ResolveExpression;
    SymbolRoundTripIff(regions, addr);
    TrimFixed(ModuleLabel(regions[FindRegion(regions, addr, 0).value].region));
  }

  // An address in a later mapping of the same file is displayed from that mapping's start but looked
  // up from the first one's.
  lemma SecondSegmentDiffers(regions: seq<ParsedRegion>, addr: u64)
    requires |regions| == 2 && !Contains(regions[0], addr) && Contains(regions[1], addr)
    requires regions[0].region.pathname == regions[1].region.pathname && regions[0].region.pathname.Some?
    requires regions[0].start != regions[1].start && Trimmed(ModuleLabel(regions[1].region))
    ensures ResolveOne(regions, addr).Some?
    ensures ResolveExpression(regions, ResolveOne(regions, addr).value.display) != Ok(addr)
  {
    hide ResolveExpression, FileName, ModuleMatches, Trim;
    assert FindRegion(regions, addr, 0) == FindRegion(regions, addr, 1) == Some(1);
    var symbol := ModuleLabel(regions[1].region);
    LabelMatchesOwn(regions[1].region);
    TrimFixed(symbol);
    assert FindModule(regions, symbol, 0) == Some(0);
    SymbolRoundTripIff(regions, addr);
  }

  // ----- batches -----

  function ResolveAll(regions: seq<ParsedRegion>, addrs: seq<u64>): (r: seq<Option<AddressResolution>>)
    ensures |r| == |addrs|
  {
    seq(|addrs|, i requires 0 <= i < |addrs| => ResolveOne(regions, addrs[i]))
  }
}
