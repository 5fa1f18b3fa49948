// Lines of /proc/<pid>/maps: `parse_maps_line` of src/maps.rs and the kernel's way of writing them.
module MapsLine {
  import opened Prelude
  import opened Text
  import opened FileNames
  import opened MapsResolve

  // The end of the word that starts at `i`.
  function WordEnd(s: string, i: nat): (n: nat)
    requires i <= |s|
    ensures i <= n <= |s| && (n < |s| ==> IsWhitespace(s[n]))
    ensures forall k :: i <= k < n ==> !IsWhitespace(s[k])
    decreases |s| - i
  {
    if i < |s| && !IsWhitespace(s[i]) then WordEnd(s, i + 1) else i
  }

  // `split_whitespace`, from `i` on.
  function WordsFrom(s: string, i: nat): seq<string>
    requires i <= |s|
    decreases |s| - i
  {
    if i == |s| then []
    else if IsWhitespace(s[i]) then WordsFrom(s, i + 1)
    else [s[i..WordEnd(s, i)]] + WordsFrom(s, WordEnd(s, i))
  }

  function Words(s: string): seq<string> { WordsFrom(s, 0) }

  function JoinedBySpaces(ws: seq<string>): string {
    if ws == [] then "" else if |ws| == 1 then ws[0] else ws[0] + " " + JoinedBySpaces(ws[1..])
  }

  function ParseRange(range: string): Option<(u64, u64)> {
    var dash := IndexFrom(range, '-', 0);
    if dash == |range| then None
    else
      match (FromStrRadix(range[..dash], 16), FromStrRadix(range[dash + 1..], 16))
      case (Some(start), Some(end)) => Some((start, end))
      case _ => None
  }

  function ParseMapsLine(line: string): Option<ParsedRegion> {
    var parts := Words(line);
    if |parts| < 5 then None
    else
      var range, offset, inode := ParseRange(parts[0]), FromStrRadix(parts[2], 16), FromStrRadix(parts[4], 10);
      if range.None? || offset.None? || inode.None? then None
      else
        var (start, end) := range.value;
        Some(ParsedRegion(start, end, MapRegion(
          "0x" + HexPadded(start, 16), "0x" + HexPadded(end, 16), parts[1], "0x" + Hex(offset.value), parts[3],
          inode.value, if |parts| > 5 then Some(JoinedBySpaces(parts[5..])) else None)))
  }

  // One mapping, as the kernel knows it.
  datatype Mapping = Mapping(
    start: u64, end: u64, perms: string, offset: u64, dev: string, inode: u64, path: Option<string>)

  predicate IsWord(s: string) { s != "" && forall k :: 0 <= k < |s| ==> !IsWhitespace(s[k]) }

  // The fields before the path. The kernel pads the addresses and the offset to eight digits.
  function Fields(m: Mapping): seq<string> {
    [HexPadded(m.start, 8) + "-" + HexPadded(m.end, 8), m.perms, HexPadded(m.offset, 8), m.dev, Decimal(m.inode)]
  }

  // `pad` is the column of spaces before the path; every line ends with at least one after the inode.
  function MapsText(m: Mapping, pad: string): string {
    Glued(Fields(m)) + (if m.path.Some? then pad + m.path.value else "")
  }

  // Each word followed by one space.
  function Glued(ws: seq<string>): string { if ws == [] then "" else ws[0] + " " + Glued(ws[1..]) }

  predicate Blank(s: string) { forall k :: 0 <= k < |s| ==> IsWhitespace(s[k]) }

  // ----- words -----

  lemma {:induction false} WordEndIs(s: string, i: nat, n: nat)
    requires i <= n <= |s| && (forall k :: i <= k < n ==> !IsWhitespace(s[k])) && (n < |s| ==> IsWhitespace(s[n]))
    ensures WordEnd(s, i) == n
    decreases n - i
  {
    if i < n { WordEndIs(s, i + 1, n); }
  }

  lemma WordEndShift(a: string, b: string, i: nat)
    requires i <= |b|
    ensures WordEnd(a + b, |a| + i) == |a| + WordEnd(b, i)
    ensures (a + b)[|a| + i..|a| + WordEnd(b, i)] == b[i..WordEnd(b, i)]
  {
    hide IsWhitespace;
    var s, n := a + b, WordEnd(b, i);
    forall k | |a| + i <= k < |a| + n ensures !IsWhitespace(s[k]) { assert s[k] == b[k - |a|]; }
    WordEndIs(s, |a| + i, |a| + n);
  }

  lemma WordsStep(s: string, i: nat)
    requires i <= |s|
    ensures i == |s| ==> WordsFrom(s, i) == []
    ensures i < |s| && IsWhitespace(s[i]) ==> WordsFrom(s, i) == WordsFrom(s, i + 1)
    ensures i < |s| && !IsWhitespace(s[i]) ==>
              i < WordEnd(s, i) && WordsFrom(s, i) == [s[i..WordEnd(s, i)]] + WordsFrom(s, WordEnd(s, i))
  {}

  lemma {:induction false} WordsShift(a: string, b: string, i: nat)
    requires i <= |b|
    ensures WordsFrom(a + b, |a| + i) == WordsFrom(b, i)
    decreases |b| - i
  {
    hide IsWhitespace, WordsFrom, WordEnd;
    var s := a + b;
    WordsStep(b, i);
    WordsStep(s, |a| + i);
    if i < |b| {
      assert s[|a| + i] == b[i];
      if IsWhitespace(b[i]) {
        WordsShift(a, b, i + 1);
      } else {
        WordEndShift(a, b, i);
        WordsShift(a, b, WordEnd(b, i));
      }
    }
  }

  lemma FirstWord(w: string, rest: string)
    requires IsWord(w)
    ensures Words(w + " " + rest) == [w] + Words(rest)
  {
    var s := w + " " + rest;
    forall k | 0 <= k < |w| ensures !IsWhitespace(s[k]) { assert s[k] == w[k]; }
    WordEndIs(s, 0, |w|);
    assert s[0..|w|] == w;
    WordsShift(w + " ", rest, 0);
    assert WordsFrom(s, |w|) == WordsFrom(s, |w| + 1);
  }

  lemma {:induction false} BlankFirst(g: string, rest: string)
    requires Blank(g)
    ensures Words(g + rest) == Words(rest)
  {
    if g == "" {
      assert g + rest == rest;
    } else {
      BlankFirst(g[1..], rest);
      WordsShift([g[0]], g[1..] + rest, 0);
      assert g + rest == [g[0]] + (g[1..] + rest);
    }
  }

  lemma {:induction false} GluedWords(ws: seq<string>, rest: string)
    requires forall k :: 0 <= k < |ws| ==> IsWord(ws[k])
    ensures Words(Glued(ws) + rest) == ws + Words(rest)
  {
    if ws == [] {
      assert "" + rest == rest;
    } else {
      GluedWords(ws[1..], rest);
      FirstWord(ws[0], Glued(ws[1..]) + rest);
      assert Glued(ws) + rest == ws[0] + " " + (Glued(ws[1..]) + rest);
      assert ws == [ws[0]] + ws[1..];
      ConcatAssociative([ws[0]], ws[1..], Words(rest));
    }
  }

  // ----- the fields -----

  predicate HexText(s: string) { s != "" && forall k :: 0 <= k < |s| ==> IsHexDigit(s[k]) }

  lemma PaddedHexText(n: nat, w: nat)
    ensures HexText(HexPadded(n, w))
  {
    PaddedIsDigits(n, w);
    HexDigitsValue(n);
  }

  lemma RangeParses(start: u64, end: u64)
    ensures ParseRange(HexPadded(start, 8) + "-" + HexPadded(end, 8)) == Some((start, end))
    ensures IsWord(HexPadded(start, 8) + "-" + HexPadded(end, 8))
  {
    hide HexPadded, FromStrRadix;
    var a, b := HexPadded(start, 8), HexPadded(end, 8);
    var range := a + "-" + b;
    PaddedHexText(start, 8);
    PaddedHexText(end, 8);
    HexRoundTrip(start, 8);
    HexRoundTrip(end, 8);
    DashAt(a, b);
    assert range[..|a|] == a && range[|a| + 1..] == b;
  }

  lemma DashAt(a: string, b: string)
    requires HexText(a) && HexText(b)
    ensures IndexFrom(a + "-" + b, '-', 0) == |a| && IsWord(a + "-" + b)
  {
    var s := a + "-" + b;
    forall k | 0 <= k < |a| ensures s[k] != '-' && !IsWhitespace(s[k]) { assert s[k] == a[k] && IsHexDigit(a[k]); }
    forall k | |a| < k < |s| ensures !IsWhitespace(s[k]) { assert s[k] == b[k - |a| - 1] && IsHexDigit(s[k]); }
    assert s[|a|] == '-';
  }

  predicate WellFormed(m: Mapping) { IsWord(m.perms) && IsWord(m.dev) }

  lemma FieldsAreWords(m: Mapping)
    requires WellFormed(m)
    ensures forall k :: 0 <= k < 5 ==> IsWord(Fields(m)[k])
  {
    hide HexPadded, Decimal, IsWord, HexText, ParseRange;
    RangeParses(m.start, m.end);
    PaddedHexText(m.offset, 8);
    DecimalIsWord(m.inode);
    HexIsWord(HexPadded(m.offset, 8));
    var fs := Fields(m);
    assert IsWord(fs[0]) && IsWord(fs[1]) && IsWord(fs[2]) && IsWord(fs[3]) && IsWord(fs[4]);
  }

  lemma HexIsWord(s: string)
    requires HexText(s)
    ensures IsWord(s)
  {
    forall k | 0 <= k < |s| ensures !IsWhitespace(s[k]) { assert IsHexDigit(s[k]); }
  }

  lemma DecimalIsWord(n: nat)
    ensures IsWord(Decimal(n))
  {
    DecimalValue(n);
    forall k | 0 <= k < |Decimal(n)| ensures !IsWhitespace(Decimal(n)[k]) { assert IsDecDigit(Decimal(n)[k]); }
  }

  function RegionOf(m: Mapping, pathname: Option<string>): ParsedRegion {
    ParsedRegion(m.start, m.end, MapRegion(
      "0x" + HexPadded(m.start, 16), "0x" + HexPadded(m.end, 16), m.perms, "0x" + Hex(m.offset), m.dev, m.inode,
      pathname))
  }

  // The path as the parser reassembles it: its words with single spaces between them.
  function Normalized(path: Option<string>): Option<string> {
    if path.None? || Words(path.value) == [] then None else Some(JoinedBySpaces(Words(path.value)))
  }

  // Every line the kernel writes is read as the mapping it was written for, its path normalized.
  lemma MapsLineRoundTrip(m: Mapping, pad: string)
    requires WellFormed(m) && Blank(pad)
    ensures ParseMapsLine(MapsText(m, pad)) == Some(RegionOf(m, Normalized(m.path)))
  {
    hide HexPadded, Hex, Decimal, FromStrRadix, ParseRange, IsWord;
    var tail := if m.path.Some? then pad + m.path.value else "";
    FieldsAreWords(m);
    GluedWords(Fields(m), tail);
    if m.path.Some? { BlankFirst(pad, m.path.value); }
    RangeParses(m.start, m.end);
    HexRoundTrip(m.offset, 8);
    DecimalRoundTrip(m.inode);
    var parts := Words(MapsText(m, pad));
    assert parts[5..] == Words(tail);
  }

  // ----- which paths survive -----

  // No white space at either end, and inside only single ' ' characters.
  predicate SingleSpaced(p: string) {
    && p != "" && !IsWhitespace(p[0]) && !IsWhitespace(p[|p| - 1])
    && forall i :: 0 <= i < |p| - 1 && IsWhitespace(p[i]) ==> p[i] == ' ' && !IsWhitespace(p[i + 1])
  }

  lemma LoneWord(w: string)
    requires IsWord(w)
    ensures Words(w) == [w]
  {
    WordEndIs(w, 0, |w|);
    assert w[0..|w|] == w && WordsFrom(w, |w|) == [];
    assert [w] + [] == [w];
  }

  lemma {:induction false} SingleSpacedIsJoined(p: string)
    requires SingleSpaced(p)
    ensures Words(p) != [] && JoinedBySpaces(Words(p)) == p
    decreases |p|
  {
    var n := WordEnd(p, 0);
    var w := p[..n];
    assert IsWord(w) by { assert w[0] == p[0]; }
    if n == |p| {
      LoneWord(p);
    } else {
      var rest := p[n + 1..];
      assert p[n] == ' ' && rest[0] == p[n + 1] && rest[|rest| - 1] == p[|p| - 1];
      assert p == w + " " + rest;
      SingleSpacedIsJoined(rest);
      FirstWord(w, rest);
      assert ([w] + Words(rest))[1..] == Words(rest);
    }
  }

  lemma {:induction false} WordsAreWords(s: string, i: nat)
    requires i <= |s|
    ensures forall k :: 0 <= k < |WordsFrom(s, i)| ==> IsWord(WordsFrom(s, i)[k])
    decreases |s| - i
  {
    if i < |s| { WordsAreWords(s, if IsWhitespace(s[i]) then i + 1 else WordEnd(s, i)); }
  }

  lemma {:induction false} JoinedIsSingleSpaced(ws: seq<string>)
    requires ws != [] && forall k :: 0 <= k < |ws| ==> IsWord(ws[k])
    ensures SingleSpaced(JoinedBySpaces(ws))
  {
    if |ws| > 1 {
      JoinedIsSingleSpaced(ws[1..]);
      SpaceBetween(ws[0], JoinedBySpaces(ws[1..]));
    }
  }

  lemma SpaceBetween(w: string, rest: string)
    requires IsWord(w) && SingleSpaced(rest)
    ensures SingleSpaced(w + " " + rest)
  {
    var p := w + " " + rest;
    assert p[0] == w[0] && p[|p| - 1] == rest[|rest| - 1];
    forall k | 0 <= k < |w| ensures !IsWhitespace(p[k]) { assert p[k] == w[k]; }
    forall i | 0 <= i < |p| - 1 && IsWhitespace(p[i]) ensures p[i] == ' ' && !IsWhitespace(p[i + 1]) {
      if i == |w| { assert p[i + 1] == rest[0]; }
      if i > |w| { assert p[i] == rest[i - |w| - 1] && p[i + 1] == rest[i - |w|]; }
    }
  }

  // The path itself comes back exactly when it is not empty, begins and ends with no white space, and
  // holds no white space but single ' ' characters.
  lemma PathKeptIff(m: Mapping, pad: string)
    requires WellFormed(m) && Blank(pad) && m.path.Some?
    ensures ParseMapsLine(MapsText(m, pad)) == Some(RegionOf(m, m.path)) <==> SingleSpaced(m.path.value)
  {
    hide ParseMapsLine, MapsText, Words, JoinedBySpaces, SingleSpaced;
    var p := m.path.value;
    MapsLineRoundTrip(m, pad);
    if SingleSpaced(p) { SingleSpacedIsJoined(p); }
    if Words(p) != [] && p == JoinedBySpaces(Words(p)) {
      WordsOfText(p);
      JoinedIsSingleSpaced(Words(p));
    }
  }

  lemma WordsOfText(p: string)
    ensures forall k :: 0 <= k < |Words(p)| ==> IsWord(Words(p)[k])
  {
    WordsAreWords(p, 0);
  }

  // The mapping of a file "/tmp/a  b" is read as one of "/tmp/a b".
  lemma DoubleSpaceLost(m: Mapping, pad: string)
    requires WellFormed(m) && Blank(pad) && m.path == Some("/tmp/a  b")
    ensures ParseMapsLine(MapsText(m, pad)) == Some(RegionOf(m, Some("/tmp/a b")))
  {
    hide ParseMapsLine, MapsText, RegionOf, Words;
    MapsLineRoundTrip(m, pad);
    FirstWord("/tmp/a", " b");
    BlankFirst(" ", "b");
    LoneWord("b");
    assert "/tmp/a" + " " + " b" == "/tmp/a  b" && " " + "b" == " b";
    assert Words("/tmp/a  b") == ["/tmp/a", "b"];
    assert ["/tmp/a", "b"][1..] == ["b"];
    assert JoinedBySpaces(["/tmp/a", "b"]) == "/tmp/a" + " " + "b" == "/tmp/a b";
    assert Normalized(m.path) == Some("/tmp/a b");
  }

  // ----- a symbol that does not lead back -----

  // Two mappings of one file, as their lines are read: an address in the second one is displayed from the
  // second one's start, but its symbol is resolved from the first one's.
  lemma LaterSegmentDiffers() returns (m0: Mapping, m1: Mapping, addr: u64)
    ensures WellFormed(m0) && WellFormed(m1) && m0.path == m1.path && m0.inode == m1.inode && m0.end == m1.start
    ensures var r0, r1 := ParseMapsLine(MapsText(m0, " ")), ParseMapsLine(MapsText(m1, " "));
            && r0.Some? && r1.Some? && ResolveOne([r0.value, r1.value], addr).Some?
            && ResolveExpression([r0.value, r1.value], ResolveOne([r0.value, r1.value], addr).value.display) != Ok(addr)
  {
    hide ParseMapsLine, MapsText, ResolveOne, ResolveExpression, HexPadded, Decimal, Words, JoinedBySpaces;
    var path := "/a";
    m0 := Mapping(0x1000, 0x2000, "r--p", 0, "08:01", 7, Some(path));
    m1 := Mapping(0x2000, 0x3000, "r-xp", 0x1000, "08:01", 7, Some(path));
    addr := 0x2008;
    MapsLineRoundTrip(m0, " ");
    MapsLineRoundTrip(m1, " ");
    SingleSpacedIsJoined(path);
    assert FileName(path) == Some("a") by { assert path[1..] == "a" && PieceStart(path, 2) == 1; }
    SecondSegmentDiffers([RegionOf(m0, Some(path)), RegionOf(m1, Some(path))], addr);
  }
}
