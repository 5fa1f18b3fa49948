// One event-stream frame: `handleSseFrame` of pwatch-ui/app.js, and the frames the server sends it.
module SseFrame {
  import opened Prelude
  import opened Sse
  import Text

  // JavaScript's white space and line terminators, what `trim` removes.
  predicate IsJsSpace(c: char) {
    || '\t' <= c <= '\r' || c == ' ' || c == '\U{A0}' || c == '\U{1680}' || '\U{2000}' <= c <= '\U{200A}'
    || c == '\U{2028}' || c == '\U{2029}' || c == '\U{202F}' || c == '\U{205F}' || c == '\U{3000}' || c == '\U{FEFF}'
  }

  // It is what Rust trims, without the next-line character and with the byte-order mark.
  lemma JsSpaceIff(c: char)
    ensures IsJsSpace(c) <==> (Text.IsWhitespace(c) && c != '\U{85}') || c == '\U{FEFF}'
  {}

  function JsSkip(s: string, i: nat): (n: nat)
    requires i <= |s|
    ensures i <= n <= |s| && (n < |s| ==> !IsJsSpace(s[n]))
    ensures forall k :: i <= k < n ==> IsJsSpace(s[k])
    decreases |s| - i
  {
    if i < |s| && IsJsSpace(s[i]) then JsSkip(s, i + 1) else i
  }

  function JsDrop(s: string, n: nat): (m: nat)
    requires n <= |s|
    ensures m <= n && (m > 0 ==> !IsJsSpace(s[m - 1]))
    ensures forall k :: m <= k < n ==> IsJsSpace(s[k])
  {
    if n > 0 && IsJsSpace(s[n - 1]) then JsDrop(s, n - 1) else n
  }

  function TrimStart(s: string): string { s[JsSkip(s, 0)..] }

  function Trim(s: string): string { var t := TrimStart(s); t[..JsDrop(t, |t|)] }

  // `frame.split(/\r?\n/)`.
  function LineFeed(s: string, i: nat): (n: nat)
    requires i <= |s|
    ensures i <= n <= |s| && (n < |s| ==> s[n] == '\n')
    ensures forall k :: i <= k < n ==> s[k] != '\n'
    decreases |s| - i
  {
    if i == |s| || s[i] == '\n' then i else LineFeed(s, i + 1)
  }

  function Lines(s: string): (r: seq<string>)
    ensures r != []
    decreases |s|
  {
    var n := LineFeed(s, 0);
    if n == |s| then [s]
    else [if n > 0 && s[n - 1] == '\r' then s[..n - 1] else s[..n]] + Lines(s[n + 1..])
  }

  predicate StartsWith(s: string, prefix: string) { |prefix| <= |s| && s[..|prefix|] == prefix }

  const EVENT: string := "event:"
  const DATA: string := "data:"

  // The first line with the prefix, without it; empty when there is none.
  function FirstField(lines: seq<string>, prefix: string): string {
    if lines == [] then ""
    else if StartsWith(lines[0], prefix) then lines[0][|prefix|..]
    else FirstField(lines[1..], prefix)
  }

  function DataFields(lines: seq<string>): seq<string> {
    if lines == [] then []
    else (if StartsWith(lines[0], DATA) then [TrimStart(lines[0][|DATA|..])] else []) + DataFields(lines[1..])
  }

  function JoinLines(parts: seq<string>): string {
    if parts == [] then "" else if |parts| == 1 then parts[0] else parts[0] + "\n" + JoinLines(parts[1..])
  }

  datatype Message = Message(event: string, data: string)

  function ParseFrame(frame: string): Message {
    var lines := Lines(frame);
    var event := Trim(FirstField(lines, EVENT));
    Message(if event == "" then "message" else event, JoinLines(DataFields(lines)))
  }

  // The hits a list of frames appends: events named "hit" that carry data.
  function HitsOf(frames: seq<string>): seq<string> {
    if frames == [] then []
    else
      var m := ParseFrame(frames[0]);
      (if m.event == "hit" && m.data != "" then [m.data] else []) + HitsOf(frames[1..])
  }

  // ----- what the server sends (src/server.rs:361-376) -----

  function EventFrame(m: Message): string { "event: " + m.event + "\ndata: " + m.data }

  predicate OneLine(s: string) { forall k :: 0 <= k < |s| ==> s[k] != '\n' }

  // An event name as servers use them, and data on one line, as JSON text is.
  predicate Sendable(m: Message) {
    && OneLine(m.event) && OneLine(m.data)
    && m.event != "" && !IsJsSpace(m.event[0]) && !IsJsSpace(m.event[|m.event| - 1])
    && m.data != "" && !IsJsSpace(m.data[0])
  }

  lemma {:induction false} LineFeedIs(s: string, i: nat, n: nat)
    requires i <= n <= |s| && (n < |s| ==> s[n] == '\n') && forall k :: i <= k < n ==> s[k] != '\n'
    ensures LineFeed(s, i) == n
    decreases n - i
  {
    if i < n { LineFeedIs(s, i + 1, n); }
  }

  lemma OneLineIsItself(s: string)
    requires OneLine(s)
    ensures Lines(s) == [s]
  {
    LineFeedIs(s, 0, |s|);
  }

  lemma TwoLines(a: string, b: string)
    requires OneLine(a) && OneLine(b) && a != "" && a[|a| - 1] != '\r'
    ensures Lines(a + "\n" + b) == [a, b]
  {
    var s := a + "\n" + b;
    forall k | 0 <= k < |a| ensures s[k] != '\n' { assert s[k] == a[k]; }
    LineFeedIs(s, 0, |a|);
    assert s[..|a|] == a && s[|a| + 1..] == b && s[|a| - 1] == a[|a| - 1];
    OneLineIsItself(b);
  }

  lemma TrimAfterSpace(s: string)
    requires s != "" && !IsJsSpace(s[0])
    ensures TrimStart(" " + s) == s && (!IsJsSpace(s[|s| - 1]) ==> Trim(" " + s) == s)
  {
    var t := " " + s;
    assert t[1] == s[0] && JsSkip(t, 0) == JsSkip(t, 1) == 1;
    assert t[1..] == s;
  }

  // ----- any frame, line by line -----

  // Lines with a line feed, or a carriage return and a line feed, after each but the last.
  function Broken(ls: seq<string>, crs: seq<bool>): string
    requires |ls| == |crs| + 1
  {
    if |ls| == 1 then ls[0] else ls[0] + (if crs[0] then "\r\n" else "\n") + Broken(ls[1..], crs[1..])
  }

  predicate Clean(line: string) { OneLine(line) && (line != "" ==> line[|line| - 1] != '\r') }

  lemma FirstLine(line: string, cr: bool, rest: string)
    requires Clean(line)
    ensures Lines(line + (if cr then "\r\n" else "\n") + rest) == [line] + Lines(rest)
  {
    var s := line + (if cr then "\r\n" else "\n") + rest;
    var n := |line| + if cr then 1 else 0;
    forall k | 0 <= k < n ensures s[k] != '\n' { if k < |line| { assert s[k] == line[k]; } }
    LineFeedIs(s, 0, n);
    assert s[n + 1..] == rest && s[..|line|] == line;
    assert n > 0 && !cr ==> s[n - 1] == line[|line| - 1];
  }

  // Both kinds of line break part lines alike.
  lemma {:induction false} LinesOfBroken(ls: seq<string>, crs: seq<bool>)
    requires |ls| == |crs| + 1 && forall k :: 0 <= k < |ls| ==> Clean(ls[k])
    ensures Lines(Broken(ls, crs)) == ls
  {
    hide Lines, Clean;
    assert ls == [ls[0]] + ls[1..];
    if |ls| == 1 {
      CleanIsOneLine(ls[0]);
    } else {
      LinesOfBroken(ls[1..], crs[1..]);
      FirstLine(ls[0], crs[0], Broken(ls[1..], crs[1..]));
    }
  }

  lemma CleanIsOneLine(line: string)
    requires Clean(line)
    ensures Lines(line) == [line]
  {
    OneLineIsItself(line);
  }

  // The event is named by the first "event:" line, and is a "message" when there is none or it is blank.
  lemma EventOfFrame(ls: seq<string>, crs: seq<bool>, k: nat)
    requires |ls| == |crs| + 1 && forall j :: 0 <= j < |ls| ==> Clean(ls[j])
    requires k <= |ls| && (forall j :: 0 <= j < k ==> !StartsWith(ls[j], "event:"))
    requires k < |ls| ==> StartsWith(ls[k], "event:")
    ensures var name := if k < |ls| then Trim(ls[k][6..]) else "";
            ParseFrame(Broken(ls, crs)).event == if name == "" then "message" else name
    ensures ParseFrame(Broken(ls, crs)).data == JoinLines(DataFields(ls))
  {
    hide Trim, Lines, StartsWith, JoinLines, DataFields, Clean;
    LinesOfBroken(ls, crs);
    FirstFieldIs(ls, "event:", k);
    NothingTrimmed();
  }

  lemma NothingTrimmed()
    ensures Trim("") == ""
  {}

  lemma {:induction false} FirstFieldIs(ls: seq<string>, prefix: string, k: nat)
    requires k <= |ls| && (forall j :: 0 <= j < k ==> !StartsWith(ls[j], prefix))
    requires k < |ls| ==> StartsWith(ls[k], prefix)
    ensures FirstField(ls, prefix) == if k < |ls| then ls[k][|prefix|..] else ""
  {
    if k > 0 { FirstFieldIs(ls[1..], prefix, k - 1); }
  }

  // Each "data:" line gives its text, white space before it dropped; no other line gives any.
  lemma {:induction false} DataOfLine(front: seq<string>, line: string, rest: seq<string>)
    ensures DataFields(front + [line] + rest)
            == DataFields(front) + (if StartsWith(line, "data:") then [TrimStart(line[5..])] else []) + DataFields(rest)
  {
    hide TrimStart;
    var all := front + [line] + rest;
    if front == [] {
      assert all[1..] == rest;
    } else {
      assert all[0] == front[0] && all[1..] == front[1..] + [line] + rest;
      DataOfLine(front[1..], line, rest);
      var own := if StartsWith(front[0], DATA) then [TrimStart(front[0][|DATA|..])] else [];
      var mine := if StartsWith(line, DATA) then [TrimStart(line[|DATA|..])] else [];
      ConcatAssociative(own, DataFields(front[1..]), mine);
      ConcatAssociative(own, DataFields(front[1..]) + mine, DataFields(rest));
    }
  }

  // The data lines are joined so that they can be told apart again.
  lemma {:induction false} JoinedDataPartsAgain(parts: seq<string>)
    requires parts != [] && forall k :: 0 <= k < |parts| ==> Clean(parts[k])
    ensures Lines(JoinLines(parts)) == parts
  {
    hide Lines, Clean;
    assert parts == [parts[0]] + parts[1..];
    if |parts| == 1 {
      CleanIsOneLine(parts[0]);
    } else {
      JoinedDataPartsAgain(parts[1..]);
      FirstLine(parts[0], false, JoinLines(parts[1..]));
    }
  }

  // A sent event is read back as it was sent.
  lemma FrameRoundTrip(m: Message)
    requires Sendable(m)
    ensures ParseFrame(EventFrame(m)) == m
  {
    hide Trim, TrimStart, Lines, IsJsSpace;
    var a, b := "event: " + m.event, "data: " + m.data;
    assert a[|a| - 1] == m.event[|m.event| - 1] && !IsJsSpace(a[|a| - 1]);
    CarriageReturnIsSpace();
    LineOf("event: ", m.event);
    LineOf("data: ", m.data);
    TwoLines(a, b);
    assert EventFrame(m) == a + "\n" + b;
    TrimAfterSpace(m.event);
    TrimAfterSpace(m.data);
    TwoFields(m.event, m.data);
  }

  lemma CarriageReturnIsSpace()
    ensures IsJsSpace('\r')
  {}

  lemma LineOf(prefix: string, s: string)
    requires OneLine(prefix) && OneLine(s)
    ensures OneLine(prefix + s)
  {}

  lemma TwoFields(event: string, data: string)
    requires TrimStart(" " + data) == data
    ensures var lines := ["event: " + event, "data: " + data];
            FirstField(lines, EVENT) == " " + event && JoinLines(DataFields(lines)) == data
  {
    hide TrimStart;
    var a, b := "event: " + event, "data: " + data;
    assert a[..|EVENT|] == EVENT && a[|EVENT|..] == " " + event;
    assert b[..|DATA|] == DATA && b[|DATA|..] == " " + data;
    assert a[0] == 'e' && DATA[0] == 'd';
    var one: seq<string> := [b];
    assert [a, b][1..] == one && |one[1..]| == 0;
    assert DataFields([b]) == [data] by { assert DataFields([b]) == [TrimStart(" " + data)] + DataFields(one[1..]); }
    assert a[..|DATA|][0] == 'e' && !StartsWith(a, DATA);
    assert DataFields([a, b]) == [] + DataFields([b]);
  }

  lemma SentIsFrameable(m: Message)
    requires Sendable(m)
    ensures Frameable(EventFrame(m))
  {
    var f := EventFrame(m) + "\n";
    var k := |"event: " + m.event|;
    forall i | 0 <= i < |f| ensures !DelimiterAt(f, i) {
      if i + 1 < |f| && f[i] == '\n' {
        FeedsOfFrame(m, i);
      }
    }
  }

  // The only line feeds of a closed frame are the one between its lines and the last.
  lemma FeedsOfFrame(m: Message, i: nat)
    requires Sendable(m) && i < |EventFrame(m) + "\n"| && (EventFrame(m) + "\n")[i] == '\n'
    ensures i == 7 + |m.event| || i == |EventFrame(m)|
    ensures |EventFrame(m)| > 8 + |m.event| && (EventFrame(m) + "\n")[8 + |m.event|] == 'd'
  {
    var f := EventFrame(m) + "\n";
    var a, b := "event: " + m.event, "data: " + m.data;
    assert f == a + "\n" + b + "\n";
    LineOf("event: ", m.event);
    LineOf("data: ", m.data);
    forall k | 0 <= k < |a| ensures f[k] != '\n' { assert f[k] == a[k]; }
    forall k | |a| < k < |f| - 1 ensures f[k] != '\n' { assert f[k] == b[k - |a| - 1]; }
    assert b[0] == 'd' && f[|a| + 1] == b[0];
  }

  // What the server sends: an event, or a comment -- the keep-alive is an empty one.
  datatype Sent = Event(message: Message) | Comment(text: string)

  predicate SendableItem(item: Sent) {
    match item
    case Event(m) => Sendable(m)
    case Comment(text) => OneLine(text)
  }

  predicate AllSendable(items: seq<Sent>) { forall k :: 0 <= k < |items| ==> SendableItem(items[k]) }

  function FrameOf(item: Sent): string {
    match item
    case Event(m) => EventFrame(m)
    case Comment(text) => ":" + text
  }

  function SentFrames(items: seq<Sent>): (r: seq<string>)
    ensures |r| == |items|
  {
    if items == [] then [] else [FrameOf(items[0])] + SentFrames(items[1..])
  }

  // The data of the hit events among them.
  function HitData(items: seq<Sent>): seq<string> {
    if items == [] then []
    else
      var first := items[0];
      (if first.Event? && first.message.event == "hit" then [first.message.data] else []) + HitData(items[1..])
  }

  // A comment can be framed, and says nothing.
  lemma CommentIsSilent(text: string)
    requires OneLine(text)
    ensures Frameable(":" + text) && ParseFrame(":" + text) == Message("message", "")
  {
    var frame := ":" + text;
    LineOf(":", text);
    OneLineIsItself(frame);
    var f := frame + "\n";
    forall i | 0 <= i < |frame| ensures f[i] != '\n' { assert f[i] == frame[i]; }
    assert frame[0] == ':' && !StartsWith(frame, EVENT) && !StartsWith(frame, DATA) by {
      assert EVENT[0] == 'e' && DATA[0] == 'd';
      assert |frame| >= |EVENT| ==> frame[..|EVENT|][0] == ':';
      assert |frame| >= |DATA| ==> frame[..|DATA|][0] == ':';
    }
    var none: seq<string> := [frame][1..];
    assert FirstField([frame], EVENT) == FirstField(none, EVENT) == "" && DataFields([frame]) == [] + DataFields(none);
  }

  lemma ItemIsHandled(item: Sent)
    requires SendableItem(item)
    ensures Frameable(FrameOf(item))
    ensures ParseFrame(FrameOf(item)) == if item.Event? then item.message else Message("message", "")
    ensures item.Event? ==> item.message.data != ""
  {
    hide Frameable, ParseFrame, EventFrame;
    match item
    case Event(m) => FrameRoundTrip(m); SentIsFrameable(m);
    case Comment(text) => CommentIsSilent(text);
  }

  lemma {:induction false} SentFramesParse(items: seq<Sent>)
    requires AllSendable(items)
    ensures forall k :: 0 <= k < |items| ==> Frameable(SentFrames(items)[k])
    ensures HitsOf(SentFrames(items)) == HitData(items)
  {
    hide Frameable, ParseFrame, FrameOf, SendableItem;
    if items != [] {
      ItemIsHandled(items[0]);
      SentFramesParse(items[1..]);
      assert SentFrames(items)[1..] == SentFrames(items[1..]);
    }
  }

  // ----- the page: its stream reader and the list of hits it shows -----

  function Max0(limit: int): nat { if limit > 0 then limit else 0 }

  // The list after these frames, all under one limit.
  function ShownUnder(before: seq<string>, frames: seq<string>, limit: int): seq<string> {
    if HitsOf(frames) == [] then before else LastN(before + HitsOf(frames), Max0(limit))
  }

  // What one chunk brought: the frames it completed, and the limit the page had.
  datatype Delivery = Delivery(frames: seq<string>, limit: int)

  // A chunk from the network, a list loaded over the present one, or the "clear" button.
  datatype PageEvent = Chunk(text: string, limit: int) | Loaded(hits: seq<string>) | Cleared

  function TextOf(events: seq<PageEvent>): string {
    if events == [] then ""
    else
      var last := events[|events| - 1];
      TextOf(events[..|events| - 1]) + (if last.Chunk? then last.text else "")
  }

  // The list the page last started from.
  function Base(before: seq<string>, events: seq<PageEvent>): seq<string> {
    if events == [] then before
    else
      match events[|events| - 1]
      case Chunk(_, _) => Base(before, events[..|events| - 1])
      case Loaded(hits) => hits
      case Cleared => []
  }

  // What the stream has delivered since then.
  function Since(events: seq<PageEvent>): seq<Delivery> {
    if events == [] then []
    else
      var front, last := events[..|events| - 1], events[|events| - 1];
      if last.Chunk? then
        Since(front) + [Delivery(SplitAll(SplitAll(TextOf(front)).rest + last.text).frames, last.limit)]
      else []
  }

  function HitsIn(ds: seq<Delivery>): seq<string> {
    if ds == [] then [] else HitsIn(ds[..|ds| - 1]) + HitsOf(ds[|ds| - 1].frames)
  }

  // How many hits these deliveries leave on a page that starts with `n`.
  function Room(n: nat, ds: seq<Delivery>): nat {
    if ds == [] then n
    else
      var before, new_ := Room(n, ds[..|ds| - 1]), HitsOf(ds[|ds| - 1].frames);
      if new_ == [] then before else Min(before + |new_|, Max0(ds[|ds| - 1].limit))
  }

  function ShownAfter(base: seq<string>, ds: seq<Delivery>): seq<string> {
    LastN(base + HitsIn(ds), Room(|base|, ds))
  }

  class Page {
    var hits: seq<string>
    var buffer: string
    ghost var handled: seq<string>   // the frames given to `handleSseFrame` since the stream opened

    constructor ()
      ensures hits == [] && buffer == "" && handled == []
    {
      hits, buffer, handled := [], "", [];
    }

    // `appendHit`: `splice` removes what is there when asked for more.
    method AppendHit(hit: string, limit: int)
      modifies this`hits
      ensures hits == LastN(old(hits) + [hit], Max0(limit))
    {
      hits := hits + [hit];
      if |hits| > limit {
        var surplus := |hits| - limit;
        hits := hits[Min(surplus, |hits|)..];
      }
    }

    method HandleSseFrame(frame: string, limit: int)
      modifies this`hits, this`handled
      ensures hits == ShownUnder(old(hits), [frame], limit)
      ensures handled == old(handled) + [frame]
    {
      hide HitsOf, LastN, Max0, ParseFrame;
      var m := ParseFrame(frame);
      HitsOfOne(frame);
      if m.event == "hit" && m.data != "" {
        AppendHit(m.data, limit);
      }
      handled := handled + [frame];
    }

    // One turn of the read loop. The limit cannot change inside it.
    method Receive(chunk: string, limit: int)
      modifies this
      ensures var split := SplitAll(old(buffer) + chunk);
              && handled == old(handled) + split.frames && buffer == split.rest
              && hits == ShownUnder(old(hits), split.frames, limit)
    {
      hide ShownUnder, HitsOf;
      buffer := buffer + chunk;
      ghost var whole, done := buffer, [];
      NoFramesShown(hits, limit);
      while true
        invariant SplitAll(whole).frames == done + SplitAll(buffer).frames
        invariant SplitAll(whole).rest == SplitAll(buffer).rest
        invariant handled == old(handled) + done
        invariant hits == ShownUnder(old(hits), done, limit)
        decreases |buffer|
      {
        var idx := IndexOfDelimiter(buffer, 0);
        if idx == |buffer| {
          assert done + [] == done;
          return;
        }
        var frame := buffer[..idx];
        ConcatAssociative(done, [frame], SplitAll(buffer[idx + 2..]).frames);
        ConcatAssociative(old(handled), done, [frame]);
        buffer := buffer[idx + 2..];
        UnderExtended(old(hits), done, frame, limit);
        HandleSseFrame(frame, limit);
        done := done + [frame];
      }
    }

    // `loadHits`, and the "clear" button, replace the list.
    method Replace(answer: seq<string>)
      modifies this`hits
      ensures hits == answer
    {
      hits := answer;
    }

    // A stream from its opening on, with whatever else happens to the page meanwhile.
    method Follow(events: seq<PageEvent>)
      modifies this
      ensures handled == SplitAll(TextOf(events)).frames && buffer == SplitAll(TextOf(events)).rest
      ensures hits == ShownAfter(Base(old(hits), events), Since(events))
      ensures forall frames :: SentAs(frames, TextOf(events)) ==> handled == frames && buffer == ""
    {
      hide ShownUnder, ShownAfter, SplitAll, SentAs;
      buffer, handled := "", [];
      NothingDelivered(hits);
      for i := 0 to |events|
        invariant handled == SplitAll(TextOf(events[..i])).frames && buffer == SplitAll(TextOf(events[..i])).rest
        invariant hits == ShownAfter(Base(old(hits), events[..i]), Since(events[..i]))
      {
        assert events[..i + 1][..i] == events[..i];
        match events[i] {
          case Chunk(text, limit) =>
            SplitResumes(TextOf(events[..i]), text);
            ghost var delivery := Delivery(SplitAll(buffer + text).frames, limit);
            AfterExtended(Base(old(hits), events[..i]), Since(events[..i]), delivery);
            Receive(text, limit);
          case Loaded(answer) =>
            Replace(answer);
            NothingDelivered(answer);
            assert TextOf(events[..i]) + "" == TextOf(events[..i]);
          case Cleared =>
            Replace([]);
            NothingDelivered([]);
            assert TextOf(events[..i]) + "" == TextOf(events[..i]);
        }
      }
      assert events[..|events|] == events;
      forall frames | SentAs(frames, TextOf(events)) ensures handled == frames && buffer == "" {
        SentFramesSplit(frames, TextOf(events));
      }
    }
  }

  lemma NoFramesShown(before: seq<string>, limit: int)
    ensures ShownUnder(before, [], limit) == before
  {}

  lemma NothingDelivered(base: seq<string>)
    ensures ShownAfter(base, []) == base && TextOf([]) == "" && SplitAll("") == Split([], "")
  {
    assert base + [] == base;
  }

  lemma {:induction false} HitsOfConcat(a: seq<string>, b: seq<string>)
    ensures HitsOf(a + b) == HitsOf(a) + HitsOf(b)
  {
    hide ParseFrame;
    if a == [] {
      assert a + b == b;
    } else {
      assert (a + b)[1..] == a[1..] + b;
      HitsOfConcat(a[1..], b);
    }
  }

  lemma LastNExtended<T>(all: seq<T>, n: nat, more: seq<T>, limit: nat)
    requires n <= |all|
    ensures LastN(LastN(all, n) + more, limit) == LastN(all + more, Min(n + |more|, limit))
  {}

  lemma LastNAgain<T>(all: seq<T>, n: nat, x: T)
    ensures LastN(LastN(all, n) + [x], n) == LastN(all + [x], n)
  {}

  lemma HitsOfOne(frame: string)
    ensures var m := ParseFrame(frame);
            HitsOf([frame]) == if m.event == "hit" && m.data != "" then [m.data] else []
  {
    hide ParseFrame;
    var none: seq<string> := [frame][1..];
    assert none == [] && HitsOf(none) == [];
  }

  lemma UnderExtended(before: seq<string>, frames: seq<string>, frame: string, limit: int)
    ensures ShownUnder(ShownUnder(before, frames, limit), [frame], limit) == ShownUnder(before, frames + [frame], limit)
  {
    hide HitsOf, LastN, Max0;
    HitsOfConcat(frames, [frame]);
    HitsOfOne(frame);
    var old_, new_ := HitsOf(frames), HitsOf([frame]);
    if new_ == [] {
      assert old_ + [] == old_;
    } else {
      assert new_ == [new_[0]];
      ConcatAssociative(before, old_, new_);
      LastNAgain(before + old_, Max0(limit), new_[0]);
      assert old_ == [] ==> old_ + new_ == new_;
    }
  }

  lemma {:induction false} RoomIsHits(n: nat, ds: seq<Delivery>)
    ensures Room(n, ds) <= n + |HitsIn(ds)|
  {
    hide HitsOf;
    if ds != [] { RoomIsHits(n, ds[..|ds| - 1]); }
  }

  lemma AfterExtended(base: seq<string>, ds: seq<Delivery>, d: Delivery)
    ensures ShownUnder(ShownAfter(base, ds), d.frames, d.limit) == ShownAfter(base, ds + [d])
  {
    hide HitsOf, LastN, Max0;
    assert (ds + [d])[..|ds|] == ds;
    RoomIsHits(|base|, ds);
    ConcatAssociative(base, HitsIn(ds), HitsOf(d.frames));
    if HitsOf(d.frames) == [] {
      assert HitsIn(ds) + [] == HitsIn(ds);
    } else {
      LastNExtended(base + HitsIn(ds), Room(|base|, ds), HitsOf(d.frames), Max0(d.limit));
    }
  }

  // ----- what the page shows -----

  predicate Steady(ds: seq<Delivery>, limit: nat) { forall k :: 0 <= k < |ds| ==> ds[k].limit == limit }

  lemma LastNToMin<T>(all: seq<T>, n: nat, limit: nat)
    requires n == Min(|all|, limit)
    ensures LastN(all, n) == LastN(all, limit)
  {}

  // Under a limit that stays, a list that fits it becomes the last `limit` hits of list and stream.
  lemma SteadyLimit(base: seq<string>, ds: seq<Delivery>, limit: nat)
    requires Steady(ds, limit) && |base| <= limit
    ensures ShownAfter(base, ds) == LastN(base + HitsIn(ds), limit)
  {
    hide HitsOf, LastN, HitsIn, Room;
    SteadyRoom(|base|, ds, limit);
    LastNToMin(base + HitsIn(ds), Room(|base|, ds), limit);
  }

  lemma {:induction false} SteadyRoom(n: nat, ds: seq<Delivery>, limit: nat)
    requires Steady(ds, limit) && n <= limit
    ensures Room(n, ds) == Min(n + |HitsIn(ds)|, limit)
  {
    hide HitsOf;
    if ds != [] { SteadyRoom(n, ds[..|ds| - 1], limit); }
  }

  // A list loaded from the server's recent hits and then followed is the last `limit` of all hits: the
  // server's and the stream's.
  lemma LoadedThenFollowed(all: seq<string>, ds: seq<Delivery>, limit: nat)
    requires Steady(ds, limit)
    ensures ShownAfter(LastN(all, limit), ds) == LastN(all + HitsIn(ds), limit)
  {
    hide ShownAfter;
    SteadyLimit(LastN(all, limit), ds, limit);
    LastNOfTail(all, limit, HitsIn(ds));
  }

  lemma LastNOfTail<T>(all: seq<T>, n: nat, more: seq<T>)
    ensures LastN(LastN(all, n) + more, n) == LastN(all + more, n)
  {}

  predicate OnlyChunks(events: seq<PageEvent>, limit: nat) {
    forall k :: 0 <= k < |events| ==> events[k].Chunk? && events[k].limit == limit
  }

  // With nothing but the stream, the deliveries together hold the hits of the whole text.
  lemma {:induction false} ChunksDeliverAll(before: seq<string>, events: seq<PageEvent>, limit: nat)
    requires OnlyChunks(events, limit)
    ensures Base(before, events) == before && Steady(Since(events), limit)
    ensures HitsIn(Since(events)) == HitsOf(SplitAll(TextOf(events)).frames)
  {
    hide HitsOf, SplitAll;
    if events == [] {
      NothingDelivered(before);
      NoHits();
    } else {
      var front, text := events[..|events| - 1], events[|events| - 1].text;
      ChunksDeliverAll(before, front, limit);
      SplitResumes(TextOf(front), text);
      HitsOfConcat(SplitAll(TextOf(front)).frames, SplitAll(SplitAll(TextOf(front)).rest + text).frames);
    }
  }

  lemma NoHits()
    ensures HitsOf([]) == [] && HitsIn([]) == []
  {}

  // End to end: from events and comments the page takes the data of exactly the hit events, in order, and
  // nothing is left over.
  lemma HitsArrive(items: seq<Sent>, text: string)
    requires AllSendable(items) && text == Closed(SentFrames(items))
    ensures HitsOf(SplitAll(text).frames) == HitData(items) && SplitAll(text).rest == ""
  {
    hide Frameable, AllSendable, SplitAll, Closed, HitsOf, SentFrames, HitData;
    SentFramesParse(items);
    SentFramesSplit(SentFrames(items), text);
  }

  // So a page that starts with any list within its limit shows the last `limit` of that list and the hits
  // sent, whatever the network did to the stream.
  lemma PageShowsLatest(before: seq<string>, events: seq<PageEvent>, items: seq<Sent>, limit: nat)
    requires OnlyChunks(events, limit) && |before| <= limit
    requires AllSendable(items) && TextOf(events) == Closed(SentFrames(items))
    ensures ShownAfter(Base(before, events), Since(events)) == LastN(before + HitData(items), limit)
  {
    hide AllSendable, SplitAll, Closed, HitsOf, HitsIn, SentFrames, HitData, ShownAfter, LastN, OnlyChunks, Steady;
    HitsArrive(items, TextOf(events));
    ChunksDeliverAll(before, events, limit);
    SteadyLimit(before, Since(events), limit);
  }
}
