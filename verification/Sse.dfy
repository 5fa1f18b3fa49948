// The event-stream splitter of pwatch-ui/app.js: text arrives in chunks, frames end at a blank line.
module Sse {
  import opened Prelude

  predicate DelimiterAt(s: string, i: nat) { i + 2 <= |s| && s[i] == '\n' && s[i + 1] == '\n' }

  predicate NoDelimiter(s: string) { forall i :: 0 <= i < |s| ==> !DelimiterAt(s, i) }

  // `indexOf("\n\n")`, from `i` on; the length when there is none.
  function IndexOfDelimiter(s: string, i: nat): (n: nat)
    requires i <= |s|
    ensures i <= n <= |s| && (n < |s| ==> DelimiterAt(s, n))
    ensures forall k :: i <= k < n ==> !DelimiterAt(s, k)
    decreases |s| - i
  {
    if i == |s| || DelimiterAt(s, i) then i else IndexOfDelimiter(s, i + 1)
  }

  // The whole text split leftmost-first, and what is left over.
  datatype Split = Split(frames: seq<string>, rest: string)

  function SplitAll(s: string): Split
    decreases |s|
  {
    var n := IndexOfDelimiter(s, 0);
    if n == |s| then Split([], s)
    else
      var more := SplitAll(s[n + 2..]);
      Split([s[..n]] + more.frames, more.rest)
  }

  function Joined(chunks: seq<string>): string {
    if chunks == [] then "" else Joined(chunks[..|chunks| - 1]) + chunks[|chunks| - 1]
  }

  lemma {:induction false} IndexIs(s: string, i: nat, n: nat)
    requires i <= n < |s| && DelimiterAt(s, n) && forall k :: i <= k < n ==> !DelimiterAt(s, k)
    ensures IndexOfDelimiter(s, i) == n
    decreases n - i
  {
    if i < n { IndexIs(s, i + 1, n); }
  }

  lemma {:induction false} NoIndex(s: string, i: nat)
    requires i <= |s| && forall k :: i <= k < |s| ==> !DelimiterAt(s, k)
    ensures IndexOfDelimiter(s, i) == |s|
    decreases |s| - i
  {
    if i < |s| { NoIndex(s, i + 1); }
  }

  // Splitting what came so far and then the leftover with the next chunk is splitting it all at once.
  lemma {:induction false} SplitResumes(s: string, chunk: string)
    ensures SplitAll(s + chunk).frames == SplitAll(s).frames + SplitAll(SplitAll(s).rest + chunk).frames
    ensures SplitAll(s + chunk).rest == SplitAll(SplitAll(s).rest + chunk).rest
    decreases |s|
  {
    var n := IndexOfDelimiter(s, 0);
    if n == |s| {
      assert [] + SplitAll(s + chunk).frames == SplitAll(s + chunk).frames;
    } else {
      forall k | 0 <= k < n ensures !DelimiterAt(s + chunk, k) { assert !DelimiterAt(s, k); }
      IndexIs(s + chunk, 0, n);
      assert (s + chunk)[n + 2..] == s[n + 2..] + chunk && (s + chunk)[..n] == s[..n];
      SplitResumes(s[n + 2..], chunk);
      ConcatAssociative([s[..n]], SplitAll(s[n + 2..]).frames,
                        SplitAll(SplitAll(s[n + 2..]).rest + chunk).frames);
    }
  }

  // The text is its frames, each closed by a blank line, then the leftover; neither the frames nor the
  // leftover hold a delimiter.
  function Closed(frames: seq<string>): string {
    if frames == [] then "" else frames[0] + "\n\n" + Closed(frames[1..])
  }

  lemma CutAndJoined(s: string, n: nat, tail: string, rest: string)
    requires DelimiterAt(s, n) && tail + rest == s[n + 2..]
    ensures s[..n] + "\n\n" + tail + rest == s
  {
    ConcatAssociative(s[..n] + "\n\n", tail, rest);
    assert s[n..n + 2] == "\n\n";
    assert s == s[..n] + s[n..n + 2] + s[n + 2..];
  }

  lemma PrefixHasNone(s: string, n: nat)
    requires n <= |s| && forall k :: 0 <= k < n ==> !DelimiterAt(s, k)
    ensures NoDelimiter(s[..n])
  {
    forall i | 0 <= i < n ensures !DelimiterAt(s[..n], i) { assert !DelimiterAt(s, i); }
  }

  lemma {:induction false} SplitConserves(s: string)
    ensures Closed(SplitAll(s).frames) + SplitAll(s).rest == s
    decreases |s|
  {
    var n := IndexOfDelimiter(s, 0);
    if n < |s| {
      var more := SplitAll(s[n + 2..]);
      SplitConserves(s[n + 2..]);
      CutAndJoined(s, n, Closed(more.frames), more.rest);
      assert SplitAll(s).frames[1..] == more.frames;
      hide SplitAll;
    } else {
      assert "" + s == s;
    }
  }

  lemma {:induction false} NoDelimiterLeft(s: string)
    ensures NoDelimiter(SplitAll(s).rest)
    ensures forall k :: 0 <= k < |SplitAll(s).frames| ==> NoDelimiter(SplitAll(s).frames[k])
    decreases |s|
  {
    hide NoDelimiter;
    var n := IndexOfDelimiter(s, 0);
    PrefixHasNone(s, n);
    if n < |s| {
      NoDelimiterLeft(s[n + 2..]);
    } else {
      assert s[..n] == s;
    }
  }

  // A frame survives the trip: closed and sent, in any chunks, it is handled as it was -- exactly when
  // it has no blank line inside and does not end in a line break.
  predicate Frameable(frame: string) { NoDelimiter(frame + "\n") }

  lemma FirstFrameIff(frame: string, rest: string)
    ensures SplitAll(frame + "\n\n" + rest) == Split([frame] + SplitAll(rest).frames, SplitAll(rest).rest)
            <==> Frameable(frame)
  {
    var s, n := frame + "\n\n" + rest, |frame|;
    var idx := IndexOfDelimiter(s, 0);
    assert DelimiterAt(s, n);
    if Frameable(frame) {
      forall k | 0 <= k < n ensures !DelimiterAt(s, k) {
        assert s[k] == (frame + "\n")[k] && s[k + 1] == (frame + "\n")[k + 1];
        assert !DelimiterAt(frame + "\n", k);
      }
      IndexIs(s, 0, n);
      assert s[..n] == frame && s[n + 2..] == rest;
    } else {
      var k :| 0 <= k < |frame + "\n"| && DelimiterAt(frame + "\n", k);
      assert s[k] == (frame + "\n")[k] && s[k + 1] == (frame + "\n")[k + 1];
      assert DelimiterAt(s, k) && idx <= k < n;
      assert SplitAll(s).frames[0] == s[..idx];
    }
  }

  // A frame that ends in a line break hands that break on to the next one.
  lemma TrailingBreakMoves()
    ensures !Frameable("a\n") && SplitAll("a\n" + "\n\n" + "b\n\n") == Split(["a", "\nb"], "")
  {
    assert DelimiterAt("a\n" + "\n", 1);
    var s, t := "a\n" + "\n\n" + "b\n\n", "\nb\n\n";
    IndexIs(s, 0, 1);
    IndexIs(t, 0, 2);
    assert s[..1] == "a" && s[3..] == t && t[..2] == "\nb" && t[4..] == "";
    assert IndexOfDelimiter("", 0) == 0;
  }

  lemma {:induction false} FramesRoundTrip(frames: seq<string>)
    requires forall k :: 0 <= k < |frames| ==> Frameable(frames[k])
    ensures SplitAll(Closed(frames)) == Split(frames, "")
  {
    hide Frameable;
    if frames != [] {
      FramesRoundTrip(frames[1..]);
      FirstFrameIff(frames[0], Closed(frames[1..]));
      assert frames == [frames[0]] + frames[1..];
    }
  }

  // `frames` is what was sent as `text`, each closed by a blank line.
  predicate SentAs(frames: seq<string>, text: string) {
    Closed(frames) == text && forall k :: 0 <= k < |frames| ==> Frameable(frames[k])
  }

  // The text of a chunked stream splits into the frames that were sent, with nothing left over.
  lemma SentFramesSplit(frames: seq<string>, text: string)
    requires SentAs(frames, text)
    ensures SplitAll(text) == Split(frames, "")
  {
    hide Frameable, SplitAll, Closed;
    FramesRoundTrip(frames);
  }
}
