// Bytes of the perf ring: little-endian words, and the logical window of a circular buffer.
module RingBytes {
  import opened Prelude
  import opened Text

  function ToLE(n: nat, k: nat): (r: seq<byte>)
    ensures |r| == k
  {
    if k == 0 then [] else [n % 256] + ToLE(n / 256, k - 1)
  }

  function FromLE(bs: seq<byte>): (n: nat)
    ensures n < Pow(256, |bs|)
  {
    if bs == [] then 0 else bs[0] + 256 * FromLE(bs[1..])
  }

  lemma {:induction false} LERoundTrip(n: nat, k: nat)
    requires n < Pow(256, k)
    ensures FromLE(ToLE(n, k)) == n
  {
    if k > 0 {
      LERoundTrip(n / 256, k - 1);
      assert ToLE(n, k)[1..] == ToLE(n / 256, k - 1);
    }
  }

  lemma Pow256Widths()
    ensures Pow(256, 2) == 0x1_0000
    ensures Pow(256, 4) == 0x1_0000_0000
    ensures Pow(256, 8) == U64_LIMIT
  {
    assert Pow(256, 2) == 0x1_0000;
    assert Pow(256, 4) == 0x1_0000_0000;
    assert Pow(256, 6) == 0x1_0000_0000_0000;
  }

  function U16At(bs: seq<byte>, i: nat): u16
    requires i + 2 <= |bs|
  {
    Pow256Widths(); FromLE(bs[i..i + 2])
  }

  function U32At(bs: seq<byte>, i: nat): u32
    requires i + 4 <= |bs|
  {
    Pow256Widths(); FromLE(bs[i..i + 4])
  }

  function U64At(bs: seq<byte>, i: nat): u64
    requires i + 8 <= |bs|
  {
    Pow256Widths(); FromLE(bs[i..i + 8])
  }

  // `n` consecutive 64-bit words from offset `i`.
  function U64sAt(bs: seq<byte>, i: nat, n: nat): (r: seq<u64>)
    requires i + 8 * n <= |bs|
    ensures |r| == n
  {
    if n == 0 then [] else U64sAt(bs, i, n - 1) + [U64At(bs, i + 8 * (n - 1))]
  }

  function WordBytes(ws: seq<u64>): (r: seq<byte>)
    ensures |r| == 8 * |ws|
  {
    if ws == [] then [] else WordBytes(ws[..|ws| - 1]) + ToLE(ws[|ws| - 1], 8)
  }

  lemma WordRoundTrip(bs: seq<byte>, i: nat, w: u64)
    requires i + 8 <= |bs| && bs[i..i + 8] == ToLE(w, 8)
    ensures U64At(bs, i) == w
  {
    Pow256Widths();
    LERoundTrip(w, 8);
  }

  lemma SliceSplit(bs: seq<byte>, i: nat, a: seq<byte>, b: seq<byte>)
    requires i + |a| + |b| <= |bs| && bs[i..i + |a| + |b|] == a + b
    ensures bs[i..i + |a|] == a && bs[i + |a|..i + |a| + |b|] == b
  {
    var whole := bs[i..i + |a| + |b|];
    assert bs[i..i + |a|] == whole[..|a|] && bs[i + |a|..i + |a| + |b|] == whole[|a|..];
  }

  lemma NoWords(bs: seq<byte>, i: nat)
    requires i <= |bs|
    ensures U64sAt(bs, i, 0) == []
  {}

  lemma WordsPush(bs: seq<byte>, i: nat, n: nat)
    requires i + 8 * n + 8 <= |bs|
    ensures U64sAt(bs, i, n + 1) == U64sAt(bs, i, n) + [U64At(bs, i + 8 * n)]
  {}

  lemma WordBytesPush(ws: seq<u64>, w: u64)
    ensures WordBytes(ws + [w]) == WordBytes(ws) + ToLE(w, 8)
  {
    assert (ws + [w])[..|ws|] == ws;
  }

  lemma {:induction false} WordsRoundTrip(bs: seq<byte>, i: nat, ws: seq<u64>)
    requires i + 8 * |ws| <= |bs| && bs[i..i + 8 * |ws|] == WordBytes(ws)
    ensures U64sAt(bs, i, |ws|) == ws
  {
    hide WordBytes, ToLE, FromLE, U64At, U64sAt;
    if ws == [] {
      NoWords(bs, i);
    } else {
      var front, w := ws[..|ws| - 1], ws[|ws| - 1];
      assert ws == front + [w];
      WordBytesPush(front, w);
      SliceSplit(bs, i, WordBytes(front), ToLE(w, 8));
      WordsRoundTrip(bs, i, front);
      WordRoundTrip(bs, i + 8 * |front|, w);
      WordsPush(bs, i, |front|);
    }
  }

  // A word followed by more words, found at offset `i`.
  lemma WordThenWords(bs: seq<byte>, i: nat, w: u64, ws: seq<u64>)
    requires i + 8 + 8 * |ws| <= |bs|
    requires bs[i..i + 8 + 8 * |ws|] == ToLE(w, 8) + WordBytes(ws)
    ensures U64At(bs, i) == w
    ensures U64sAt(bs, i + 8, |ws|) == ws
  {
    hide ToLE, WordBytes, FromLE, U64sAt;
    var part := bs[i..i + 8 + 8 * |ws|];
    assert bs[i..i + 8] == part[..8] == ToLE(w, 8);
    assert bs[i + 8..i + 8 + 8 * |ws|] == part[8..] == WordBytes(ws);
    WordRoundTrip(bs, i, w);
    WordsRoundTrip(bs, i + 8, ws);
  }

  // Words are read from their own bytes only.
  lemma {:induction false} WordsOfPrefix(bs: seq<byte>, k: nat, i: nat, n: nat)
    requires i + 8 * n <= k <= |bs|
    ensures U64sAt(bs[..k], i, n) == U64sAt(bs, i, n)
  {
    if n > 0 {
      WordsOfPrefix(bs, k, i, n - 1);
      var j := i + 8 * (n - 1);
      assert bs[..k][j..j + 8] == bs[j..j + 8];
    }
  }

  // ----- the circular buffer -----

  // `x % size`, by subtraction: keeps products out of the proofs about windows.
  function Slot(x: nat, size: nat): (r: nat)
    requires size > 0
    ensures r < size
  {
    if x < size then x else Slot(x - size, size)
  }

  lemma {:induction false} SlotIsMod(x: nat, size: nat)
    requires size > 0
    ensures Slot(x, size) == x % size
  {
    if x >= size {
      SlotIsMod(x - size, size);
      ModLessLap(x, size);
    }
  }

  lemma ModLessLap(x: nat, size: nat)
    requires 0 < size <= x
    ensures (x - size) % size == x % size
  {
    var q, r := (x - size) / size, (x - size) % size;
    assert x == size * (q + 1) + r;
    QuotientUnique(x, size, q + 1, r);
  }

  lemma QuotientUnique(x: nat, size: nat, q: nat, r: nat)
    requires r < size && x == size * q + r
    ensures x % size == r
  {
    var p := x / size;
    assert size * (p - q) == r - x % size;
    assert p - q >= 1 ==> size * (p - q) >= size;
    assert p - q <= -1 ==> size * (p - q) + size <= 0;
  }

  // Offsets less than one lap apart live in different slots.
  lemma {:induction false} SlotsApart(a: nat, b: nat, size: nat)
    requires size > 0 && a < b < a + size
    ensures Slot(a, size) != Slot(b, size)
    decreases b
  {
    if a >= size {
      SlotsApart(a - size, b - size, size);
    } else if b >= size {
      assert Slot(b - size, size) == b - size;
    }
  }

  // Logical offsets `base .. base + n` of the ring; offset `x` lives at index `x % |data|`.
  function Window(data: seq<byte>, base: nat, n: nat): (r: seq<byte>)
    requires |data| > 0
    ensures |r| == n
  {
    if n == 0 then [] else Window(data, base, n - 1) + [data[Slot(base + n - 1, |data|)]]
  }

  lemma {:induction false} WindowSplit(data: seq<byte>, base: nat, n: nat, m: nat)
    requires |data| > 0
    ensures Window(data, base, n + m) == Window(data, base, n) + Window(data, base + n, m)
  {
    if m > 0 {
      WindowSplit(data, base, n, m - 1);
      var last := [data[Slot(base + n + m - 1, |data|)]];
      ConcatAssociative(Window(data, base, n), Window(data, base + n, m - 1), last);
    }
  }

  // The first bytes of a window are a window.
  lemma WindowPrefix(data: seq<byte>, base: nat, n: nat, k: nat)
    requires |data| > 0 && k <= n
    ensures Window(data, base, n)[..k] == Window(data, base, k)
  {
    WindowSplit(data, base, k, n - k);
  }

  // A write beyond the window, less than one lap ahead of its start, leaves the window alone.
  lemma {:induction false} WriteBeyondWindow(data: seq<byte>, base: nat, n: nat, at: nat, b: byte)
    requires |data| > 0 && base + n <= at < base + |data|
    ensures Window(data[Slot(at, |data|) := b], base, n) == Window(data, base, n)
  {
    if n > 0 {
      WriteBeyondWindow(data, base, n - 1, at, b);
      SlotsApart(base + n - 1, at, |data|);
    }
  }
}
