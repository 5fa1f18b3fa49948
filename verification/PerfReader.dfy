// The reading code of src/perf.rs, `RingReader` and `read_sample`, proved against the record layout.
module PerfReader {
  import opened Prelude
  import opened RingBytes
  import opened PerfRecord

  lemma WindowSlice(data: seq<byte>, base: nat, n: nat, i: nat, k: nat)
    requires |data| > 0 && i + k <= n
    ensures Window(data, base, n)[i..i + k] == Window(data, base + i, k)
  {
    WindowSplit(data, base, i, n - i);
    WindowSplit(data, base + i, k, n - i - k);
    var w, a := Window(data, base, n), Window(data, base, i);
    var b, c := Window(data, base + i, k), Window(data, base + i + k, n - i - k);
    assert w == a + (b + c);
  }

  // What was read at offset `i` is still there when the reader has moved on from `k` to `n`.
  lemma StillThere(data: seq<byte>, base: nat, k: nat, n: nat, i: nat)
    requires |data| > 0 && k <= n
    ensures i + 2 <= k ==> U16At(Window(data, base, k), i) == U16At(Window(data, base, n), i)
    ensures i + 4 <= k ==> U32At(Window(data, base, k), i) == U32At(Window(data, base, n), i)
    ensures i + 8 <= k ==> U64At(Window(data, base, k), i) == U64At(Window(data, base, n), i)
  {
    WindowPrefix(data, base, n, k);
    PrefixWords(Window(data, base, n), k, i);
  }

  lemma WordsStillThere(data: seq<byte>, base: nat, k: nat, n: nat, i: nat, m: nat)
    requires |data| > 0 && i + 8 * m <= k <= n
    ensures U64sAt(Window(data, base, k), i, m) == U64sAt(Window(data, base, n), i, m)
  {
    WindowPrefix(data, base, n, k);
    WordsOfPrefix(Window(data, base, n), k, i, m);
  }

  class RingReader {
    const data: array<byte>
    const baseOffset: nat
    var offset: nat

    // Every byte fetched so far, in order.
    ghost function Seen(): (s: seq<byte>)
      requires data.Length > 0
      reads this, data
      ensures |s| == offset
    {
      Window(data[..], baseOffset, offset)
    }

    constructor (data: array<byte>, baseOffset: nat)
      ensures this.data == data && this.baseOffset == baseOffset && offset == 0
    {
      this.data, this.baseOffset, this.offset := data, baseOffset, 0;
    }

    method ReadArray(n: nat) returns (out: array<byte>)
      requires data.Length > 0
      modifies this`offset
      ensures fresh(out) && out.Length == n && offset == old(offset) + n
      ensures out[..] == Window(data[..], baseOffset + old(offset), n)
    {
      out := new byte[n];
      for i := 0 to n
        invariant offset == old(offset) + i
        invariant out[..i] == Window(data[..], baseOffset + old(offset), i)
      {
        var ringOffset := (baseOffset + offset) % data.Length;
        SlotIsMod(baseOffset + offset, data.Length);
        out[i] := data[ringOffset];
        offset := offset + 1;
      }
      assert out[..n] == out[..];
    }

    method ReadU64() returns (v: u64)
      requires data.Length > 0
      modifies this`offset
      ensures offset == old(offset) + 8
      ensures v == U64At(Seen(), old(offset)) && old(Seen()) == Seen()[..old(offset)]
    {
      var bytes := ReadArray(8);
      WindowSlice(data[..], baseOffset, offset, old(offset), 8);
      WindowPrefix(data[..], baseOffset, offset, old(offset));
      Pow256Widths();
      v := FromLE(bytes[..]);
    }

    method ReadU32() returns (v: u32)
      requires data.Length > 0
      modifies this`offset
      ensures offset == old(offset) + 4
      ensures v == U32At(Seen(), old(offset)) && old(Seen()) == Seen()[..old(offset)]
    {
      var bytes := ReadArray(4);
      WindowSlice(data[..], baseOffset, offset, old(offset), 4);
      WindowPrefix(data[..], baseOffset, offset, old(offset));
      Pow256Widths();
      v := FromLE(bytes[..]);
    }

    method ReadU16() returns (v: u16)
      requires data.Length > 0
      modifies this`offset
      ensures offset == old(offset) + 2
      ensures v == U16At(Seen(), old(offset)) && old(Seen()) == Seen()[..old(offset)]
    {
      var bytes := ReadArray(2);
      WindowSlice(data[..], baseOffset, offset, old(offset), 2);
      WindowPrefix(data[..], baseOffset, offset, old(offset));
      Pow256Widths();
      v := FromLE(bytes[..]);
    }

    method ReadHeader() returns (kind: u32, misc: u16, size: u16)
      requires data.Length > 0 && offset == 0
      modifies this`offset
      ensures offset == HEADER_SIZE
      ensures kind == U32At(Seen(), 0) && misc == U16At(Seen(), 4) && size == U16At(Seen(), 6)
    {
      kind := ReadU32();
      misc := ReadU16();
      size := ReadU16();
      StillThere(data[..], baseOffset, 4, 8, 0);
      StillThere(data[..], baseOffset, 6, 8, 4);
    }

    // `(0..n).map(|_| reader.read_u64()).collect()`
    method ReadWords(n: nat) returns (words: seq<u64>)
      requires data.Length > 0
      modifies this`offset
      ensures offset == old(offset) + 8 * n
      ensures words == U64sAt(Seen(), old(offset), n) && old(Seen()) == Seen()[..old(offset)]
    {
      hide Window, U64At, U64sAt;
      words := [];
      ghost var start := offset;
      NoWords(Seen(), start);
      WindowPrefix(data[..], baseOffset, offset, offset);
      for i := 0 to n
        invariant offset == start + 8 * i
        invariant words == U64sAt(Seen(), start, i)
      {
        ghost var k := offset;
        var word := ReadU64();
        WordsOfPrefix(Seen(), k, start, i);
        WordsPush(Seen(), start, i);
        words := words + [word];
      }
      WindowPrefix(data[..], baseOffset, offset, start);
    }

    // `vec![0; regs_count]` filled in place.
    method ReadRegs(n: nat) returns (regs: array<u64>)
      requires data.Length > 0
      modifies this`offset
      ensures fresh(regs) && regs.Length == n && offset == old(offset) + 8 * n
      ensures regs[..] == U64sAt(Seen(), old(offset), n) && old(Seen()) == Seen()[..old(offset)]
    {
      hide Window, U64At, U64sAt;
      regs := new u64[n](_ => 0);
      ghost var start, d := offset, data[..];
      NoWords(Seen(), start);
      for i := 0 to n
        invariant offset == start + 8 * i && data[..] == d
        invariant regs[..i] == U64sAt(Seen(), start, i)
      {
        ghost var k := offset;
        var word := ReadU64();
        WordsOfPrefix(Seen(), k, start, i);
        WordsPush(Seen(), start, i);
        regs[i] := word;
        assert data[..] == d;
      }
      assert regs[..n] == regs[..];
      WindowPrefix(data[..], baseOffset, offset, start);
    }
  }

  method ReadTid(cfg: Config, reader: RingReader) returns (pid: u32, tid: u32)
    requires reader.data.Length > 0 && reader.offset == HEADER_SIZE
    modifies reader`offset
    ensures reader.offset == ChainAt(cfg)
    ensures cfg.tid ==> pid == U32At(reader.Seen(), 8) && tid == U32At(reader.Seen(), 12)
    ensures !cfg.tid ==> pid == 0 && tid == 0
  {
    pid, tid := 0, 0;
    if cfg.tid {
      pid := reader.ReadU32();
      tid := reader.ReadU32();
      StillThere(reader.data[..], reader.baseOffset, 12, 16, 8);
    }
  }

  method ReadBacktrace(cfg: Config, reader: RingReader) returns (backtrace: Option<seq<u64>>)
    requires reader.data.Length > 0 && reader.offset == ChainAt(cfg)
    modifies reader`offset
    ensures cfg.callchain ==>
              && ChainAt(cfg) + 8 <= reader.offset
              && ChainAt(cfg) + 8 + 8 * U64At(reader.Seen(), ChainAt(cfg)) == reader.offset
              && backtrace == Some(U64sAt(reader.Seen(), ChainAt(cfg) + 8, U64At(reader.Seen(), ChainAt(cfg))))
    ensures !cfg.callchain ==> backtrace == None && reader.offset == ChainAt(cfg)
  {
    backtrace := None;
    if cfg.callchain {
      var backtraceSize := reader.ReadU64();
      ghost var k := reader.offset;
      var frames := reader.ReadWords(backtraceSize);
      StillThere(reader.data[..], reader.baseOffset, k, reader.offset, ChainAt(cfg));
      backtrace := Some(frames);
    }
  }

  method ReadUserRegs(cfg: Config, reader: RingReader) returns (regs: Option<seq<u64>>)
    requires reader.data.Length > 0
    modifies reader`offset
    ensures !cfg.regsUser ==> reader.offset == old(reader.offset) && regs == Some([])
    ensures cfg.regsUser ==>
              var at := old(reader.offset);
              && at + 8 <= reader.offset
              && (U64At(reader.Seen(), at) == 0 ==> reader.offset == at + 8 && regs == None)
              && (U64At(reader.Seen(), at) != 0 ==>
                    && reader.offset == at + 8 + 8 * cfg.regsCount
                    && regs == Some(U64sAt(reader.Seen(), at + 8, cfg.regsCount)))
  {
    regs := Some([]);
    if cfg.regsUser {
      ghost var at := reader.offset;
      var abi := reader.ReadU64();
      if abi == 0 {
        return None;
      }
      ghost var k := reader.offset;
      var values := reader.ReadRegs(cfg.regsCount);
      StillThere(reader.data[..], reader.baseOffset, k, reader.offset, at);
      regs := Some(values[..]);
    }
  }

  // `PerfMap::read_sample`, called with the header already read.
  method ReadSampleFrom(cfg: Config, reader: RingReader) returns (data: Option<SampleData>)
    requires reader.data.Length > 0 && reader.offset == HEADER_SIZE
    modifies reader`offset
    ensures reader.offset >= HEADER_SIZE && reader.offset == SampleDemand(cfg, reader.Seen())
    ensures data == ReadSample(cfg, reader.Seen())
  {
    hide ReadSample, SampleDemand, RegsAt, U32At, U64At, U64sAt, Window;
    ghost var d, base := reader.data[..], reader.baseOffset;
    var pid, tid := ReadTid(cfg, reader);
    var backtrace := ReadBacktrace(cfg, reader);
    ghost var at := reader.offset;
    var regs := ReadUserRegs(cfg, reader);
    EarlierFields(cfg, d, base, ChainAt(cfg), at, reader.offset);
    SampleAssembled(cfg, reader.Seen(), at);
    SampleValue(cfg, reader.Seen(), at, pid, tid, backtrace, regs);
    data := if regs.None? then None else Some(SampleData(pid, tid, regs.value, backtrace, []));
  }

  // Where the reader stands once the fields are read.
  lemma SampleAssembled(cfg: Config, got: seq<byte>, at: nat)
    requires at >= ChainAt(cfg)
    requires cfg.callchain ==> ChainAt(cfg) + 8 <= |got| && at == ChainAt(cfg) + 8 + 8 * U64At(got, ChainAt(cfg))
    requires !cfg.callchain ==> at == ChainAt(cfg)
    requires !cfg.regsUser ==> |got| == at
    requires cfg.regsUser ==> at + 8 <= |got|
    requires cfg.regsUser ==> |got| == at + 8 + (if U64At(got, at) == 0 then 0 else 8 * cfg.regsCount)
    ensures |got| >= HEADER_SIZE && |got| == SampleDemand(cfg, got)
    ensures RegsAt(cfg, got) == at
  {}

  lemma SampleValue(
    cfg: Config, got: seq<byte>, at: nat, pid: u32, tid: u32, backtrace: Option<seq<u64>>, regs: Option<seq<u64>>)
    requires |got| >= HEADER_SIZE && |got| == SampleDemand(cfg, got) && RegsAt(cfg, got) == at
    requires if cfg.tid then pid == U32At(got, 8) && tid == U32At(got, 12) else pid == 0 && tid == 0
    requires backtrace == if cfg.callchain then Some(U64sAt(got, ChainAt(cfg) + 8, U64At(got, ChainAt(cfg)))) else None
    requires regs == if !cfg.regsUser then Some([])
                     else if U64At(got, at) == 0 then None
                     else Some(U64sAt(got, at + 8, cfg.regsCount))
    ensures ReadSample(cfg, got)
            == if regs.None? then None else Some(SampleData(pid, tid, regs.value, backtrace, []))
  {}

  // The fields before the registers, seen again from the end of the record.
  lemma EarlierFields(cfg: Config, d: seq<byte>, base: nat, afterTid: nat, at: nat, n: nat)
    requires |d| > 0 && afterTid == ChainAt(cfg) <= at <= n
    requires cfg.callchain ==> afterTid + 8 <= at && at == afterTid + 8 + 8 * U64At(Window(d, base, at), afterTid)
    ensures cfg.tid ==> U32At(Window(d, base, n), 8) == U32At(Window(d, base, afterTid), 8)
    ensures cfg.tid ==> U32At(Window(d, base, n), 12) == U32At(Window(d, base, afterTid), 12)
    ensures cfg.callchain ==>
              && U64At(Window(d, base, n), afterTid) == U64At(Window(d, base, at), afterTid)
              && U64sAt(Window(d, base, n), afterTid + 8, U64At(Window(d, base, n), afterTid))
                 == U64sAt(Window(d, base, at), afterTid + 8, U64At(Window(d, base, at), afterTid))
  {
    if cfg.tid {
      StillThere(d, base, afterTid, n, 8);
      StillThere(d, base, afterTid, n, 12);
    }
    if cfg.callchain {
      StillThere(d, base, at, n, afterTid);
      WordsStillThere(d, base, at, n, afterTid + 8, U64At(Window(d, base, at), afterTid));
    }
  }
}
