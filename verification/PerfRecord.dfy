// Perf records: their layout (perf_event_open(2), "MMAP layout") and the demand-driven reader of
// src/perf.rs, stated on the bytes the reader has consumed so far.
module PerfRecord {
  import opened Prelude
  import opened RingBytes

  const PERF_RECORD_LOST: nat := 2
  const PERF_RECORD_SAMPLE: nat := 9
  const HEADER_SIZE: nat := 8

  // The parts of `sample_type` the reader looks at, and `arch::regs_count()`.
  datatype Config = Config(tid: bool, callchain: bool, regsUser: bool, regsCount: nat)

  // ----- what the kernel writes -----

  datatype Record =
    | Sample(misc: u16, pid: u32, tid: u32, chain: seq<u64>, abi: u64, regs: seq<u64>, trailing: seq<byte>)
    | Lost(misc: u16, id: u64, lost: u64, trailing: seq<byte>)
    | Other(kind: u32, misc: u16, payload: seq<byte>)

  function KindOf(rec: Record): nat {
    match rec
    case Sample(_, _, _, _, _, _, _) => PERF_RECORD_SAMPLE
    case Lost(_, _, _, _) => PERF_RECORD_LOST
    case Other(kind, _, _) => kind
  }

  function TidPart(cfg: Config, rec: Record): seq<byte>
    requires rec.Sample?
  {
    if cfg.tid then ToLE(rec.pid, 4) + ToLE(rec.tid, 4) else []
  }

  function ChainPart(cfg: Config, rec: Record): seq<byte>
    requires rec.Sample?
  {
    if cfg.callchain then ToLE(|rec.chain|, 8) + WordBytes(rec.chain) else []
  }

  function RegsPart(cfg: Config, rec: Record): seq<byte>
    requires rec.Sample?
  {
    if cfg.regsUser then ToLE(rec.abi, 8) + (if rec.abi != 0 then WordBytes(rec.regs) else []) else []
  }

  function Payload(cfg: Config, rec: Record): seq<byte> {
    match rec
    case Sample(_, _, _, _, _, _, trailing) =>
      TidPart(cfg, rec) + ChainPart(cfg, rec) + RegsPart(cfg, rec) + trailing
    case Lost(_, id, lost, trailing) => ToLE(id, 8) + ToLE(lost, 8) + trailing
    case Other(_, _, payload) => payload
  }

  function Encode(cfg: Config, rec: Record): (e: seq<byte>)
    ensures |e| == HEADER_SIZE + |Payload(cfg, rec)|
  {
    ToLE(KindOf(rec), 4) + ToLE(rec.misc, 2) + ToLE(HEADER_SIZE + |Payload(cfg, rec)|, 2) + Payload(cfg, rec)
  }

  predicate WellFormed(cfg: Config, rec: Record) {
    && HEADER_SIZE + |Payload(cfg, rec)| < 0x1_0000
    && (rec.Sample? && cfg.regsUser && rec.abi != 0 ==> |rec.regs| == cfg.regsCount)
    && (rec.Other? ==> rec.kind != PERF_RECORD_SAMPLE && rec.kind != PERF_RECORD_LOST)
  }

  // The sample a record carries, if the watch is to see one.
  function SampleOf(cfg: Config, rec: Record): Option<SampleData> {
    if rec.Sample? && (cfg.regsUser ==> rec.abi != 0) then
      Some(SampleData(
             if cfg.tid then rec.pid else 0,
             if cfg.tid then rec.tid else 0,
             if cfg.regsUser then rec.regs else [],
             if cfg.callchain then Some(rec.chain) else None,
             []))
    else None
  }

  // How many bytes of the record the reader touches.
  function Consumed(cfg: Config, rec: Record): nat {
    match rec
    case Sample(_, _, _, _, _, _, _) =>
      HEADER_SIZE + |TidPart(cfg, rec)| + |ChainPart(cfg, rec)| + |RegsPart(cfg, rec)|
    case Lost(_, _, _, _) => HEADER_SIZE + 8
    case Other(_, _, _) => HEADER_SIZE
  }

  // ----- what the reader does -----

  function ChainAt(cfg: Config): nat { HEADER_SIZE + if cfg.tid then 8 else 0 }

  function RegsAt(cfg: Config, got: seq<byte>): nat
    requires cfg.callchain ==> ChainAt(cfg) + 8 <= |got|
  {
    ChainAt(cfg) + if cfg.callchain then 8 + 8 * U64At(got, ChainAt(cfg)) else 0
  }

  // The least number of bytes the reader is known to need once it has `got`.
  function Demand(cfg: Config, got: seq<byte>): nat {
    if |got| < HEADER_SIZE then HEADER_SIZE
    else if U32At(got, 0) == PERF_RECORD_SAMPLE then SampleDemand(cfg, got)
    else if U32At(got, 0) == PERF_RECORD_LOST then HEADER_SIZE + 8
    else HEADER_SIZE
  }

  function SampleDemand(cfg: Config, got: seq<byte>): nat {
    if cfg.callchain && |got| < ChainAt(cfg) + 8 then ChainAt(cfg) + 8
    else
      var at := RegsAt(cfg, got);
      if !cfg.regsUser then at
      else if |got| < at + 8 then at + 8
      else if U64At(got, at) == 0 then at + 8
      else at + 8 + 8 * cfg.regsCount
  }

  predicate Complete(cfg: Config, got: seq<byte>) { |got| == Demand(cfg, got) }

  // `read_sample` on the bytes it consumed, header included.
  function ReadSample(cfg: Config, got: seq<byte>): Option<SampleData>
    requires |got| >= HEADER_SIZE && |got| == SampleDemand(cfg, got)
  {
    var at := RegsAt(cfg, got);
    if cfg.regsUser && U64At(got, at) == 0 then None
    else
      Some(SampleData(
             if cfg.tid then U32At(got, 8) else 0,
             if cfg.tid then U32At(got, 12) else 0,
             if cfg.regsUser then U64sAt(got, at + 8, cfg.regsCount) else [],
             if cfg.callchain then Some(U64sAt(got, ChainAt(cfg) + 8, U64At(got, ChainAt(cfg)))) else None,
             []))
  }

  function Delivery(cfg: Config, got: seq<byte>): Option<SampleData>
    requires Complete(cfg, got)
  {
    if U32At(got, 0) == PERF_RECORD_SAMPLE then ReadSample(cfg, got) else None
  }

  // ----- decoding inverts encoding -----

  lemma HeaderLayout(cfg: Config, rec: Record)
    requires WellFormed(cfg, rec)
    ensures var e := Encode(cfg, rec);
            U32At(e, 0) == KindOf(rec) && U16At(e, 6) == |e| && e[8..] == Payload(cfg, rec)
  {
    var e := Encode(cfg, rec);
    Pow256Widths();
    assert e[0..4] == ToLE(KindOf(rec), 4);
    assert e[6..8] == ToLE(|e|, 2);
    LERoundTrip(KindOf(rec), 4);
    LERoundTrip(|e|, 2);
  }

  // The header byte by byte: type 9 for a sample, 2 for LOST, and the record's length last.
  lemma HeaderBytes(cfg: Config, rec: Record)
    requires WellFormed(cfg, rec)
    ensures var e := Encode(cfg, rec);
            && |e| >= 8
            && (rec.Sample? ==> e[..4] == [9, 0, 0, 0]) && (rec.Lost? ==> e[..4] == [2, 0, 0, 0])
            && (rec.Other? ==> e[..4] != [9, 0, 0, 0] && e[..4] != [2, 0, 0, 0])
            && e[6] as int + 256 * e[7] as int == |e|
  {
    var e := Encode(cfg, rec);
    hide Payload;
    HeaderLayout(cfg, rec);
    var kind, size := KindOf(rec), |e|;
    assert e[..4] == ToLE(kind, 4) && e[6..8] == ToLE(size, 2);
    FourBytes(kind);
    FourBytes(9);
    FourBytes(2);
    TwoBytes(size);
    assert e[6] == e[6..8][0] && e[7] == e[6..8][1];
    hide Encode, ToLE;
    if rec.Other? {
      Pow256Widths();
      LERoundTrip(kind, 4);
      LERoundTrip(9, 4);
      LERoundTrip(2, 4);
    }
  }

  lemma FourBytes(n: u32)
    ensures ToLE(n, 4) == [n % 256, n / 256 % 256, n / 256 / 256 % 256, n / 256 / 256 / 256 % 256]
  {
    assert ToLE(n / 256, 3) == [n / 256 % 256] + ToLE(n / 256 / 256, 2);
    assert ToLE(n / 256 / 256, 2) == [n / 256 / 256 % 256] + ToLE(n / 256 / 256 / 256, 1);
  }

  lemma TwoBytes(n: u16)
    ensures ToLE(n, 2) == [n % 256, n / 256]
  {}

  lemma SliceOfSum(e: seq<byte>, at: nat, a: seq<byte>, b: seq<byte>, c: seq<byte>)
    requires at <= |e| && e[at..] == a + b + c
    ensures at + |a| + |b| <= |e| && e[at + |a|..at + |a| + |b|] == b
  {
    assert e[at + |a|..at + |a| + |b|] == e[at..][|a|..|a| + |b|];
  }

  lemma TidLayout(cfg: Config, rec: Record)
    requires WellFormed(cfg, rec) && rec.Sample? && cfg.tid
    ensures var e := Encode(cfg, rec); U32At(e, 8) == rec.pid && U32At(e, 12) == rec.tid
  {
    hide Encode, ToLE, FromLE, ChainPart, RegsPart;
    HeaderLayout(cfg, rec);
    Pow256Widths();
    var e, rest := Encode(cfg, rec), ChainPart(cfg, rec) + RegsPart(cfg, rec) + rec.trailing;
    var pid, tid := ToLE(rec.pid, 4), ToLE(rec.tid, 4);
    assert e[8..] == [] + pid + (tid + rest) == pid + tid + rest;
    SliceOfSum(e, 8, [], pid, tid + rest);
    SliceOfSum(e, 8, pid, tid, rest);
    LERoundTrip(rec.pid, 4);
    LERoundTrip(rec.tid, 4);
  }

  lemma PartsLayout(cfg: Config, rec: Record)
    requires WellFormed(cfg, rec) && rec.Sample?
    ensures var e, t, c, r := Encode(cfg, rec), |TidPart(cfg, rec)|, |ChainPart(cfg, rec)|, |RegsPart(cfg, rec)|;
            && 8 + t + c + r <= |e|
            && e[8 + t..8 + t + c] == ChainPart(cfg, rec)
            && e[8 + t + c..8 + t + c + r] == RegsPart(cfg, rec)
  {
    hide Encode, TidPart, ChainPart, RegsPart, WellFormed;
    HeaderLayout(cfg, rec);
    var e, t, c, r := Encode(cfg, rec), TidPart(cfg, rec), ChainPart(cfg, rec), RegsPart(cfg, rec);
    assert e[8..] == t + c + (r + rec.trailing) == (t + c) + r + rec.trailing;
    SliceOfSum(e, 8, t, c, r + rec.trailing);
    SliceOfSum(e, 8, t + c, r, rec.trailing);
  }

  lemma ChainLayout(cfg: Config, rec: Record)
    requires WellFormed(cfg, rec) && rec.Sample? && cfg.callchain
    ensures var e := Encode(cfg, rec);
            && ChainAt(cfg) + 8 + 8 * |rec.chain| <= |e|
            && U64At(e, ChainAt(cfg)) == |rec.chain|
            && U64sAt(e, ChainAt(cfg) + 8, |rec.chain|) == rec.chain
  {
    hide Encode, ToLE, WordBytes;
    PartsLayout(cfg, rec);
    WordThenWords(Encode(cfg, rec), ChainAt(cfg), |rec.chain|, rec.chain);
  }

  lemma RegsFound(cfg: Config, rec: Record, at: nat)
    requires WellFormed(cfg, rec) && rec.Sample? && at == ChainAt(cfg) + |ChainPart(cfg, rec)|
    ensures at + |RegsPart(cfg, rec)| <= |Encode(cfg, rec)|
    ensures Encode(cfg, rec)[at..at + |RegsPart(cfg, rec)|] == RegsPart(cfg, rec)
  {
    PartsLayout(cfg, rec);
    assert at == 8 + |TidPart(cfg, rec)| + |ChainPart(cfg, rec)|;
    hide Encode, RegsPart, ChainPart, TidPart;
  }

  lemma RegsLayout(cfg: Config, rec: Record)
    requires WellFormed(cfg, rec) && rec.Sample? && cfg.regsUser
    ensures var e := Encode(cfg, rec);
            var at := ChainAt(cfg) + |ChainPart(cfg, rec)|;
            && at + 8 <= |e| && U64At(e, at) == rec.abi
            && (rec.abi != 0 ==> at + 8 + 8 * cfg.regsCount <= |e| && U64sAt(e, at + 8, cfg.regsCount) == rec.regs)
  {
    hide Encode, ToLE, WordBytes, ChainPart, TidPart, U64At, U64sAt;
    var at, ws := ChainAt(cfg) + |ChainPart(cfg, rec)|, if rec.abi != 0 then rec.regs else [];
    RegsFound(cfg, rec, at);
    assert RegsPart(cfg, rec) == ToLE(rec.abi, 8) + WordBytes(ws);
    WordThenWords(Encode(cfg, rec), at, rec.abi, ws);
  }

  lemma PrefixWords(e: seq<byte>, k: nat, i: nat)
    requires k <= |e|
    ensures i + 4 <= k ==> U32At(e[..k], i) == U32At(e, i)
    ensures i + 8 <= k ==> U64At(e[..k], i) == U64At(e, i)
    ensures i + 2 <= k ==> U16At(e[..k], i) == U16At(e, i)
  {
    if i + 2 <= k { assert e[..k][i..i + 2] == e[i..i + 2]; }
    if i + 4 <= k { assert e[..k][i..i + 4] == e[i..i + 4]; }
    if i + 8 <= k { assert e[..k][i..i + 8] == e[i..i + 8]; }
  }

  // Until the record's fields are all read the reader asks for more of that record, and never for
  // a byte past them; it stops exactly there.
  lemma DemandOfPrefix(cfg: Config, rec: Record, k: nat)
    requires WellFormed(cfg, rec) && k <= Consumed(cfg, rec)
    ensures Consumed(cfg, rec) <= |Encode(cfg, rec)|
    ensures var d := Demand(cfg, Encode(cfg, rec)[..k]);
            d <= Consumed(cfg, rec) && (k < Consumed(cfg, rec) ==> k < d) && k <= d
  {
    var e := Encode(cfg, rec);
    if k >= HEADER_SIZE {
      HeaderLayout(cfg, rec);
      PrefixWords(e, k, 0);
      if rec.Sample? { SampleDemandOfPrefix(cfg, rec, k); }
    }
  }

  // Where the registers start, once the length of the chain has been read.
  lemma RegsAtOfPrefix(cfg: Config, rec: Record, k: nat)
    requires WellFormed(cfg, rec) && rec.Sample? && k <= |Encode(cfg, rec)|
    requires cfg.callchain ==> ChainAt(cfg) + 8 <= k
    ensures RegsAt(cfg, Encode(cfg, rec)[..k]) == ChainAt(cfg) + |ChainPart(cfg, rec)|
  {
    hide Encode, WellFormed, U64At, ToLE, WordBytes;
    if cfg.callchain {
      ChainLayout(cfg, rec);
      PrefixWords(Encode(cfg, rec), k, ChainAt(cfg));
    }
  }

  // The ABI word, once it has been read.
  lemma AbiOfPrefix(cfg: Config, rec: Record, k: nat)
    requires WellFormed(cfg, rec) && rec.Sample? && cfg.regsUser && k <= |Encode(cfg, rec)|
    ensures var at := ChainAt(cfg) + |ChainPart(cfg, rec)|;
            && at + 8 <= |Encode(cfg, rec)|
            && (at + 8 <= k ==> U64At(Encode(cfg, rec)[..k], at) == rec.abi)
  {
    hide Encode, WellFormed, U64At, ChainPart;
    RegsLayout(cfg, rec);
    PrefixWords(Encode(cfg, rec), k, ChainAt(cfg) + |ChainPart(cfg, rec)|);
  }

  lemma ConsumedParts(cfg: Config, rec: Record)
    requires WellFormed(cfg, rec) && rec.Sample?
    ensures Consumed(cfg, rec) == ChainAt(cfg) + |ChainPart(cfg, rec)| + |RegsPart(cfg, rec)| <= |Encode(cfg, rec)|
    ensures |ChainPart(cfg, rec)| == if cfg.callchain then 8 + 8 * |rec.chain| else 0
    ensures |RegsPart(cfg, rec)|
            == if !cfg.regsUser then 0 else if rec.abi == 0 then 8 else 8 + 8 * cfg.regsCount
  {
    PartsLayout(cfg, rec);
    hide Encode;
  }

  lemma SampleDemandOfPrefix(cfg: Config, rec: Record, k: nat)
    requires WellFormed(cfg, rec) && rec.Sample? && HEADER_SIZE <= k <= Consumed(cfg, rec)
    ensures Consumed(cfg, rec) <= |Encode(cfg, rec)|
    ensures var d := SampleDemand(cfg, Encode(cfg, rec)[..k]);
            d <= Consumed(cfg, rec) && (k < Consumed(cfg, rec) ==> k < d) && k <= d
  {
    hide Encode, WellFormed, U64At, RegsAt, ChainPart, RegsPart, Consumed;
    ConsumedParts(cfg, rec);
    if !cfg.callchain || ChainAt(cfg) + 8 <= k {
      RegsAtOfPrefix(cfg, rec, k);
      if cfg.regsUser { AbiOfPrefix(cfg, rec, k); }
    }
  }

  lemma DecodeInvertsEncode(cfg: Config, rec: Record)
    requires WellFormed(cfg, rec)
    ensures Consumed(cfg, rec) <= |Encode(cfg, rec)|
    ensures var got := Encode(cfg, rec)[..Consumed(cfg, rec)];
            && Complete(cfg, got)
            && Delivery(cfg, got) == SampleOf(cfg, rec)
            && U16At(got, 6) == |Encode(cfg, rec)|
  {
    var e, k := Encode(cfg, rec), Consumed(cfg, rec);
    DemandOfPrefix(cfg, rec, k);
    HeaderLayout(cfg, rec);
    PrefixWords(e, k, 0);
    PrefixWords(e, k, 6);
    if rec.Sample? {
      var at := ChainAt(cfg) + |ChainPart(cfg, rec)|;
      FieldsHeld(cfg, rec, k, at);
      FieldsDecode(cfg, rec, e[..k], at);
    }
  }

  lemma ChainOfPrefix(cfg: Config, rec: Record, k: nat)
    requires WellFormed(cfg, rec) && rec.Sample? && cfg.callchain
    requires ChainAt(cfg) + 8 + 8 * |rec.chain| <= k <= |Encode(cfg, rec)|
    ensures var got := Encode(cfg, rec)[..k];
            && U64At(got, ChainAt(cfg)) == |rec.chain|
            && U64sAt(got, ChainAt(cfg) + 8, |rec.chain|) == rec.chain
  {
    ChainLayout(cfg, rec);
    PrefixWords(Encode(cfg, rec), k, ChainAt(cfg));
    WordsOfPrefix(Encode(cfg, rec), k, ChainAt(cfg) + 8, |rec.chain|);
  }

  lemma RegsOfPrefix(cfg: Config, rec: Record, at: nat, k: nat)
    requires WellFormed(cfg, rec) && rec.Sample? && cfg.regsUser
    requires at == ChainAt(cfg) + |ChainPart(cfg, rec)|
    requires at + |RegsPart(cfg, rec)| <= k <= |Encode(cfg, rec)|
    ensures var got := Encode(cfg, rec)[..k];
            && U64At(got, at) == rec.abi
            && (rec.abi != 0 ==> at + 8 + 8 * cfg.regsCount <= k && U64sAt(got, at + 8, cfg.regsCount) == rec.regs)
  {
    RegsLayout(cfg, rec);
    PrefixWords(Encode(cfg, rec), k, at);
    if rec.abi != 0 { WordsOfPrefix(Encode(cfg, rec), k, at + 8, cfg.regsCount); }
  }

  lemma TidOfPrefix(cfg: Config, rec: Record, k: nat)
    requires WellFormed(cfg, rec) && rec.Sample? && cfg.tid && 16 <= k <= |Encode(cfg, rec)|
    ensures var got := Encode(cfg, rec)[..k]; U32At(got, 8) == rec.pid && U32At(got, 12) == rec.tid
  {
    TidLayout(cfg, rec);
    PrefixWords(Encode(cfg, rec), k, 8);
    PrefixWords(Encode(cfg, rec), k, 12);
  }

  // `got` holds the fields of `rec` where the reader looks for them.
  predicate HoldsFields(cfg: Config, rec: Record, got: seq<byte>, at: nat)
    requires rec.Sample?
  {
    && |got| >= HEADER_SIZE
    && (cfg.tid ==> |got| >= 16 && U32At(got, 8) == rec.pid && U32At(got, 12) == rec.tid)
    && (cfg.callchain ==>
          && ChainAt(cfg) + 8 + 8 * |rec.chain| <= |got|
          && U64At(got, ChainAt(cfg)) == |rec.chain|
          && U64sAt(got, ChainAt(cfg) + 8, |rec.chain|) == rec.chain)
    && at == ChainAt(cfg) + (if cfg.callchain then 8 + 8 * |rec.chain| else 0)
    && (cfg.regsUser ==> at + 8 <= |got| && U64At(got, at) == rec.abi)
    && (cfg.regsUser && rec.abi != 0 ==>
          at + 8 + 8 * cfg.regsCount <= |got| && U64sAt(got, at + 8, cfg.regsCount) == rec.regs)
  }

  lemma FieldsDecode(cfg: Config, rec: Record, got: seq<byte>, at: nat)
    requires rec.Sample? && HoldsFields(cfg, rec, got, at) && |got| == SampleDemand(cfg, got)
    ensures ReadSample(cfg, got) == SampleOf(cfg, rec)
  {
    assert RegsAt(cfg, got) == at;
  }

  lemma FieldsHeld(cfg: Config, rec: Record, k: nat, at: nat)
    requires WellFormed(cfg, rec) && rec.Sample? && Consumed(cfg, rec) <= k <= |Encode(cfg, rec)|
    requires at == ChainAt(cfg) + |ChainPart(cfg, rec)|
    ensures HoldsFields(cfg, rec, Encode(cfg, rec)[..k], at)
  {
    if cfg.tid { TidOfPrefix(cfg, rec, k); }
    if cfg.callchain { ChainOfPrefix(cfg, rec, k); }
    if cfg.regsUser { RegsOfPrefix(cfg, rec, at, k); }
  }

  // The reader stops at the record's end, header.size bytes in, exactly when nothing trails the fields.
  lemma ReaderConsumesSize(cfg: Config, rec: Record)
    requires WellFormed(cfg, rec) && rec.Sample?
    ensures Consumed(cfg, rec) == |Encode(cfg, rec)| <==> rec.trailing == []
  {}

  lemma LostWordAt(cfg: Config, rec: Record)
    requires WellFormed(cfg, rec) && rec.Lost?
    ensures |Encode(cfg, rec)| >= HEADER_SIZE + 8 && U64At(Encode(cfg, rec), HEADER_SIZE) == rec.id
  {
    hide Encode, ToLE, FromLE;
    HeaderLayout(cfg, rec);
    var e, id, rest := Encode(cfg, rec), ToLE(rec.id, 8), ToLE(rec.lost, 8) + rec.trailing;
    assert e[8..] == [] + id + rest;
    SliceOfSum(e, 8, [], id, rest);
    WordRoundTrip(e, 8, rec.id);
  }

  // The word the LOST branch logs as the count is the record's first payload word, which the layout
  // names `id`: the logged number is the number of lost events only when the two agree.
  lemma LostLogsFirstWord(cfg: Config, rec: Record)
    requires WellFormed(cfg, rec) && rec.Lost?
    ensures var logged := U64At(Encode(cfg, rec), HEADER_SIZE); logged == rec.lost <==> rec.id == rec.lost
  {
    LostWordAt(cfg, rec);
  }

  // The reader tells a LOST record from the others, and finds that word, in the bytes it takes.
  lemma LostWordOfPrefix(cfg: Config, rec: Record)
    requires WellFormed(cfg, rec)
    ensures HEADER_SIZE <= Consumed(cfg, rec) <= |Encode(cfg, rec)|
    ensures var got := Encode(cfg, rec)[..Consumed(cfg, rec)];
            && (U32At(got, 0) == PERF_RECORD_LOST <==> rec.Lost?)
            && (rec.Lost? ==> U64At(got, HEADER_SIZE) == rec.id)
  {
    var e, k := Encode(cfg, rec), Consumed(cfg, rec);
    DemandOfPrefix(cfg, rec, k);
    HeaderLayout(cfg, rec);
    PrefixWords(e, k, 0);
    if rec.Lost? {
      hide Encode;
      PrefixWords(e, k, HEADER_SIZE);
      LostWordAt(cfg, rec);
    }
  }

  lemma LostLogCanBeWrong()
    ensures exists cfg, rec: Record ::
              WellFormed(cfg, rec) && rec.Lost? && U64At(Encode(cfg, rec), HEADER_SIZE) != rec.lost
  {
    var cfg, rec := Config(true, false, true, 33), Lost(0, 7, 3, []);
    LostLogsFirstWord(cfg, rec);
    assert WellFormed(cfg, rec) && rec.Lost? && U64At(Encode(cfg, rec), HEADER_SIZE) != rec.lost;
  }
}
