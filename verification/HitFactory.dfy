// `HitFactory` of src/hit.rs: a sample becomes a numbered hit, each value with its own resolution.
module HitFactory {
  import opened Prelude
  import opened Text
  import opened Registers
  import opened MapsResolve
  import opened MapsCache

  datatype RegisterValue = RegisterValue(
    name: string, value: string, mapped: Option<MapRegion>, resolved: Option<AddressResolution>, display: string)

  datatype AddressValue = AddressValue(value: string, resolved: Option<AddressResolution>, display: string)

  datatype Hit = Hit(
    seqNo: nat, breakpointId: nat, pid: u32, tid: u32, timestampMs: nat,
    regs: seq<RegisterValue>, simd: seq<RegisterValue>,
    backtrace: Option<seq<string>>, backtraceFrames: Option<seq<AddressValue>>)

  function AddressText(a: u64): string { "0x" + HexPadded(a, 16) }

  function DisplayAddress(a: u64, resolved: Option<AddressResolution>): string {
    if resolved.Some? then AddressText(a) + " (" + resolved.value.display + ")" else AddressText(a)
  }

  // `resolutions.get(idx).cloned().flatten()`.
  function ResolutionAt(resolutions: seq<Option<AddressResolution>>, idx: nat): Option<AddressResolution> {
    if idx < |resolutions| then resolutions[idx] else None
  }

  function MakeRegister(arch: Arch, idx: nat, value: u64, resolutions: seq<Option<AddressResolution>>): RegisterValue {
    var resolved := ResolutionAt(resolutions, idx);
    RegisterValue(IdToStr(arch, idx), AddressText(value),
                  if resolved.Some? then Some(resolved.value.region) else None,
                  resolved, DisplayAddress(value, resolved))
  }

  function MakeSimd(idx: nat, part: string, value: u64): RegisterValue {
    RegisterValue("v" + Decimal(idx) + "." + part, AddressText(value), None, None, AddressText(value))
  }

  // Two halves per vector register, low first.
  function MakeSimdAll(simd: seq<(u64, u64)>): (r: seq<RegisterValue>)
    ensures |r| == 2 * |simd|
  {
    if simd == [] then []
    else
      var idx := |simd| - 1;
      MakeSimdAll(simd[..idx]) + [MakeSimd(idx, "lo", simd[idx].0), MakeSimd(idx, "hi", simd[idx].1)]
  }

  function MakeFrame(idx: nat, addr: u64, resolutions: Option<seq<Option<AddressResolution>>>): AddressValue {
    var resolved := ResolutionAt(resolutions.GetOr([]), idx);
    AddressValue(AddressText(addr), resolved, DisplayAddress(addr, resolved))
  }

  function MakeHit(
    arch: Arch, seqNo: nat, breakpointId: nat, timestampMs: nat, data: SampleData,
    regResolutions: seq<Option<AddressResolution>>, btResolutions: Option<seq<Option<AddressResolution>>>): Hit
  {
    Hit(seqNo, breakpointId, data.pid, data.tid, timestampMs,
        seq(|data.regs|, i requires 0 <= i < |data.regs| => MakeRegister(arch, i, data.regs[i], regResolutions)),
        MakeSimdAll(data.simd),
        match data.backtrace
        case None => None
        case Some(frames) => Some(seq(|frames|, i requires 0 <= i < |frames| => AddressText(frames[i]))),
        match data.backtrace
        case None => None
        case Some(frames) =>
          Some(seq(|frames|, i requires 0 <= i < |frames| => MakeFrame(i, frames[i], btResolutions))))
  }

  lemma AddressTextReadsBack(a: u64)
    ensures StripHexPrefix(AddressText(a)).Some?
    ensures FromStrRadix(StripHexPrefix(AddressText(a)).value, 16) == Some(a)
  {
    HexRoundTrip(a, 16);
    assert AddressText(a)[2..] == HexPadded(a, 16);
  }

  // ----- a hit shows its sample -----

  // The text a reader sees: the value in hexadecimal and, when it resolves, the symbol in brackets.
  predicate DisplayShows(display: string, value: u64, resolved: Option<AddressResolution>) {
    && |display| >= 18 && display[..2] == "0x" && FromStrRadix(display[2..18], 16) == Some(value)
    && display[18..] == if resolved.Some? then " (" + resolved.value.display + ")" else ""
  }

  lemma DisplayIsShown(value: u64, resolved: Option<AddressResolution>)
    ensures DisplayShows(DisplayAddress(value, resolved), value, resolved)
  {
    hide HexPadded, FromStrRadix;
    HexRoundTrip(value, 16);
    PaddedIsDigits(value, 16);
    var text, digits := DisplayAddress(value, resolved), HexPadded(value, 16);
    assert |digits| == 16 && AddressText(value) == "0x" + digits;
    assert text[..18] == "0x" + digits && text[2..18] == digits;
  }

  // Each register with its own name and value, resolved -- if at all -- by a region of the pid's own maps
  // that contains that very value.
  ghost predicate RegsShow(arch: Arch, rows: seq<RegisterValue>, regs: seq<u64>, l: Lookup, pid: u32) {
    && |rows| == |regs|
    && forall i :: 0 <= i < |rows| ==>
         && rows[i].name == IdToStr(arch, i) && rows[i].value == AddressText(regs[i])
         && rows[i].resolved == ResolveWith(l, regs)[i] && DisplayShows(rows[i].display, regs[i], rows[i].resolved)
         && (rows[i].resolved.Some? ==>
               && FromFreshMaps(rows[i].resolved.value, regs[i], l, pid)
               && rows[i].mapped == Some(rows[i].resolved.value.region))
  }

  // Two rows for each vector register, low half first, under its own number.
  predicate SimdShow(rows: seq<RegisterValue>, simd: seq<(u64, u64)>) {
    && |rows| == 2 * |simd|
    && forall i :: 0 <= i < |simd| ==> SimdPair(rows[2 * i], rows[2 * i + 1], i, simd[i])
  }

  predicate SimdPair(lo: RegisterValue, hi: RegisterValue, i: nat, value: (u64, u64)) {
    && lo.name == "v" + Decimal(i) + ".lo" && lo.value == AddressText(value.0)
    && hi.name == "v" + Decimal(i) + ".hi" && hi.value == AddressText(value.1)
    && lo.display == lo.value && hi.display == hi.value && lo.resolved == hi.resolved == None
  }

  ghost predicate FramesShow(frames: seq<AddressValue>, addrs: seq<u64>, l: Lookup, pid: u32) {
    && |frames| == |addrs|
    && forall i :: 0 <= i < |frames| ==>
         && frames[i].value == AddressText(addrs[i]) && frames[i].resolved == ResolveWith(l, addrs)[i]
         && DisplayShows(frames[i].display, addrs[i], frames[i].resolved)
         && (frames[i].resolved.Some? ==> FromFreshMaps(frames[i].resolved.value, addrs[i], l, pid))
  }

  ghost predicate BacktraceShows(hit: Hit, backtrace: Option<seq<u64>>, l: Lookup, pid: u32) {
    && (hit.backtrace.Some? <==> backtrace.Some?) && (hit.backtraceFrames.Some? <==> backtrace.Some?)
    && (backtrace.Some? ==>
          && |hit.backtrace.value| == |backtrace.value|
          && (forall i :: 0 <= i < |backtrace.value| ==> hit.backtrace.value[i] == AddressText(backtrace.value[i]))
          && FramesShow(hit.backtraceFrames.value, backtrace.value, l, pid))
  }

  // The resolutions of a backtrace, when there is one.
  function FrameResolutions(data: SampleData, l: Lookup): Option<seq<Option<AddressResolution>>> {
    if data.backtrace.Some? then Some(ResolveWith(l, data.backtrace.value)) else None
  }

  function HitOf(arch: Arch, seqNo: nat, breakpointId: nat, now: nat, data: SampleData, regs: Lookup, bt: Lookup): Hit {
    MakeHit(arch, seqNo, breakpointId, now, data, ResolveWith(regs, data.regs), FrameResolutions(data, bt))
  }

  lemma RegistersAreAligned(
    arch: Arch, seqNo: nat, breakpointId: nat, now: nat, data: SampleData, l: Lookup, bt: Lookup, pid: u32)
    requires FreshFor(l, pid)
    ensures RegsShow(arch, HitOf(arch, seqNo, breakpointId, now, data, l, bt).regs, data.regs, l, pid)
  {
    hide FromFreshMaps, FreshFor, ResolveWith, IdToStr, AddressText, DisplayAddress, DisplayShows;
    var resolutions := ResolveWith(l, data.regs);
    forall i | 0 <= i < |data.regs|
      ensures DisplayShows(DisplayAddress(data.regs[i], resolutions[i]), data.regs[i], resolutions[i])
    {
      DisplayIsShown(data.regs[i], resolutions[i]);
    }
    forall i | 0 <= i < |data.regs| && resolutions[i].Some?
      ensures FromFreshMaps(resolutions[i].value, data.regs[i], l, pid)
    {
      ResolvedFromFreshMaps(l, pid, data.regs, i);
    }
  }

  lemma FramesAreAligned(
    arch: Arch, seqNo: nat, breakpointId: nat, now: nat, data: SampleData, regs: Lookup, l: Lookup, pid: u32)
    requires FreshFor(l, pid)
    ensures BacktraceShows(HitOf(arch, seqNo, breakpointId, now, data, regs, l), data.backtrace, l, pid)
  {
    hide FromFreshMaps, FreshFor, ResolveWith, AddressText, DisplayAddress, DisplayShows;
    if data.backtrace.Some? {
      var frames := data.backtrace.value;
      var resolutions := ResolveWith(l, frames);
      forall i | 0 <= i < |frames|
        ensures DisplayShows(DisplayAddress(frames[i], resolutions[i]), frames[i], resolutions[i])
      {
        DisplayIsShown(frames[i], resolutions[i]);
      }
      forall i | 0 <= i < |frames| && resolutions[i].Some?
        ensures FromFreshMaps(resolutions[i].value, frames[i], l, pid)
      {
        ResolvedFromFreshMaps(l, pid, frames, i);
      }
    }
  }

  lemma {:induction false} SimdIsAligned(simd: seq<(u64, u64)>)
    ensures SimdShow(MakeSimdAll(simd), simd)
  {
    hide SimdPair;
    if simd != [] {
      var last := |simd| - 1;
      SimdIsAligned(simd[..last]);
      PairShows(last, simd[last]);
    }
  }

  lemma PairShows(i: nat, value: (u64, u64))
    ensures SimdPair(MakeSimd(i, "lo", value.0), MakeSimd(i, "hi", value.1), i, value)
  {
    assert "v" + Decimal(i) + "." + "lo" == "v" + Decimal(i) + ".lo";
    assert "v" + Decimal(i) + "." + "hi" == "v" + Decimal(i) + ".hi";
  }

  class HitFactory {
    const arch: Arch
    var nextSeq: nat

    constructor (arch: Arch)
      ensures this.arch == arch && nextSeq == 0
    {
      this.arch, nextSeq := arch, 0;
    }

    // `now` stands for the wall clock.
    method MakeHitWithMaps(
      breakpointId: nat, data: SampleData, now: nat,
      regResolutions: seq<Option<AddressResolution>>, btResolutions: Option<seq<Option<AddressResolution>>>)
      returns (hit: Hit)
      modifies this
      ensures nextSeq == old(nextSeq) + 1 && hit.seqNo == nextSeq && hit.timestampMs == now
      ensures hit == MakeHit(arch, nextSeq, breakpointId, now, data, regResolutions, btResolutions)
    {
      nextSeq := nextSeq + 1;
      hit := MakeHit(arch, nextSeq, breakpointId, now, data, regResolutions, btResolutions);
    }
  }
}
