// The path of a sample in src/server.rs: a bounded queue that counts what it drops, one worker, and
// the recent-hits buffer.
module Pipeline {
  import opened Prelude
  import opened Registers
  import opened HitFactory
  import opened MapsCache

  const SAMPLE_QUEUE_CAPACITY: nat := 4096

  datatype QueuedSample = QueuedSample(breakpointId: nat, pid: u32, data: SampleData)

  lemma LastNTwice<T>(s: seq<T>, n: nat, m: nat)
    ensures LastN(LastN(s, n), m) == LastN(s, Min(n, m))
  {}

  // ----- every interleaving of senders, worker and readers -----

  datatype Worker = Idle | Holding(sample: QueuedSample) | Pushing(hit: Hit)

  // `offers` (each with whether it was taken), `lookups` (the two of each sample, for its registers and
  // for its backtrace) and `hits` are history.
  datatype State = State(
    arch: Arch, limit: nat, queue: seq<QueuedSample>, dropped: nat, nextSeq: nat, buffer: seq<Hit>, worker: Worker,
    offers: seq<(QueuedSample, bool)>, lookups: seq<(Lookup, Lookup)>, hits: seq<Hit>)

  datatype Step =
    | Offer(sample: QueuedSample)
    | Receive
    | Make(now: nat, regs: Lookup, backtrace: Lookup)
    | Push

  predicate Enabled(s: State, step: Step) {
    match step
    case Offer(_) => true
    case Receive => s.worker.Idle? && s.queue != []
    case Make(_, regs, backtrace) =>
      s.worker.Holding? && FreshFor(regs, s.worker.sample.pid) && FreshFor(backtrace, s.worker.sample.pid)
    case Push => s.worker.Pushing?
  }

  function Do(s: State, step: Step): State
    requires Enabled(s, step)
  {
    match step
    case Offer(sample) =>
      if |s.queue| < SAMPLE_QUEUE_CAPACITY
      then s.(queue := s.queue + [sample], offers := s.offers + [(sample, true)])
      else s.(dropped := s.dropped + 1, offers := s.offers + [(sample, false)])
    case Receive => s.(queue := s.queue[1..], worker := Holding(s.queue[0]))
    case Make(now, regs, backtrace) =>
      var q := s.worker.sample;
      s.(nextSeq := s.nextSeq + 1,
         lookups := s.lookups + [(regs, backtrace)],
         worker := Pushing(HitOf(s.arch, s.nextSeq + 1, q.breakpointId, now, q.data, regs, backtrace)))
    case Push =>
      var hit := s.worker.hit;
      s.(buffer := LastN(s.buffer + [hit], s.limit), hits := s.hits + [hit], worker := Idle)
  }

  predicate Initial(s: State) {
    && s.queue == [] && s.dropped == 0 && s.nextSeq == 0 && s.buffer == [] && s.worker == Idle
    && s.offers == [] && s.lookups == [] && s.hits == []
  }

  // The samples the queue took, in the order it took them.
  function Taken(offers: seq<(QueuedSample, bool)>): seq<QueuedSample> {
    if offers == [] then []
    else
      var last := offers[|offers| - 1];
      Taken(offers[..|offers| - 1]) + (if last.1 then [last.0] else [])
  }

  // `hit` is what became of `sample`, annotated from the lookups made for it in its own pid's maps.
  ghost predicate Shows(arch: Arch, hit: Hit, sample: QueuedSample, regs: Lookup, backtrace: Lookup) {
    && hit.breakpointId == sample.breakpointId && hit.pid == sample.data.pid && hit.tid == sample.data.tid
    && FreshFor(regs, sample.pid) && FreshFor(backtrace, sample.pid)
    && RegsShow(arch, hit.regs, sample.data.regs, regs, sample.pid)
    && SimdShow(hit.simd, sample.data.simd)
    && BacktraceShows(hit, sample.data.backtrace, backtrace, sample.pid)
  }

  function InFlight(w: Worker): nat { if w.Idle? then 0 else 1 }

  ghost predicate WorkerOk(s: State) {
    match s.worker
    case Idle => s.nextSeq == |s.hits|
    case Holding(sample) => s.nextSeq == |s.hits| && |s.hits| < |Taken(s.offers)| && Taken(s.offers)[|s.hits|] == sample
    case Pushing(hit) =>
      && s.nextSeq == |s.hits| + 1 == hit.seqNo
      && |s.hits| < |Taken(s.offers)| && |s.lookups| == |s.hits| + 1
      && Shows(s.arch, hit, Taken(s.offers)[|s.hits|], s.lookups[|s.hits|].0, s.lookups[|s.hits|].1)
  }

  ghost predicate HitsOk(s: State) {
    && |s.hits| <= |Taken(s.offers)|
    && |s.lookups| == |s.hits| + (if s.worker.Pushing? then 1 else 0)
    && forall i :: 0 <= i < |s.hits| ==>
         s.hits[i].seqNo == i + 1 && Shows(s.arch, s.hits[i], Taken(s.offers)[i], s.lookups[i].0, s.lookups[i].1)
  }

  ghost predicate Inv(s: State) {
    var done := |s.hits| + InFlight(s.worker);
    && |s.queue| <= SAMPLE_QUEUE_CAPACITY
    && done <= |Taken(s.offers)| && s.queue == Taken(s.offers)[done..]
    && |s.offers| == |Taken(s.offers)| + s.dropped
    && s.buffer == LastN(s.hits, s.limit)
    && HitsOk(s) && WorkerOk(s)
  }

  lemma OfferKeeps(s: State, sample: QueuedSample)
    requires Inv(s)
    ensures Inv(Do(s, Offer(sample)))
  {
    hide Shows, LastN;
    var s' := Do(s, Offer(sample));
    assert s'.offers[..|s'.offers| - 1] == s.offers;
    assert Taken(s'.offers) == Taken(s.offers) + (if |s.queue| < SAMPLE_QUEUE_CAPACITY then [sample] else []);
  }

  lemma MadeShows(arch: Arch, seqNo: nat, q: QueuedSample, now: nat, regs: Lookup, backtrace: Lookup)
    requires FreshFor(regs, q.pid) && FreshFor(backtrace, q.pid)
    ensures Shows(arch, HitOf(arch, seqNo, q.breakpointId, now, q.data, regs, backtrace), q, regs, backtrace)
    ensures HitOf(arch, seqNo, q.breakpointId, now, q.data, regs, backtrace).seqNo == seqNo
  {
    hide RegsShow, SimdShow, BacktraceShows, ResolveWith, FreshFor;
    RegistersAreAligned(arch, seqNo, q.breakpointId, now, q.data, regs, backtrace, q.pid);
    FramesAreAligned(arch, seqNo, q.breakpointId, now, q.data, regs, backtrace, q.pid);
    SimdIsAligned(q.data.simd);
  }

  lemma PushKeeps(s: State)
    requires Inv(s) && s.worker.Pushing?
    ensures Inv(Do(s, Push))
  {
    hide Shows, Taken, LastN, HitsOk, WorkerOk;
    LastNAfterPush(s.hits, s.limit, s.worker.hit);
    PushKeepsHits(s);
  }

  lemma PushKeepsHits(s: State)
    requires HitsOk(s) && WorkerOk(s) && s.worker.Pushing?
    ensures HitsOk(Do(s, Push)) && WorkerOk(Do(s, Push))
  {
    hide Shows, Taken, LastN;
  }

  lemma LastNAfterPush<T>(all: seq<T>, n: nat, x: T)
    ensures LastN(LastN(all, n) + [x], n) == LastN(all + [x], n)
  {}

  lemma StepKeepsInv(s: State, step: Step)
    requires Inv(s) && Enabled(s, step)
    ensures Inv(Do(s, step))
  {
    hide Shows, LastN, Taken, HitOf;
    match step
    case Offer(sample) => OfferKeeps(s, sample);
    case Push => PushKeeps(s);
    case Receive =>
    case Make(now, regs, backtrace) =>
      MadeShows(s.arch, s.nextSeq + 1, s.worker.sample, now, regs, backtrace);
  }

  predicate IsRun(s: State, steps: seq<Step>)
    decreases |steps|
  {
    steps == [] || (Enabled(s, steps[0]) && IsRun(Do(s, steps[0]), steps[1..]))
  }

  function After(s: State, steps: seq<Step>): State
    requires IsRun(s, steps)
    decreases |steps|
  {
    if steps == [] then s else After(Do(s, steps[0]), steps[1..])
  }

  function Offered(steps: seq<Step>): seq<QueuedSample> {
    if steps == [] then [] else (if steps[0].Offer? then [steps[0].sample] else []) + Offered(steps[1..])
  }

  function OfferedIn(offers: seq<(QueuedSample, bool)>): (r: seq<QueuedSample>)
    ensures |r| == |offers|
  {
    seq(|offers|, i requires 0 <= i < |offers| => offers[i].0)
  }

  lemma StepOffers(s: State, step: Step)
    requires Enabled(s, step)
    ensures OfferedIn(Do(s, step).offers) == OfferedIn(s.offers) + (if step.Offer? then [step.sample] else [])
    ensures Do(s, step).limit == s.limit && Do(s, step).arch == s.arch
  {}

  lemma {:induction false} RunKeepsInv(s: State, steps: seq<Step>)
    requires Inv(s) && IsRun(s, steps)
    ensures Inv(After(s, steps)) && After(s, steps).limit == s.limit && After(s, steps).arch == s.arch
    ensures OfferedIn(After(s, steps).offers) == OfferedIn(s.offers) + Offered(steps)
    decreases |steps|
  {
    hide Inv, Enabled, Do, OfferedIn;
    if steps != [] {
      StepKeepsInv(s, steps[0]);
      StepOffers(s, steps[0]);
      RunKeepsInv(Do(s, steps[0]), steps[1..]);
      ConcatAssociative(OfferedIn(s.offers), if steps[0].Offer? then [steps[0].sample] else [], Offered(steps[1..]));
    }
  }

  // No sample is lost uncounted: offered = pushed + in the worker's hands + queued + dropped, and the
  // queue never exceeds its capacity.
  lemma SamplesConserved(s: State, steps: seq<Step>)
    requires Initial(s) && IsRun(s, steps)
    ensures var t := After(s, steps);
            && |Offered(steps)| == |t.hits| + InFlight(t.worker) + |t.queue| + t.dropped
            && |t.queue| <= 4096
            && OfferedIn(t.offers) == Offered(steps)
  {
    hide After, IsRun, WorkerOk, HitsOk, LastN;
    InitialInv(s);
    RunKeepsInv(s, steps);
    assert OfferedIn(s.offers) + Offered(steps) == Offered(steps);
  }

  lemma LastNOfNone<T>(n: nat)
    ensures LastN<T>([], n) == []
  {}

  lemma InitialInv(s: State)
    requires Initial(s)
    ensures Inv(s)
  {
    hide Shows, LastN;
    LastNOfNone<Hit>(s.limit);
    assert Taken(s.offers) == [];
  }

  // Hits carry 1, 2, 3, ... and show the accepted samples in the order they were accepted: values,
  // vector halves and frames, each resolved in the maps of the sample's own pid.
  lemma HitsInOrder(s: State, steps: seq<Step>, i: nat)
    requires Initial(s) && IsRun(s, steps) && i < |After(s, steps).hits|
    ensures var t := After(s, steps);
            && t.hits[i].seqNo == i + 1
            && i < |Taken(t.offers)| && i < |t.lookups|
            && Shows(s.arch, t.hits[i], Taken(t.offers)[i], t.lookups[i].0, t.lookups[i].1)
  {
    hide After, IsRun, WorkerOk, LastN, Shows;
    InitialInv(s);
    RunKeepsInv(s, steps);
  }

  lemma TailAscends(hits: seq<Hit>, n: nat)
    requires forall i :: 0 <= i < |hits| ==> hits[i].seqNo == i + 1
    ensures var tail := LastN(hits, n);
            forall i, j :: 0 <= i < j < |tail| ==> tail[j].seqNo == tail[i].seqNo + (j - i)
  {
    var tail, d := LastN(hits, n), |hits| - Min(n, |hits|);
    hide LastN;
    forall i | 0 <= i < |tail| ensures tail[i].seqNo == d + i + 1 { LastNAt(hits, n, i); }
  }

  lemma LastNAt<T>(s: seq<T>, n: nat, i: nat)
    requires i < |LastN(s, n)|
    ensures LastN(s, n)[i] == s[|s| - Min(n, |s|) + i]
  {}

  lemma Numbered(s: State)
    requires Inv(s)
    ensures forall i :: 0 <= i < |s.hits| ==> s.hits[i].seqNo == i + 1
    ensures s.buffer == LastN(s.hits, s.limit)
  {
    hide Shows, Taken, LastN, WorkerOk;
  }

  // The buffer is the last `limit` hits of the whole run; what `get_hits` takes from it is the last of
  // them all, in ascending sequence.
  lemma RecentHitsAreLast(s: State, steps: seq<Step>, take: nat)
    requires Initial(s) && IsRun(s, steps)
    ensures var t := After(s, steps);
            && t.buffer == LastN(t.hits, s.limit)
            && LastN(t.buffer, take) == LastN(t.hits, Min(s.limit, take))
            && (forall i, j :: 0 <= i < j < |LastN(t.buffer, take)| ==>
                  LastN(t.buffer, take)[j].seqNo == LastN(t.buffer, take)[i].seqNo + (j - i))
  {
    hide After, IsRun, Initial, Inv, LastN;
    InitialInv(s);
    RunKeepsInv(s, steps);
    var t := After(s, steps);
    Numbered(t);
    LastNTwice(t.hits, s.limit, take);
    TailAscends(t.hits, Min(s.limit, take));
  }

  // ----- the shared state as the handlers and the worker update it -----

  // One whole turn of the worker.
  function Worked(s: State, now: nat, regs: Lookup, backtrace: Lookup): State
    requires s.worker.Idle? && s.queue != [] && FreshFor(regs, s.queue[0].pid) && FreshFor(backtrace, s.queue[0].pid)
  {
    Do(Do(Do(s, Receive), Make(now, regs, backtrace)), Push)
  }

  class AppState {
    const limit: nat
    const factory: HitFactory
    const maps: MapsCache
    var queue: seq<QueuedSample>
    var dropped: nat
    var hitBuffer: seq<Hit>
    ghost var offers: seq<(QueuedSample, bool)>
    ghost var lookups: seq<(Lookup, Lookup)>
    ghost var hits: seq<Hit>

    // The state between two turns of the worker.
    ghost function View(): State
      reads this, factory
    {
      State(factory.arch, limit, queue, dropped, factory.nextSeq, hitBuffer, Idle, offers, lookups, hits)
    }

    ghost predicate Valid()
      reads this, factory, maps
    {
      Inv(View()) && maps.Valid()
    }

    constructor (limit: nat, arch: Arch)
      ensures Valid() && Initial(View()) && this.limit == limit && factory.arch == arch
      ensures fresh(factory) && fresh(maps)
    {
      this.limit, queue, dropped, hitBuffer := limit, [], 0, [];
      offers, lookups, hits := [], [], [];
      factory := new HitFactory(arch);
      maps := new MapsCache();
      new;
      InitialInv(View());
    }

    // `sample_tx.try_send`, counting a failure. The worker outlives every sender.
    method Offer(sample: QueuedSample) returns (taken: bool)
      requires Valid()
      modifies this`queue, this`dropped, this`offers
      ensures Valid() && View() == Do(old(View()), Step.Offer(sample))
      ensures taken <==> |old(queue)| < 4096
      ensures queue == old(queue) + (if taken then [sample] else [])
      ensures dropped == old(dropped) + (if taken then 0 else 1)
    {
      hide Inv, LastN, Taken;
      OfferKeeps(View(), sample);
      taken := |queue| < SAMPLE_QUEUE_CAPACITY;
      offers := offers + [(sample, taken)];
      if taken {
        queue := queue + [sample];
      } else {
        dropped := dropped + 1;
      }
    }

    method PushHit(hit: Hit)
      requires |hitBuffer| <= limit
      modifies this`hitBuffer
      ensures hitBuffer == LastN(old(hitBuffer) + [hit], limit)
    {
      if limit > 0 {
        while |hitBuffer| >= limit
          invariant |hitBuffer| <= limit
          invariant hitBuffer == LastN(old(hitBuffer), |hitBuffer|)
          invariant |old(hitBuffer)| < limit ==> hitBuffer == old(hitBuffer)
          invariant |hitBuffer| >= Min(|old(hitBuffer)|, limit - 1)
          decreases |hitBuffer|
        {
          hitBuffer := hitBuffer[1..];
        }
        hitBuffer := hitBuffer + [hit];
      }
    }

    // `get_hits`: taken from the back, then turned round.
    method GetHits(query: Option<nat>) returns (result: seq<Hit>)
      ensures result == LastN(hitBuffer, query.GetOr(100))
    {
      var take := query.GetOr(100);
      var backwards: seq<Hit> := [];
      while |backwards| < take && |backwards| < |hitBuffer|
        invariant |backwards| <= Min(take, |hitBuffer|)
        invariant forall k :: 0 <= k < |backwards| ==> backwards[k] == hitBuffer[|hitBuffer| - 1 - k]
        decreases |hitBuffer| - |backwards|
      {
        backwards := backwards + [hitBuffer[|hitBuffer| - 1 - |backwards|]];
      }
      result := [];
      while |result| < |backwards|
        invariant |result| <= |backwards|
        invariant forall k :: 0 <= k < |result| ==> result[k] == backwards[|backwards| - 1 - k]
      {
        result := result + [backwards[|backwards| - 1 - |result|]];
      }
    }

    // The hit of a sample: its addresses resolved in its own pid's maps, registers first.
    method Annotate(sample: QueuedSample, now: nat, b1: Batch, b2: Batch)
      returns (hit: Hit, ghost regs: Lookup, ghost backtrace: Lookup)
      requires maps.Valid()
      modifies maps, factory
      ensures maps.Valid() && factory.nextSeq == old(factory.nextSeq) + 1
      ensures regs == BatchLookup(old(maps.inner), sample.pid, sample.data.regs, b1)
      ensures var between := BatchCache(old(maps.inner), sample.pid, sample.data.regs, b1);
              backtrace == if sample.data.backtrace.None? then Lookup(b2.now, None, None)
                           else BatchLookup(between, sample.pid, sample.data.backtrace.value, b2)
      ensures FreshFor(regs, sample.pid) && FreshFor(backtrace, sample.pid)
      ensures hit == HitOf(factory.arch, factory.nextSeq, sample.breakpointId, now, sample.data, regs, backtrace)
      ensures hit.timestampMs == now
    {
      hide BatchLookup, BatchCache, ResolveWith, MakeHit;
      regs := BatchLookup(maps.inner, sample.pid, sample.data.regs, b1);
      var regResolutions := maps.ResolveManyAddresses(sample.pid, sample.data.regs, b1);
      var frameResolutions := None;
      backtrace := Lookup(b2.now, None, None);
      if sample.data.backtrace.Some? {
        backtrace := BatchLookup(maps.inner, sample.pid, sample.data.backtrace.value, b2);
        var resolved := maps.ResolveManyAddresses(sample.pid, sample.data.backtrace.value, b2);
        frameResolutions := Some(resolved);
      }
      hit := factory.MakeHitWithMaps(sample.breakpointId, sample.data, now, regResolutions, frameResolutions);
    }

    // One turn of the worker, with the times of its calls and what their reads returned.
    method WorkOne(now: nat, b1: Batch, b2: Batch)
      returns (hit: Hit, ghost regs: Lookup, ghost backtrace: Lookup)
      requires Valid() && queue != []
      modifies this`queue, this`hitBuffer, this`lookups, this`hits, factory, maps
      ensures Valid()
      ensures FreshFor(regs, old(queue[0].pid)) && FreshFor(backtrace, old(queue[0].pid))
      ensures View() == Worked(old(View()), now, regs, backtrace)
      ensures hits == old(hits) + [hit] && hitBuffer == LastN(old(hitBuffer) + [hit], limit)
      ensures queue == old(queue)[1..] && dropped == old(dropped) && hit.timestampMs == now
    {
      hide Inv, HitOf, BatchLookup, BatchCache, LastN, FreshFor, Sound;
      ghost var before := View();
      var sample := queue[0];
      BufferFits(before);
      queue := queue[1..];
      hit, regs, backtrace := Annotate(sample, now, b1, b2);
      PushHit(hit);
      lookups := lookups + [(regs, backtrace)];
      hits := hits + [hit];
      WorkedKeeps(before, now, regs, backtrace);
    }
  }

  lemma BufferFits(s: State)
    requires Inv(s)
    ensures |s.buffer| <= s.limit
  {
    hide Shows, Taken;
  }

  lemma WorkedKeeps(s: State, now: nat, regs: Lookup, backtrace: Lookup)
    requires Inv(s) && s.worker.Idle? && s.queue != []
    requires FreshFor(regs, s.queue[0].pid) && FreshFor(backtrace, s.queue[0].pid)
    ensures Inv(Worked(s, now, regs, backtrace))
  {
    hide Inv, HitOf, LastN, FreshFor;
    StepKeepsInv(s, Receive);
    StepKeepsInv(Do(s, Receive), Make(now, regs, backtrace));
    StepKeepsInv(Do(Do(s, Receive), Make(now, regs, backtrace)), Push);
  }
}
