// The maps cache of src/maps.rs: a one-second cache shared by threads that read the file outside the
// lock. The transition system lets any number of threads interleave between the two critical sections.
module MapsProtocol {
  import opened Prelude
  import opened MapsResolve

  // Nanoseconds of a monotonic clock.
  type Time = nat
  const SECOND: Time := 1_000_000_000

  type Regions = seq<ParsedRegion>

  // What one read of /proc/<pid>/maps returned; `readAt` and `pid` are history.
  datatype Snapshot = Snapshot(pid: u32, readAt: Time, regions: Regions)

  datatype Cached = Cached(loadedAt: Time, snap: Snapshot)

  type Cache = map<u32, Cached>

  datatype Call = Call(now: Time, pid: u32, force: bool)

  // `now.duration_since(loaded_at) >= 1s`, where a later `loaded_at` counts as no time at all.
  predicate Stale(cache: Cache, call: Call) {
    call.pid in cache ==> call.now >= cache[call.pid].loadedAt + SECOND
  }

  // The first critical section: the cached snapshot, when it will do.
  function CheckCache(cache: Cache, call: Call): Option<Snapshot> {
    if !call.force && !Stale(cache, call) && call.pid in cache then Some(cache[call.pid].snap) else None
  }

  // The second: store what was read unless someone else has stored a fresh one meanwhile.
  function StoreRead(cache: Cache, call: Call, snap: Snapshot): Cache {
    if call.force || Stale(cache, call) then cache[call.pid := Cached(call.now, snap)] else cache
  }

  datatype Answer = Failed | Defaulted | Answered(snap: Snapshot)

  // What a call returns once its own read has been offered: the cache's entry, or the empty list.
  function AnswerFrom(cache: Cache, pid: u32): Answer {
    if pid in cache then Answered(cache[pid].snap) else Defaulted
  }

  function RegionsOf(answer: Answer): Option<Regions> {
    if answer.Answered? then Some(answer.snap.regions) else None
  }

  // ----- all interleavings -----

  datatype Thread =
    | Begun(call: Call)
    | Missed(call: Call)
    | HasRead(call: Call, snap: Snapshot)
    | Done(call: Call, answer: Answer)

  datatype State = State(clock: Time, cache: Cache, threads: map<nat, Thread>)

  datatype Step =
    | Tick(clock: Time)
    | Begin(id: nat, call: Call)
    | Check(id: nat)
    | Read(id: nat, regions: Option<Regions>)
    | Store(id: nat)

  predicate Enabled(s: State, step: Step) {
    match step
    case Tick(clock) => clock >= s.clock
    case Begin(id, call) => id !in s.threads && call.now <= s.clock
    case Check(id) => id in s.threads && s.threads[id].Begun?
    case Read(id, _) => id in s.threads && s.threads[id].Missed?
    case Store(id) => id in s.threads && s.threads[id].HasRead?
  }

  function Do(s: State, step: Step): State
    requires Enabled(s, step)
  {
    match step
    case Tick(clock) => s.(clock := clock)
    case Begin(id, call) => s.(threads := s.threads[id := Begun(call)])
    case Check(id) =>
      var call := s.threads[id].call;
      var hit := CheckCache(s.cache, call);
      s.(threads := s.threads[id := if hit.Some? then Done(call, Answered(hit.value)) else Missed(call)])
    case Read(id, regions) =>
      var call := s.threads[id].call;
      s.(threads := s.threads[id := if regions.Some? then HasRead(call, Snapshot(call.pid, s.clock, regions.value))
                                    else Done(call, Failed)])
    case Store(id) =>
      var call := s.threads[id].call;
      var cache := StoreRead(s.cache, call, s.threads[id].snap);
      s.(cache := cache, threads := s.threads[id := Done(call, AnswerFrom(cache, call.pid))])
  }

  // Of the same pid, and read less than a second before `now` -- not before `now` at all when forced.
  predicate Fresh(call: Call, snap: Snapshot) {
    && snap.pid == call.pid
    && snap.readAt + SECOND > call.now
    && (call.force ==> snap.readAt >= call.now)
  }

  predicate ThreadOk(clock: Time, t: Thread) {
    && t.call.now <= clock
    && (t.HasRead? ==> t.snap.pid == t.call.pid && t.call.now <= t.snap.readAt <= clock)
    && (t.Done? ==> !t.answer.Defaulted?)
    && (t.Done? && t.answer.Answered? ==> Fresh(t.call, t.answer.snap) && t.answer.snap.readAt <= clock)
  }

  // Not that `loadedAt` only grows -- a forced refresh may set it back -- but that the read behind an
  // entry never precedes it.
  predicate CacheOk(clock: Time, cache: Cache) {
    forall pid :: pid in cache ==>
      cache[pid].snap.pid == pid && cache[pid].loadedAt <= cache[pid].snap.readAt <= clock
  }

  predicate Inv(s: State) {
    CacheOk(s.clock, s.cache) && forall id :: id in s.threads ==> ThreadOk(s.clock, s.threads[id])
  }

  lemma StoreKeepsCache(clock: Time, cache: Cache, call: Call, snap: Snapshot)
    requires CacheOk(clock, cache) && snap.pid == call.pid && call.now <= snap.readAt <= clock
    ensures var after := StoreRead(cache, call, snap);
            && CacheOk(clock, after) && call.pid in after
            && Fresh(call, after[call.pid].snap)
  {}

  lemma CheckIsFresh(clock: Time, cache: Cache, call: Call)
    requires CacheOk(clock, cache) && CheckCache(cache, call).Some?
    ensures Fresh(call, CheckCache(cache, call).value)
  {}

  lemma StepKeepsInv(s: State, step: Step)
    requires Inv(s) && Enabled(s, step)
    ensures Inv(Do(s, step))
  {
    hide StoreRead, Stale;
    match step
    case Check(id) =>
      if CheckCache(s.cache, s.threads[id].call).Some? { CheckIsFresh(s.clock, s.cache, s.threads[id].call); }
    case Store(id) => StoreKeepsCache(s.clock, s.cache, s.threads[id].call, s.threads[id].snap);
    case _ =>
  }

  // The first critical section ends a call exactly when it is not forced and its pid's entry is less than a
  // second old; the answer is that entry, and no read is made.
  lemma CacheHitIff(s: State, id: nat)
    requires id in s.threads && s.threads[id].Begun?
    ensures var call := s.threads[id].call;
            var t := Do(s, Check(id)).threads[id];
            && Do(s, Check(id)).cache == s.cache
            && (t.Done?
                <==> !call.force && call.pid in s.cache && call.now < s.cache[call.pid].loadedAt + 1_000_000_000)
            && (t.Done? ==> t == Done(call, Answered(s.cache[call.pid].snap)))
            && (!t.Done? ==> t == Missed(call))
  {}

  // The second stores what was read unless such an entry has appeared meanwhile; either way the call
  // answers what the cache then holds.
  lemma StoreIff(s: State, id: nat)
    requires id in s.threads && s.threads[id].HasRead?
    ensures var call := s.threads[id].call;
            var t := Do(s, Store(id));
            var kept := !call.force && call.pid in s.cache && call.now < s.cache[call.pid].loadedAt + 1_000_000_000;
            && t.cache == (if kept then s.cache else s.cache[call.pid := Cached(call.now, s.threads[id].snap)])
            && t.threads[id] == Done(call, Answered(t.cache[call.pid].snap))
  {}

  predicate IsRun(s: State, steps: seq<Step>)
    decreases |steps|
  {
    steps == [] || (Enabled(s, steps[0]) && IsRun(Do(s, steps[0]), steps[1..]))
  }

  function After(s: State, steps: seq<Step>): State
    requires IsRun(s, steps)
    decreases |steps|
  {
    if steps == [] then s else After(Do(s, steps[0]), steps[1..])
  }

  predicate Initial(s: State) { s.cache == map[] && s.threads == map[] }

  lemma {:induction false} RunKeepsInv(s: State, steps: seq<Step>)
    requires Inv(s) && IsRun(s, steps)
    ensures Inv(After(s, steps))
    decreases |steps|
  {
    hide Inv, Enabled, Do;
    if steps != [] {
      StepKeepsInv(s, steps[0]);
      RunKeepsInv(Do(s, steps[0]), steps[1..]);
    }
  }

  // In every interleaving, a call that succeeds returns the maps of its own pid, read within the
  // second before its `now`, and at or after `now` when forced; the empty default is never returned.
  lemma Freshness(s: State, steps: seq<Step>, id: nat)
    requires Initial(s) && IsRun(s, steps)
    requires id in After(s, steps).threads && After(s, steps).threads[id].Done?
    ensures var t := After(s, steps).threads[id];
            !t.answer.Defaulted? && (t.answer.Answered? ==> Fresh(t.call, t.answer.snap))
  {
    hide After, IsRun;
    RunKeepsInv(s, steps);
  }

  // `loadedAt` goes back in one kind of step only, and then always: a forced call that began before the
  // entry's `loadedAt` stores what it read.
  lemma LoadedAtGoesBackIff(s: State, step: Step, pid: u32)
    requires Enabled(s, step) && pid in s.cache
    ensures pid in Do(s, step).cache
    ensures Do(s, step).cache[pid].loadedAt < s.cache[pid].loadedAt
            <==> step.Store? && var call := s.threads[step.id].call;
                 call.pid == pid && call.force && call.now < s.cache[pid].loadedAt
  {}

  // It happens: of two forced calls, both past their read, the one that began later stores first.
  lemma LoadedAtMayGoBack(pid: u32, older: Time, newer: Time) returns (s: State, steps: seq<Step>)
    requires older < newer
    ensures Initial(s) && IsRun(s, steps)
    ensures var t := After(s, steps);
            && Enabled(t, Store(1)) && pid in t.cache && t.cache[pid].loadedAt == newer
            && Do(t, Store(1)).cache[pid].loadedAt == older
  {
    var first, second := Call(older, pid, true), Call(newer, pid, true);
    s := State(newer, map[], map[]);
    var reading := BothRead(s, first, second);
    RunExtended(s, reading, Store(2));
    steps := reading + [Store(2)];
  }

  lemma {:induction false} RunExtended(s: State, steps: seq<Step>, step: Step)
    requires IsRun(s, steps) && Enabled(After(s, steps), step)
    ensures IsRun(s, steps + [step]) && After(s, steps + [step]) == Do(After(s, steps), step)
    decreases |steps|
  {
    hide Enabled, Do;
    if steps == [] {
      assert (steps + [step])[1..] == [];
    } else {
      assert (steps + [step])[1..] == steps[1..] + [step];
      RunExtended(Do(s, steps[0]), steps[1..], step);
    }
  }

  // Two forced calls begin, check and read before either stores.
  lemma BothRead(s: State, first: Call, second: Call) returns (steps: seq<Step>)
    requires Initial(s) && first.force && second.force && first.now <= s.clock && second.now <= s.clock
    ensures IsRun(s, steps)
    ensures var t := After(s, steps);
            && t.cache == map[] && 1 in t.threads && 2 in t.threads
            && t.threads[1] == HasRead(first, Snapshot(first.pid, s.clock, []))
            && t.threads[2] == HasRead(second, Snapshot(second.pid, s.clock, []))
  {
    hide IsRun, After;
    steps := [];
    NoSteps(s);
    RunExtended(s, [], Begin(1, first));
    RunExtended(s, [] + [Begin(1, first)], Begin(2, second));
    steps := [] + [Begin(1, first)] + [Begin(2, second)];
    RunExtended(s, steps, Check(1));
    RunExtended(s, steps + [Check(1)], Check(2));
    steps := steps + [Check(1)] + [Check(2)];
    RunExtended(s, steps, Read(1, Some([])));
    RunExtended(s, steps + [Read(1, Some([]))], Read(2, Some([])));
    steps := steps + [Read(1, Some([]))] + [Read(2, Some([]))];
  }

  lemma NoSteps(s: State)
    ensures IsRun(s, []) && After(s, []) == s
  {}

  // ----- reads that agree -----

  // Every successful read of `pid` in the run returns `regions`.
  predicate ReadsAgree(s: State, steps: seq<Step>, pid: u32, regions: Regions)
    requires IsRun(s, steps)
    decreases |steps|
  {
    steps == [] || (StepAgrees(s, steps[0], pid, regions) && ReadsAgree(Do(s, steps[0]), steps[1..], pid, regions))
  }

  predicate StepAgrees(s: State, step: Step, pid: u32, regions: Regions)
    requires Enabled(s, step)
  {
    step.Read? && s.threads[step.id].call.pid == pid && step.regions.Some? ==> step.regions.value == regions
  }

  predicate Agreed(s: State, pid: u32, regions: Regions) {
    && (pid in s.cache ==> s.cache[pid].snap.regions == regions)
    && forall id :: id in s.threads && s.threads[id].call.pid == pid ==>
         && (s.threads[id].HasRead? ==> s.threads[id].snap.regions == regions)
         && (s.threads[id].Done? && s.threads[id].answer.Answered? ==> s.threads[id].answer.snap.regions == regions)
  }

  lemma StepKeepsAgreed(s: State, step: Step, pid: u32, regions: Regions)
    requires Agreed(s, pid, regions) && Enabled(s, step) && StepAgrees(s, step, pid, regions)
    ensures Agreed(Do(s, step), pid, regions)
  {
    hide Stale;
  }

  lemma {:induction false} RunKeepsAgreed(s: State, steps: seq<Step>, pid: u32, regions: Regions)
    requires Agreed(s, pid, regions) && IsRun(s, steps) && ReadsAgree(s, steps, pid, regions)
    ensures Agreed(After(s, steps), pid, regions)
    decreases |steps|
  {
    hide Agreed, Enabled, Do, StepAgrees;
    if steps != [] {
      StepKeepsAgreed(s, steps[0], pid, regions);
      RunKeepsAgreed(Do(s, steps[0]), steps[1..], pid, regions);
    }
  }

  // If every read of a pid returns the same regions, so does every successful call, cached or not.
  lemma AgreeingReads(s: State, steps: seq<Step>, pid: u32, regions: Regions, id: nat)
    requires Initial(s) && IsRun(s, steps) && ReadsAgree(s, steps, pid, regions)
    requires id in After(s, steps).threads && After(s, steps).threads[id].Done?
    requires After(s, steps).threads[id].call.pid == pid && After(s, steps).threads[id].answer.Answered?
    ensures After(s, steps).threads[id].answer.snap.regions == regions
  {
    hide After, IsRun, ReadsAgree;
    RunKeepsAgreed(s, steps, pid, regions);
  }
}
