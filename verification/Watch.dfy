// The driver watch of src/watch.rs: breakpoints are created, polled in rounds until the watch is
// cancelled or ten rounds in a row fail, and removed.
module Watch {
  import opened Prelude
  import opened Text
  import opened Registers
  import opened FilterParser
  import opened FilterMeaning
  import opened FilterText

  const BT_MAX: nat := 32
  const MAX_FAILED_ROUNDS: nat := 10

  // Register state after the hit: x0..x30, and the vector registers (src/lk1337.rs:36-44).
  datatype SnapshotData = Snapshot(regs: seq<u64>, sp: u64, pc: u64, vregs: seq<(u64, u64)>)
  type Snapshot = s: SnapshotData | |s.regs| == 31 && |s.vregs| == 32
    witness Snapshot(seq(31, _ => 0), 0, 0, seq(32, _ => (0, 0)))

  datatype DriverHitData = DriverHit(pid: u32, tid: u32, after: Snapshot, btCount: u32, backtrace: seq<u64>)
  type DriverHit = h: DriverHitData | |h.backtrace| == BT_MAX
    witness DriverHit(0, 0, Snapshot(seq(31, _ => 0), 0, 0, seq(32, _ => (0, 0))), 0, seq(BT_MAX, _ => 0))

  function ToSample(hit: DriverHit): SampleData {
    var count := if hit.btCount < BT_MAX then hit.btCount else BT_MAX;
    SampleData(hit.pid, hit.tid,
               hit.after.regs + [hit.after.sp, hit.after.pc],
               if count > 0 then Some(hit.backtrace[..count]) else None,
               hit.after.vregs)
  }

  // One poll: the hits, or a failed ioctl.
  type PollResult = Option<seq<DriverHit>>

  datatype Event = Created(tid: u32, answer: Option<int>) | Polled(id: int, result: PollResult) | Removed(id: int)

  // The kernel driver: its answers are arbitrary, its log records what was asked of it.
  class Driver {
    var log: seq<Event>

    constructor ()
      ensures log == []
    {
      log := [];
    }

    method Create(tid: u32) returns (id: Option<int>)
      modifies this
      ensures log == old(log) + [Created(tid, id)]
    {
      id := *;
      log := log + [Created(tid, id)];
    }

    method Hits(id: int) returns (result: PollResult)
      modifies this
      ensures log == old(log) + [Polled(id, result)]
    {
      result := *;
      log := log + [Polled(id, result)];
    }

    method Remove(id: int)
      modifies this
      ensures log == old(log) + [Removed(id)]
    {
      log := log + [Removed(id)];
    }
  }

  // ----- what a run logs and delivers -----

  function CreateEvents(tids: seq<u32>, answers: seq<Option<int>>): (r: seq<Event>)
    requires |tids| == |answers|
    ensures |r| == |tids|
  {
    seq(|tids|, i requires 0 <= i < |tids| => Created(tids[i], answers[i]))
  }

  // The ids of the breakpoints that were created, in order.
  function CreatedIds(answers: seq<Option<int>>): (ids: seq<int>)
    ensures |ids| <= |answers|
  {
    if answers == [] then []
    else CreatedIds(answers[..|answers| - 1])
         + (if answers[|answers| - 1].Some? then [answers[|answers| - 1].value] else [])
  }

  function RoundEvents(ids: seq<int>, results: seq<PollResult>): (r: seq<Event>)
    requires |results| <= |ids|
    ensures |r| == |results|
  {
    seq(|results|, i requires 0 <= i < |results| => Polled(ids[i], results[i]))
  }

  predicate FullRounds(ids: seq<int>, rounds: seq<seq<PollResult>>) {
    forall j :: 0 <= j < |rounds| ==> |rounds[j]| == |ids|
  }

  function PollEvents(ids: seq<int>, rounds: seq<seq<PollResult>>): seq<Event>
    requires FullRounds(ids, rounds)
  {
    if rounds == [] then []
    else PollEvents(ids, rounds[..|rounds| - 1]) + RoundEvents(ids, rounds[|rounds| - 1])
  }

  function RemoveEvents(ids: seq<int>): (r: seq<Event>)
    ensures |r| == |ids|
  {
    seq(|ids|, i requires 0 <= i < |ids| => Removed(ids[i]))
  }

  predicate AllFailed(results: seq<PollResult>) { forall i :: 0 <= i < |results| ==> results[i].None? }

  // Length of the trailing run of all-failing rounds.
  function FailStreak(rounds: seq<seq<PollResult>>): (n: nat)
    ensures n <= |rounds|
  {
    if rounds == [] || !AllFailed(rounds[|rounds| - 1]) then 0 else FailStreak(rounds[..|rounds| - 1]) + 1
  }

  // No earlier round had reached the limit.
  predicate NeverBefore(rounds: seq<seq<PollResult>>) {
    forall j :: 0 <= j < |rounds| ==> FailStreak(rounds[..j]) < MAX_FAILED_ROUNDS
  }

  function SamplesOfHits(hits: seq<DriverHit>): (r: seq<SampleData>)
    ensures |r| == |hits|
  {
    seq(|hits|, i requires 0 <= i < |hits| => ToSample(hits[i]))
  }

  function SamplesOfRound(results: seq<PollResult>): seq<SampleData> {
    if results == [] then []
    else SamplesOfRound(results[..|results| - 1])
         + (if results[|results| - 1].Some? then SamplesOfHits(results[|results| - 1].value) else [])
  }

  function SamplesOf(rounds: seq<seq<PollResult>>): seq<SampleData> {
    if rounds == [] then [] else SamplesOf(rounds[..|rounds| - 1]) + SamplesOfRound(rounds[|rounds| - 1])
  }

  type Filter = Option<seq<seq<Predicate>>>

  predicate Passes(filter: Filter, s: SampleData) { filter.None? || Matches(filter.value, s.regs) }

  // The samples the filter lets through, in order.
  function Kept(filter: Filter, samples: seq<SampleData>): seq<SampleData> {
    if samples == [] then []
    else Kept(filter, samples[..|samples| - 1])
         + (if Passes(filter, samples[|samples| - 1]) then [samples[|samples| - 1]] else [])
  }

  lemma {:induction false} KeptConcat(filter: Filter, a: seq<SampleData>, b: seq<SampleData>)
    ensures Kept(filter, a + b) == Kept(filter, a) + Kept(filter, b)
    decreases |b|
  {
    hide Passes;
    if b == [] {
      assert a + b == a;
    } else {
      var c := b[..|b| - 1];
      assert (a + b)[..|a + b| - 1] == a + c;
      KeptConcat(filter, a, c);
      var last := if Passes(filter, b[|b| - 1]) then [b[|b| - 1]] else [];
      ConcatAssociative(Kept(filter, a), Kept(filter, c), last);
    }
  }

  // ----- the watch -----

  method CreateAll(driver: Driver, tids: seq<u32>) returns (breakpoints: seq<int>, ghost answers: seq<Option<int>>)
    modifies driver
    ensures |answers| == |tids| && breakpoints == CreatedIds(answers)
    ensures driver.log == old(driver.log) + CreateEvents(tids, answers)
  {
    breakpoints, answers := [], [];
    for i := 0 to |tids|
      invariant |answers| == i && breakpoints == CreatedIds(answers)
      invariant driver.log == old(driver.log) + CreateEvents(tids[..i], answers)
    {
      var id := driver.Create(tids[i]);
      if id.Some? {
        breakpoints := breakpoints + [id.value];
      }
      assert (answers + [id])[..i] == answers;
      assert CreateEvents(tids[..i + 1], answers + [id]) == CreateEvents(tids[..i], answers) + [Created(tids[i], id)];
      answers := answers + [id];
    }
    assert tids[..|tids|] == tids;
  }

  method DeliverHits(filter: Filter, hits: seq<DriverHit>) returns (delivered: seq<SampleData>)
    ensures delivered == Kept(filter, SamplesOfHits(hits))
  {
    delivered := [];
    for i := 0 to |hits|
      invariant delivered == Kept(filter, SamplesOfHits(hits)[..i])
    {
      var data := ToSample(hits[i]);
      assert SamplesOfHits(hits)[..i + 1][..i] == SamplesOfHits(hits)[..i];
      if filter.None? || Matches(filter.value, data.regs) {
        delivered := delivered + [data];
      }
    }
    assert SamplesOfHits(hits)[..|hits|] == SamplesOfHits(hits);
  }

  lemma NothingPolled(filter: Filter, ids: seq<int>)
    ensures AllFailed([]) && RoundEvents(ids, []) == [] && Kept(filter, SamplesOfRound([])) == []
  {}

  // One pass over the breakpoints.
  method PollRound(driver: Driver, breakpoints: seq<int>, filter: Filter)
    returns (pollFailed: nat, delivered: seq<SampleData>, ghost results: seq<PollResult>)
    modifies driver
    ensures |results| == |breakpoints| && driver.log == old(driver.log) + RoundEvents(breakpoints, results)
    ensures pollFailed <= |breakpoints| && (pollFailed == |breakpoints| <==> AllFailed(results))
    ensures delivered == Kept(filter, SamplesOfRound(results))
  {
    hide SamplesOfRound, SamplesOfHits, Kept, AllFailed, RoundEvents;
    NothingPolled(filter, breakpoints);
    pollFailed, delivered, results := 0, [], [];
    for i := 0 to |breakpoints|
      invariant |results| == i && driver.log == old(driver.log) + RoundEvents(breakpoints, results)
      invariant pollFailed <= i && (pollFailed == i <==> AllFailed(results))
      invariant delivered == Kept(filter, SamplesOfRound(results))
    {
      var result := driver.Hits(breakpoints[i]);
      if result.Some? {
        var passed := DeliverHits(filter, result.value);
        KeptConcat(filter, SamplesOfRound(results), SamplesOfHits(result.value));
        delivered := delivered + passed;
      } else {
        assert SamplesOfRound(results) + [] == SamplesOfRound(results);
        pollFailed := pollFailed + 1;
      }
      RoundExtended(breakpoints, results, result);
      results := results + [result];
    }
  }

  lemma RoundExtended(ids: seq<int>, results: seq<PollResult>, result: PollResult)
    requires |results| < |ids|
    ensures RoundEvents(ids, results + [result]) == RoundEvents(ids, results) + [Polled(ids[|results|], result)]
    ensures AllFailed(results + [result]) <==> AllFailed(results) && result.None?
    ensures SamplesOfRound(results + [result])
            == SamplesOfRound(results) + (if result.Some? then SamplesOfHits(result.value) else [])
  {
    hide SamplesOfHits;
    EventsExtended(ids, results, result);
    FailuresExtended(results, result);
    var more := results + [result];
    assert more[..|more| - 1] == results;
  }

  lemma EventsExtended(ids: seq<int>, results: seq<PollResult>, result: PollResult)
    requires |results| < |ids|
    ensures RoundEvents(ids, results + [result]) == RoundEvents(ids, results) + [Polled(ids[|results|], result)]
  {}

  lemma FailuresExtended(results: seq<PollResult>, result: PollResult)
    ensures AllFailed(results + [result]) <==> AllFailed(results) && result.None?
  {
    var more := results + [result];
    assert more[|results|] == result;
    forall i | 0 <= i < |results| ensures more[i] == results[i] {}
  }

  lemma RoundsExtended(ids: seq<int>, rounds: seq<seq<PollResult>>, results: seq<PollResult>)
    requires FullRounds(ids, rounds) && |results| == |ids|
    ensures FullRounds(ids, rounds + [results])
    ensures PollEvents(ids, rounds + [results]) == PollEvents(ids, rounds) + RoundEvents(ids, results)
    ensures SamplesOf(rounds + [results]) == SamplesOf(rounds) + SamplesOfRound(results)
    ensures FailStreak(rounds + [results]) == if AllFailed(results) then FailStreak(rounds) + 1 else 0
  {
    hide RoundEvents, SamplesOfRound, AllFailed;
    var more := rounds + [results];
    assert more[..|more| - 1] == rounds && more[|rounds|] == results;
  }

  lemma NoRounds(filter: Filter, ids: seq<int>)
    ensures FullRounds(ids, []) && PollEvents(ids, []) == [] && Kept(filter, SamplesOf([])) == []
    ensures FailStreak([]) == 0 && NeverBefore([])
  {}

  // The polling thread. `cancelAt` is the number of rounds at whose start the flag is still unset.
  method PollLoop(driver: Driver, breakpoints: seq<int>, filter: Filter, cancelAt: nat)
    returns (gaveUp: bool, delivered: seq<SampleData>, ghost rounds: seq<seq<PollResult>>)
    modifies driver
    ensures FullRounds(breakpoints, rounds) && |rounds| <= cancelAt
    ensures driver.log == old(driver.log) + PollEvents(breakpoints, rounds)
    ensures delivered == Kept(filter, SamplesOf(rounds))
    ensures gaveUp <==> FailStreak(rounds) >= MAX_FAILED_ROUNDS
    ensures !gaveUp ==> |rounds| == cancelAt
    ensures NeverBefore(rounds)
  {
    hide Kept, PollEvents, SamplesOf, FailStreak, RoundEvents, SamplesOfRound, AllFailed, FullRounds, NeverBefore;
    NoRounds(filter, breakpoints);
    var consecutiveErrors, round := 0, 0;
    gaveUp, delivered, rounds := false, [], [];
    while round < cancelAt
      invariant round == |rounds| <= cancelAt && FullRounds(breakpoints, rounds)
      invariant driver.log == old(driver.log) + PollEvents(breakpoints, rounds)
      invariant delivered == Kept(filter, SamplesOf(rounds))
      invariant consecutiveErrors == FailStreak(rounds) && consecutiveErrors < MAX_FAILED_ROUNDS
      invariant NeverBefore(rounds)
    {
      var pollFailed, passed, results := PollRound(driver, breakpoints, filter);
      RoundsExtended(breakpoints, rounds, results);
      KeptConcat(filter, SamplesOf(rounds), SamplesOfRound(results));
      NotBeforeThis(rounds, results);
      rounds := rounds + [results];
      round := round + 1;
      delivered := delivered + passed;
      consecutiveErrors := if pollFailed == |breakpoints| then consecutiveErrors + 1 else 0;
      if consecutiveErrors >= MAX_FAILED_ROUNDS {
        gaveUp := true;
        break;
      }
    }
  }

  lemma NotBeforeThis(rounds: seq<seq<PollResult>>, results: seq<PollResult>)
    requires NeverBefore(rounds) && FailStreak(rounds) < MAX_FAILED_ROUNDS
    ensures NeverBefore(rounds + [results])
  {
    hide FailStreak;
    var more := rounds + [results];
    forall j | 0 <= j < |more| ensures FailStreak(more[..j]) < MAX_FAILED_ROUNDS {
      assert more[..j] == rounds[..j];
      assert j == |rounds| ==> rounds[..j] == rounds;
    }
  }

  method RemoveAll(driver: Driver, breakpoints: seq<int>)
    modifies driver
    ensures driver.log == old(driver.log) + RemoveEvents(breakpoints)
  {
    for i := 0 to |breakpoints|
      invariant driver.log == old(driver.log) + RemoveEvents(breakpoints)[..i]
    {
      driver.Remove(breakpoints[i]);
      assert RemoveEvents(breakpoints)[..i + 1] == RemoveEvents(breakpoints)[..i] + [Removed(breakpoints[i])];
    }
    assert RemoveEvents(breakpoints)[..|breakpoints|] == RemoveEvents(breakpoints);
  }

  datatype WatchError = NoThreads | NoBreakpoints

  // How a watch ended and what it handed on.
  datatype Outcome = Outcome(gaveUp: bool, delivered: seq<SampleData>)

  // `start_driver_watch`, up to the end of the thread it starts. `answers` and `rounds` name the
  // driver's answers, whatever they were.
  method DriverWatch(driver: Driver, tids: seq<u32>, filter: Filter, cancelAt: nat)
    returns (r: Result<Outcome, WatchError>, ghost answers: seq<Option<int>>, ghost rounds: seq<seq<PollResult>>)
    modifies driver
    ensures r == Err(NoThreads) <==> tids == []
    ensures tids == [] ==> driver.log == old(driver.log)
    ensures r == Err(NoBreakpoints) <==> tids != [] && CreatedIds(answers) == []
    ensures tids != [] ==> |answers| == |tids|
    ensures r == Err(NoBreakpoints) ==> driver.log == old(driver.log) + CreateEvents(tids, answers)
    ensures r.Ok? ==>
              && FullRounds(CreatedIds(answers), rounds)
              && driver.log == old(driver.log) + CreateEvents(tids, answers)
                               + PollEvents(CreatedIds(answers), rounds) + RemoveEvents(CreatedIds(answers))
              && r.value.delivered == Kept(filter, SamplesOf(rounds))
              && (r.value.gaveUp <==> FailStreak(rounds) >= MAX_FAILED_ROUNDS)
              && (!r.value.gaveUp ==> |rounds| == cancelAt) && |rounds| <= cancelAt
              && NeverBefore(rounds)
  {
    hide CreateEvents, PollEvents, RemoveEvents, CreatedIds, FailStreak, Kept, SamplesOf;
    answers, rounds := [], [];
    if tids == [] {
      r := Err(NoThreads);
      return;
    }
    var breakpoints;
    breakpoints, answers := CreateAll(driver, tids);
    if breakpoints == [] {
      r := Err(NoBreakpoints);
      return;
    }
    var gaveUp, delivered;
    gaveUp, delivered, rounds := PollLoop(driver, breakpoints, filter, cancelAt);
    RemoveAll(driver, breakpoints);
    r := Ok(Outcome(gaveUp, delivered));
  }

  // ----- what that log means -----

  // The streak is at least `k` exactly when the last `k` rounds all failed for every breakpoint.
  lemma {:induction false} StreakIsTrailing(rounds: seq<seq<PollResult>>, k: nat)
    ensures FailStreak(rounds) >= k
            <==> k <= |rounds| && forall j :: |rounds| - k <= j < |rounds| ==> AllFailed(rounds[j])
  {
    hide AllFailed;
    if rounds != [] && k > 0 {
      var front := rounds[..|rounds| - 1];
      StreakIsTrailing(front, k - 1);
      if AllFailed(rounds[|rounds| - 1]) && k <= |rounds| {
        if forall j :: |front| - (k - 1) <= j < |front| ==> AllFailed(front[j]) {
          forall j | |rounds| - k <= j < |rounds| ensures AllFailed(rounds[j]) {
            if j < |front| { assert front[j] == rounds[j]; }
          }
        }
        if forall j :: |rounds| - k <= j < |rounds| ==> AllFailed(rounds[j]) {
          forall j | |front| - (k - 1) <= j < |front| ensures AllFailed(front[j]) { assert front[j] == rounds[j]; }
        }
      }
    }
  }

  // The watch gives up on the tenth all-failing round in a row, never later.
  lemma GivesUpOnTheTenth(rounds: seq<seq<PollResult>>)
    requires FailStreak(rounds) >= MAX_FAILED_ROUNDS
    requires NeverBefore(rounds)
    ensures FailStreak(rounds) == 10 <= |rounds|
    ensures forall j :: |rounds| - 10 <= j < |rounds| ==> AllFailed(rounds[j])
    ensures |rounds| > 10 ==> !AllFailed(rounds[|rounds| - 11])
  {
    hide AllFailed;
    StreakIsTrailing(rounds, MAX_FAILED_ROUNDS);
    StreakIsTrailing(rounds, MAX_FAILED_ROUNDS + 1);
    assert FailStreak(rounds) == FailStreak(rounds[..|rounds| - 1]) + 1;
    if |rounds| > MAX_FAILED_ROUNDS {
      var j :| |rounds| - (MAX_FAILED_ROUNDS + 1) <= j < |rounds| && !AllFailed(rounds[j]);
      assert j == |rounds| - MAX_FAILED_ROUNDS - 1;
    }
  }

  function CountRemoved(log: seq<Event>, id: int): nat {
    if log == [] then 0
    else CountRemoved(log[..|log| - 1], id) + (if log[|log| - 1] == Removed(id) then 1 else 0)
  }

  lemma {:induction false} CountRemovedConcat(a: seq<Event>, b: seq<Event>, id: int)
    ensures CountRemoved(a + b, id) == CountRemoved(a, id) + CountRemoved(b, id)
    decreases |b|
  {
    if b == [] {
      assert a + b == a;
    } else {
      assert (a + b)[..|a + b| - 1] == a + b[..|b| - 1];
      CountRemovedConcat(a, b[..|b| - 1], id);
    }
  }

  lemma {:induction false} NoneRemoved(log: seq<Event>, id: int)
    requires forall k :: 0 <= k < |log| ==> !log[k].Removed?
    ensures CountRemoved(log, id) == 0
  {
    if log != [] { NoneRemoved(log[..|log| - 1], id); }
  }

  lemma {:induction false} RemovedAsListed(ids: seq<int>, id: int)
    ensures CountRemoved(RemoveEvents(ids), id) == multiset(ids)[id]
  {
    if ids != [] {
      var front := ids[..|ids| - 1];
      assert RemoveEvents(ids)[..|ids| - 1] == RemoveEvents(front);
      RemovedAsListed(front, id);
      assert ids == front + [ids[|ids| - 1]];
    }
  }

  predicate OnlyPolls(log: seq<Event>, ids: seq<int>) {
    forall k :: 0 <= k < |log| ==> log[k].Polled? && log[k].id in ids
  }

  lemma {:induction false} PollEventsOnlyPoll(ids: seq<int>, rounds: seq<seq<PollResult>>)
    requires FullRounds(ids, rounds)
    ensures OnlyPolls(PollEvents(ids, rounds), ids)
  {
    if rounds != [] { PollEventsOnlyPoll(ids, rounds[..|rounds| - 1]); }
  }

  // The breakpoints of the watch are the ids the creates answered, each as often.
  lemma {:induction false} CreatedIdsAreAnswers(answers: seq<Option<int>>, id: int)
    ensures multiset(CreatedIds(answers))[id] == multiset(answers)[Some(id)]
  {
    if answers != [] {
      CreatedIdsAreAnswers(answers[..|answers| - 1], id);
      assert answers == answers[..|answers| - 1] + [answers[|answers| - 1]];
    }
  }

  // Each created breakpoint is removed once, after every poll; nothing else is polled or removed.
  lemma LifecycleOfBreakpoints(tids: seq<u32>, answers: seq<Option<int>>, rounds: seq<seq<PollResult>>, id: int)
    requires |tids| == |answers| && FullRounds(CreatedIds(answers), rounds)
    ensures var ids := CreatedIds(answers);
            var before := CreateEvents(tids, answers) + PollEvents(ids, rounds);
            && OnlyPolls(PollEvents(ids, rounds), ids)
            && (id in ids <==> Some(id) in answers)
            && CountRemoved(before, id) == 0
            && CountRemoved(before + RemoveEvents(ids), id) == multiset(answers)[Some(id)]
  {
    var ids := CreatedIds(answers);
    var polls := PollEvents(ids, rounds);
    hide CountRemoved, PollEvents, CreatedIds;
    CreatedIdsAreAnswers(answers, id);
    assert id in ids <==> id in multiset(ids);
    assert Some(id) in answers <==> Some(id) in multiset(answers);
    PollEventsOnlyPoll(ids, rounds);
    NoneRemoved(CreateEvents(tids, answers), id);
    NoneRemoved(polls, id);
    CountRemovedConcat(CreateEvents(tids, answers), polls, id);
    CountRemovedConcat(CreateEvents(tids, answers) + polls, RemoveEvents(ids), id);
    RemovedAsListed(ids, id);
  }

  // ----- filter and sample agree (aarch64, the driver's architecture) -----

  // What a sample holds under the name a filter, or a reader of the hit, uses for it.
  function ValueNamed(s: SampleData, name: string): Option<u64> { Lookup(Named(Aarch64, s.regs), name, 0) }

  lemma NamedByIndex(s: SampleData, i: nat)
    requires i < 33 == |s.regs|
    ensures ValueNamed(s, IdToStr(Aarch64, i)) == Some(s.regs[i])
  {
    hide IdToStr, Lookup, Named, FindReg;
    NameFindsReg(Aarch64, i, IdToStr(Aarch64, i));
    LookupByIndex(Aarch64, s.regs, IdToStr(Aarch64, i), 0);
  }

  // A sample shows the driver's snapshot: each register under its own name, the vector registers, the
  // thread, and the frames there are, 32 at most.
  lemma SampleShowsHit(hit: DriverHit)
    ensures var s := ToSample(hit);
            && s.pid == hit.pid && s.tid == hit.tid && s.simd == hit.after.vregs
            && (forall i :: 0 <= i < 29 ==> ValueNamed(s, "x" + Decimal(i)) == Some(hit.after.regs[i]))
            && ValueNamed(s, "fp") == Some(hit.after.regs[29]) && ValueNamed(s, "lr") == Some(hit.after.regs[30])
            && ValueNamed(s, "sp") == Some(hit.after.sp) && ValueNamed(s, "pc") == Some(hit.after.pc)
  {
    hide ValueNamed, Decimal;
    var s := ToSample(hit);
    forall i | 0 <= i < 29 ensures ValueNamed(s, "x" + Decimal(i)) == Some(hit.after.regs[i]) {
      NumberedNames(i);
      NamedByIndex(s, i);
    }
    NamedByIndex(s, 29);
    NamedByIndex(s, 30);
    NamedByIndex(s, 31);
    NamedByIndex(s, 32);
  }

  lemma SampleShowsFrames(hit: DriverHit)
    ensures var s := ToSample(hit);
            && (s.backtrace.None? <==> hit.btCount == 0)
            && (s.backtrace.Some? ==>
                  && |s.backtrace.value| == Min(hit.btCount, 32)
                  && forall k :: 0 <= k < |s.backtrace.value| ==> s.backtrace.value[k] == hit.backtrace[k])
  {}

  // A sample has a value for every register a parsed filter can name, in the filter's own order.
  lemma SampleHasFilterRegs(hit: DriverHit, ts: seq<string>)
    requires ParseTokens(Aarch64, ts).Ok?
    ensures |ToSample(hit).regs| == RegsCount(Aarch64)
    ensures var groups: seq<seq<Predicate>> := ParseTokens(Aarch64, ts).value;
            forall i, j :: 0 <= i < |groups| && 0 <= j < |groups[i]| ==> groups[i][j].reg < |ToSample(hit).regs|
    ensures Passes(Some(ParseTokens(Aarch64, ts).value), ToSample(hit))
            <==> Truth(Named(Aarch64, ToSample(hit).regs), ts)
  {
    hide ParseTokens, Matches, Truth, Named, PrintFilter;
    ParsedIsPrintable(Aarch64, ts);
    MatchesIsTruth(Aarch64, ts, ToSample(hit).regs);
    var groups: seq<seq<Predicate>> := ParseTokens(Aarch64, ts).value;
    forall i, j | 0 <= i < |groups| && 0 <= j < |groups[i]| ensures groups[i][j].reg < RegsCount(Aarch64) {
      assert PrintableGroup(Aarch64, groups[i]);
    }
  }

  // The samples whose registers make the filter's text true, in order.
  ghost function KeptByText(ts: seq<string>, samples: seq<SampleData>): seq<SampleData> {
    if samples == [] then []
    else
      var last := samples[|samples| - 1];
      KeptByText(ts, samples[..|samples| - 1]) + (if Truth(Named(Aarch64, last.regs), ts) then [last] else [])
  }

  // What a watch delivers is what its filter text says of the samples polled.
  lemma {:induction false} DeliveredByText(ts: seq<string>, samples: seq<SampleData>)
    requires ParseTokens(Aarch64, ts).Ok?
    ensures Kept(Some(ParseTokens(Aarch64, ts).value), samples) == KeptByText(ts, samples)
  {
    hide ParseTokens, Matches, Truth, Named;
    if samples != [] {
      DeliveredByText(ts, samples[..|samples| - 1]);
      MatchesIsTruth(Aarch64, ts, samples[|samples| - 1].regs);
    }
  }
}
