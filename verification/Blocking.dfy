// The limiter of src/blocking.rs: eight permits, held by a job until it ends even when its caller has
// timed out or gone away.
module Blocking {
  const MAX_IN_FLIGHT: nat := 8

  // What became of the job's caller: still waiting, told of a timeout, or gone without a reply, as when the
  // client disconnects and the request's future is dropped.
  datatype Job = Awaited | Detached | Abandoned

  datatype Reply = Finished | WorkerFailed | TimedOut | Exhausted

  // `jobs` are those not yet ended; `admitted` all that were ever given a permit, `replies` what callers
  // were told, `returned` how many permits each job has given back -- these three are history.
  datatype State = State(
    free: nat, jobs: map<nat, Job>, admitted: set<nat>, replies: map<nat, Reply>, returned: map<nat, nat>)

  datatype Step =
    | Arrive(id: nat)
    | Timeout(id: nat)
    | Drop(id: nat)
    | End(id: nat, panicked: bool)

  predicate Enabled(s: State, step: Step) {
    match step
    case Arrive(id) => id !in s.jobs && id !in s.replies && id !in s.returned
    case Timeout(id) => id in s.jobs && s.jobs[id] == Awaited
    case Drop(id) => id in s.jobs && s.jobs[id] == Awaited
    case End(id, _) => id in s.jobs
  }

  function Do(s: State, step: Step): State
    requires Enabled(s, step)
  {
    match step
    case Arrive(id) =>
      if s.free == 0 then s.(replies := s.replies[id := Exhausted])
      else s.(free := s.free - 1, jobs := s.jobs[id := Awaited], admitted := s.admitted + {id})
    case Timeout(id) => s.(jobs := s.jobs[id := Detached], replies := s.replies[id := TimedOut])
    case Drop(id) => s.(jobs := s.jobs[id := Abandoned])
    case End(id, panicked) =>
      var replies := if s.jobs[id] == Awaited then s.replies[id := if panicked then WorkerFailed else Finished]
                     else s.replies;
      var already := if id in s.returned then s.returned[id] else 0;
      s.(free := s.free + 1, jobs := s.jobs - {id}, replies := replies, returned := s.returned[id := already + 1])
  }

  ghost predicate Inv(s: State) {
    && s.free + |s.jobs| == MAX_IN_FLIGHT
    && (forall id :: id in s.admitted <==> id in s.jobs || id in s.returned)
    && (forall id :: id in s.jobs ==> id !in s.returned && (s.jobs[id] == Detached <==> id in s.replies))
    && (forall id :: id in s.jobs && s.jobs[id] == Detached ==> s.replies[id] == TimedOut)
    && (forall id :: id in s.returned ==> s.returned[id] == 1)
    && (forall id :: id in s.replies && s.replies[id] == Exhausted ==> id !in s.jobs && id !in s.returned)
  }

  predicate Initial(s: State) { s == State(MAX_IN_FLIGHT, map[], {}, map[], map[]) }

  lemma MapSizes(jobs: map<nat, Job>, id: nat, job: Job)
    ensures id !in jobs ==> |jobs[id := job]| == |jobs| + 1
    ensures id in jobs ==> |jobs[id := job]| == |jobs| && |jobs - {id}| == |jobs| - 1
  {
    assert jobs[id := job].Keys == jobs.Keys + {id};
    assert (jobs - {id}).Keys == jobs.Keys - {id};
    assert |jobs[id := job]| == |jobs[id := job].Keys|;
    assert |jobs - {id}| == |(jobs - {id}).Keys| && |jobs| == |jobs.Keys|;
  }

  lemma ArriveKeeps(s: State, id: nat)
    requires Inv(s) && Enabled(s, Arrive(id))
    ensures Inv(Do(s, Arrive(id)))
  {
    MapSizes(s.jobs, id, Awaited);
  }

  lemma TimeoutKeeps(s: State, id: nat)
    requires Inv(s) && Enabled(s, Timeout(id))
    ensures Inv(Do(s, Timeout(id)))
  {
    MapSizes(s.jobs, id, Detached);
  }

  lemma DropKeeps(s: State, id: nat)
    requires Inv(s) && Enabled(s, Drop(id))
    ensures Inv(Do(s, Drop(id)))
  {
    MapSizes(s.jobs, id, Abandoned);
  }

  lemma EndKeeps(s: State, id: nat, panicked: bool)
    requires Inv(s) && Enabled(s, End(id, panicked))
    ensures Inv(Do(s, End(id, panicked)))
  {
    MapSizes(s.jobs, id, Awaited);
  }

  lemma StepKeepsInv(s: State, step: Step)
    requires Inv(s) && Enabled(s, step)
    ensures Inv(Do(s, step))
  {
    hide Inv, Do;
    match step
    case Arrive(id) => ArriveKeeps(s, id);
    case Timeout(id) => TimeoutKeeps(s, id);
    case Drop(id) => DropKeeps(s, id);
    case End(id, panicked) => EndKeeps(s, id, panicked);
  }

  predicate IsRun(s: State, steps: seq<Step>)
    decreases |steps|
  {
    steps == [] || (Enabled(s, steps[0]) && IsRun(Do(s, steps[0]), steps[1..]))
  }

  function After(s: State, steps: seq<Step>): State
    requires IsRun(s, steps)
    decreases |steps|
  {
    if steps == [] then s else After(Do(s, steps[0]), steps[1..])
  }

  lemma {:induction false} RunKeepsInv(s: State, steps: seq<Step>)
    requires Inv(s) && IsRun(s, steps)
    ensures Inv(After(s, steps))
    decreases |steps|
  {
    hide Inv;
    if steps != [] {
      StepKeepsInv(s, steps[0]);
      RunKeepsInv(Do(s, steps[0]), steps[1..]);
    }
  }

  // In every interleaving of arrivals, timeouts, disconnects, ends and panics: free permits and unfinished
  // jobs -- whoever still waits for them -- make eight, and each ended job has given back exactly one permit.
  // Of the unfinished, those timed out and no others have their reply.
  lemma PermitsConserved(s: State, steps: seq<Step>)
    requires Initial(s) && IsRun(s, steps)
    ensures var t := After(s, steps);
            && t.free + |t.jobs| == 8
            && (forall id :: id in t.admitted <==> id in t.jobs || id in t.returned)
            && (forall id :: id in t.returned ==> t.returned[id] == 1 && id !in t.jobs)
            && (forall id :: id in t.jobs ==>
                  (t.jobs[id] == Detached <==> id in t.replies) && (id in t.replies ==> t.replies[id] == TimedOut))
  {
    hide After, IsRun;
    RunKeepsInv(s, steps);
  }

  // The next request is refused exactly when eight jobs are unfinished.
  lemma RefusedIffFull(s: State, steps: seq<Step>, id: nat)
    requires Initial(s) && IsRun(s, steps) && Enabled(After(s, steps), Arrive(id))
    ensures var t := After(s, steps);
            var u := Do(t, Arrive(id));
            && (id in u.replies && u.replies[id] == Exhausted <==> |t.jobs| == 8)
            && (id in u.jobs && u.jobs[id] == Awaited && id in u.admitted <==> |t.jobs| < 8)
  {
    hide After, IsRun;
    RunKeepsInv(s, steps);
  }

  // ----- the semaphore as `run` uses it -----

  class Limiter {
    var available: nat
    ghost var state: State

    ghost predicate Valid()
      reads this
    {
      Inv(state) && available == state.free
    }

    constructor ()
      ensures Valid() && Initial(state)
    {
      available, state := MAX_IN_FLIGHT, State(MAX_IN_FLIGHT, map[], {}, map[], map[]);
    }

    // `try_acquire_owned`; the permit goes with the job.
    method Admit(id: nat) returns (admitted: bool)
      requires Valid() && Enabled(state, Arrive(id))
      modifies this
      ensures Valid() && state == Do(old(state), Arrive(id))
      ensures admitted <==> |old(state).jobs| < 8
      ensures if admitted then id in state.jobs && id !in state.replies
              else id in state.replies && state.replies[id] == Exhausted && state.jobs == old(state).jobs
      ensures available == old(available) - (if admitted then 1 else 0)
    {
      ArriveKeeps(state, id);
      admitted := available > 0;
      state := Do(state, Arrive(id));
      if admitted {
        available := available - 1;
      }
    }

    // The caller stops waiting; the job and its permit stay.
    method Detach(id: nat)
      requires Valid() && Enabled(state, Timeout(id))
      modifies this`state
      ensures Valid() && state == Do(old(state), Timeout(id))
      ensures id in state.replies && state.replies[id] == TimedOut && state.jobs == old(state).jobs[id := Detached]
    {
      TimeoutKeeps(state, id);
      state := Do(state, Timeout(id));
    }

    // The caller is gone; the job and its permit stay.
    method Abandon(id: nat)
      requires Valid() && Enabled(state, Drop(id))
      modifies this`state
      ensures Valid() && state == Do(old(state), Drop(id))
      ensures state.replies == old(state).replies && state.jobs == old(state).jobs[id := Abandoned]
    {
      DropKeeps(state, id);
      state := Do(state, Drop(id));
    }

    // The job returns or panics, and its permit is dropped.
    method Release(id: nat, panicked: bool)
      requires Valid() && Enabled(state, End(id, panicked))
      modifies this
      ensures Valid() && state == Do(old(state), End(id, panicked))
      ensures available == old(available) + 1 <= 8 && id !in state.jobs && id in state.returned
      ensures old(state).jobs[id] == Awaited ==>
                id in state.replies && state.replies[id] == if panicked then WorkerFailed else Finished
      ensures old(state).jobs[id] != Awaited ==> state.replies == old(state).replies
    {
      EndKeeps(state, id, panicked);
      state := Do(state, End(id, panicked));
      available := available + 1;
    }
  }
}
