// The breakpoint registry of src/server.rs: ids from a shared counter, entries inserted once their
// watch has started, removed by delete, and listed in id order.
module Registry {
  import opened Prelude

  datatype View = View(id: nat, pid: u32, typeName: string, addr: string, threads: seq<u32>)

  // ----- listing -----

  predicate Ascending(views: seq<View>) { forall i, j :: 0 <= i < j < |views| ==> views[i].id < views[j].id }

  predicate KeyedById(live: map<nat, View>) { forall id :: id in live ==> live[id].id == id }

  // `views` shows exactly the live entries.
  ghost predicate Shows(views: seq<View>, live: map<nat, View>) {
    forall v :: v in views <==> v.id in live && live[v.id] == v
  }

  lemma LastIsGreatest(views: seq<View>, v: View)
    requires Ascending(views) && v in views
    ensures v.id <= views[|views| - 1].id
  {}

  lemma LastIsShared(a: seq<View>, b: seq<View>, live: map<nat, View>)
    requires Ascending(a) && Ascending(b) && Shows(a, live) && Shows(b, live) && a != []
    ensures b != [] && a[|a| - 1] == b[|b| - 1]
  {
    var last := a[|a| - 1];
    assert last in a && last in b;
    assert b[|b| - 1] in b && b[|b| - 1] in a;
    LastIsGreatest(a, b[|b| - 1]);
    LastIsGreatest(b, last);
  }

  lemma WithoutLast(a: seq<View>, live: map<nat, View>)
    requires Ascending(a) && Shows(a, live) && a != []
    ensures Ascending(a[..|a| - 1]) && Shows(a[..|a| - 1], live - {a[|a| - 1].id})
  {
    var front, last := a[..|a| - 1], a[|a| - 1];
    assert a == front + [last];
    forall v ensures v in front <==> v in a && v.id != last.id {
      if v in front {
        var i :| 0 <= i < |front| && front[i] == v;
        assert a[i].id < last.id;
      }
    }
    assert last in a;
  }

  // There is only one ascending listing, whatever order the map was walked in.
  lemma {:induction false} ListingUnique(a: seq<View>, b: seq<View>, live: map<nat, View>)
    requires Ascending(a) && Ascending(b) && Shows(a, live) && Shows(b, live)
    ensures a == b
    decreases |a|
  {
    hide Shows, Ascending;
    if a == [] {
      if b != [] { LastIsShared(b, a, live); }
    } else {
      LastIsShared(a, b, live);
      WithoutLast(a, live);
      WithoutLast(b, live);
      ListingUnique(a[..|a| - 1], b[..|b| - 1], live - {a[|a| - 1].id});
      assert a == a[..|a| - 1] + [a[|a| - 1]] && b == b[..|b| - 1] + [b[|b| - 1]];
    }
  }

  // Where a view belongs in an ascending list: sorting by key, one insertion.
  method InsertById(sorted: seq<View>, view: View) returns (r: seq<View>)
    requires Ascending(sorted) && forall v :: v in sorted ==> v.id != view.id
    ensures Ascending(r) && |r| == |sorted| + 1
    ensures forall v :: v in r <==> v == view || v in sorted
  {
    var k := |sorted|;
    while k > 0 && sorted[k - 1].id > view.id
      invariant 0 <= k <= |sorted|
      invariant forall i :: k <= i < |sorted| ==> view.id < sorted[i].id
    {
      k := k - 1;
    }
    r := sorted[..k] + [view] + sorted[k..];
    assert k > 0 ==> sorted[k - 1] in sorted;
    hide Ascending;
    InsertedAscends(sorted, k, view);
    Inserted(sorted, k, view);
  }

  lemma InsertedAscends(sorted: seq<View>, k: nat, view: View)
    requires k <= |sorted| && Ascending(sorted) && (k > 0 ==> sorted[k - 1].id < view.id)
    requires forall i :: k <= i < |sorted| ==> view.id < sorted[i].id
    ensures Ascending(sorted[..k] + [view] + sorted[k..])
  {
    var r := sorted[..k] + [view] + sorted[k..];
    forall i, j | 0 <= i < j < |r| ensures r[i].id < r[j].id {
      assert r[i] == if i < k then sorted[i] else if i == k then view else sorted[i - 1];
      assert r[j] == if j < k then sorted[j] else if j == k then view else sorted[j - 1];
    }
  }

  lemma Inserted(sorted: seq<View>, k: nat, view: View)
    requires k <= |sorted|
    ensures forall v :: v in sorted[..k] + [view] + sorted[k..] <==> v == view || v in sorted
  {
    assert sorted == sorted[..k] + sorted[k..];
    forall v ensures v in sorted <==> v in sorted[..k] || v in sorted[k..] {}
  }

  // ----- concurrent creates and deletes -----

  // `starting`: ids whose create has not ended; `failed` and `deleted` are history.
  datatype State = State(nextId: nat, starting: set<nat>, live: map<nat, View>, failed: set<nat>, deleted: set<nat>)

  datatype Step =
    | Allocate
    | StartFails(id: nat)
    | InsertView(view: View)
    | DeleteId(id: nat)

  // A create goes on whether or not its caller still waits for it; a delete may name any id.
  predicate Enabled(s: State, step: Step) {
    match step
    case Allocate => true
    case StartFails(id) => id in s.starting
    case InsertView(view) => view.id in s.starting
    case DeleteId(_) => true
  }

  function Do(s: State, step: Step): State
    requires Enabled(s, step)
  {
    match step
    case Allocate => s.(nextId := s.nextId + 1, starting := s.starting + {s.nextId})
    case StartFails(id) => s.(starting := s.starting - {id}, failed := s.failed + {id})
    case InsertView(view) => s.(starting := s.starting - {view.id}, live := s.live[view.id := view])
    case DeleteId(id) => s.(live := s.live - {id}, deleted := if id in s.live then s.deleted + {id} else s.deleted)
  }

  predicate Initial(s: State) { s == State(1, {}, map[], {}, {}) }

  // Every id handed out is in exactly one place.
  ghost predicate Inv(s: State) {
    && KeyedById(s.live)
    && (forall id :: 0 < id < s.nextId <==> id in s.starting || id in s.live || id in s.failed || id in s.deleted)
    && (forall id :: id in s.starting ==> id !in s.live && id !in s.failed && id !in s.deleted)
    && (forall id :: id in s.live ==> id !in s.failed && id !in s.deleted)
    && (forall id :: id in s.failed ==> id !in s.deleted)
  }

  predicate IsRun(s: State, steps: seq<Step>)
    decreases |steps|
  {
    steps == [] || (Enabled(s, steps[0]) && IsRun(Do(s, steps[0]), steps[1..]))
  }

  function After(s: State, steps: seq<Step>): State
    requires IsRun(s, steps)
    decreases |steps|
  {
    if steps == [] then s else After(Do(s, steps[0]), steps[1..])
  }

  lemma StepKeepsInv(s: State, step: Step)
    requires Inv(s) && s.nextId > 0 && Enabled(s, step)
    ensures Inv(Do(s, step)) && Do(s, step).nextId > 0
  {}

  // Over a run: what is failed or deleted stays so and never comes back to the map.
  lemma {:induction false} RunKeepsInv(s: State, steps: seq<Step>)
    requires Inv(s) && s.nextId > 0 && IsRun(s, steps)
    ensures var t := After(s, steps);
            && Inv(t) && t.nextId >= s.nextId
            && s.failed <= t.failed && s.deleted <= t.deleted
    decreases |steps|
  {
    hide Inv;
    if steps != [] {
      StepKeepsInv(s, steps[0]);
      RunKeepsInv(Do(s, steps[0]), steps[1..]);
    }
  }

  // The ids the run's creates were given.
  function Allocated(s: State, steps: seq<Step>): seq<nat>
    requires IsRun(s, steps)
    decreases |steps|
  {
    if steps == [] then []
    else (if steps[0].Allocate? then [s.nextId] else []) + Allocated(Do(s, steps[0]), steps[1..])
  }

  lemma {:induction false} AllocatedAscend(s: State, steps: seq<Step>)
    requires IsRun(s, steps)
    ensures var ids := Allocated(s, steps);
            forall i :: 0 <= i < |ids| ==> ids[i] == s.nextId + i
    ensures After(s, steps).nextId == s.nextId + |Allocated(s, steps)|
    decreases |steps|
  {
    if steps != [] { AllocatedAscend(Do(s, steps[0]), steps[1..]); }
  }

  // No id is given out twice, and every entry is keyed by its own id, one that was given out.
  lemma IdsNeverReused(s: State, steps: seq<Step>)
    requires Initial(s) && IsRun(s, steps)
    ensures var ids := Allocated(s, steps);
            && (forall i, j :: 0 <= i < j < |ids| ==> ids[i] < ids[j])
            && (forall id :: id in After(s, steps).live ==> id in ids && After(s, steps).live[id].id == id)
  {
    hide After, IsRun, Allocated;
    var t, ids := After(s, steps), Allocated(s, steps);
    RunKeepsInv(s, steps);
    AllocatedAscend(s, steps);
    forall id | id in t.live ensures id in ids {
      assert 0 < id < t.nextId;
      assert ids[id - 1] == id;
    }
  }

  // A deleted or failed id is in no later listing.
  lemma DeletedStaysDeleted(s: State, steps: seq<Step>, id: nat, views: seq<View>)
    requires Inv(s) && s.nextId > 0 && IsRun(s, steps) && (id in s.deleted || id in s.failed)
    requires Shows(views, After(s, steps).live)
    ensures forall v :: v in views ==> v.id != id
  {
    hide After, IsRun;
    RunKeepsInv(s, steps);
  }

  // Whatever happens after a delete or a failed start, no later listing holds that id.
  lemma GoneForGood(s: State, step: Step, steps: seq<Step>, views: seq<View>)
    requires Inv(s) && s.nextId > 0 && Enabled(s, step)
    requires (step.DeleteId? && step.id in s.live) || step.StartFails?
    requires IsRun(Do(s, step), steps) && Shows(views, After(Do(s, step), steps).live)
    ensures forall v :: v in views ==> v.id != step.id
  {
    hide After, IsRun;
    StepKeepsInv(s, step);
    DeletedStaysDeleted(Do(s, step), steps, step.id, views);
  }

  // ----- the registry as the handlers use it -----

  class Registry {
    var nextId: nat
    var live: map<nat, View>
    ghost var starting: set<nat>
    ghost var failed: set<nat>
    ghost var deleted: set<nat>

    ghost function Now(): State
      reads this
    {
      State(nextId, starting, live, failed, deleted)
    }

    ghost predicate Valid()
      reads this
    {
      Inv(Now()) && nextId > 0
    }

    constructor ()
      ensures Valid() && Initial(Now())
    {
      nextId, live := 1, map[];
      starting, failed, deleted := {}, {}, {};
    }

    // `next_breakpoint_id.fetch_add(1)`.
    method AllocateId() returns (id: nat)
      requires Valid()
      modifies this
      ensures Valid() && Now() == Do(old(Now()), Allocate)
      ensures id == old(nextId) && nextId == id + 1 && id in starting && id !in live && id !in old(starting)
    {
      StepKeepsInv(Now(), Allocate);
      id := nextId;
      nextId := nextId + 1;
      starting := starting + {id};
    }

    // The watch did not start: the create ends with an error and no entry.
    ghost method StartFailed(id: nat)
      requires Valid() && id in starting
      modifies this`starting, this`failed
      ensures Valid() && Now() == Do(old(Now()), StartFails(id))
      ensures id !in starting && id in failed
    {
      StepKeepsInv(Now(), StartFails(id));
      starting, failed := starting - {id}, failed + {id};
    }

    method Insert(view: View)
      requires Valid() && view.id in starting
      modifies this`live, this`starting
      ensures Valid() && Now() == Do(old(Now()), InsertView(view))
      ensures live == old(live)[view.id := view] && view.id !in old(live)
    {
      StepKeepsInv(Now(), InsertView(view));
      live := live[view.id := view];
      starting := starting - {view.id};
    }

    method Delete(id: nat) returns (found: Option<View>)
      requires Valid()
      modifies this`live, this`deleted
      ensures Valid() && Now() == Do(old(Now()), DeleteId(id))
      ensures live == old(live) - {id} && (id in old(live) ==> id in deleted)
      ensures found == if id in old(live) then Some(old(live)[id]) else None
    {
      StepKeepsInv(Now(), DeleteId(id));
      found := if id in live then Some(live[id]) else None;
      deleted := if id in live then deleted + {id} else deleted;
      live := live - {id};
    }

    // `list_breakpoints`: the values in whatever order the map yields them, sorted by id.
    method List() returns (views: seq<View>)
      requires Valid()
      ensures Ascending(views) && Shows(views, live)
      ensures forall v :: v in views ==> v.id !in deleted && v.id !in failed
    {
      views := [];
      var left := live.Keys;
      while left != {}
        invariant left <= live.Keys
        invariant Ascending(views)
        invariant forall v :: v in views <==> v.id in live.Keys - left && live[v.id] == v
        decreases |left|
      {
        var id :| id in left;
        views := InsertById(views, live[id]);
        left := left - {id};
      }
    }
  }
}
