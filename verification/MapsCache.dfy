// What src/maps.rs does with its cache: batches of addresses resolved through two lookups, and the
// `MapsCache` object as one thread uses it.
module MapsCache {
  import opened Prelude
  import opened Text
  import opened MapsResolve
  import opened MapsProtocol

  // The result of `resolve_many_addresses` from its two lookups; `second` is made only if needed.
  function ResolveMany(first: Option<Regions>, second: Option<Regions>, addrs: seq<u64>)
    : (r: seq<Option<AddressResolution>>)
    ensures |r| == |addrs|
  {
    var initial := ResolveAll(first.GetOr([]), addrs);
    seq(|addrs|, i requires 0 <= i < |addrs| =>
      if initial[i].None? && second.Some? then ResolveOne(second.value, addrs[i]) else initial[i])
  }

  // Every resolution comes from a region, of one of the two lists, that contains the very address.
  lemma ResolvedByContainingRegion(first: Option<Regions>, second: Option<Regions>, addrs: seq<u64>, i: nat)
    requires i < |addrs| && ResolveMany(first, second, addrs)[i].Some?
    ensures exists r: ParsedRegion ::
              && ((first.Some? && r in first.value) || (second.Some? && r in second.value))
              && Contains(r, addrs[i]) && ResolveMany(first, second, addrs)[i] == Some(Resolution(r, addrs[i]))
  {
    var from := if ResolveAll(first.GetOr([]), addrs)[i].Some? then first.value else second.value;
    var k := FindRegion(from, addrs[i], 0).value;
    assert from[k] in from;
  }

  predicate AnyResolves(regions: Regions, addrs: seq<u64>) {
    exists i :: 0 <= i < |addrs| && ResolveOne(regions, addrs[i]).Some?
  }

  // With lookups that agree on the regions, the batch is the direct resolution of each address,
  // except exactly when both lookups failed and some address had something to resolve to.
  lemma BatchIsDirectIff(first: Option<Regions>, second: Option<Regions>, regions: Regions, addrs: seq<u64>)
    requires first.Some? ==> first.value == regions
    requires second.Some? ==> second.value == regions
    ensures ResolveMany(first, second, addrs) == ResolveAll(regions, addrs)
            <==> first.Some? || second.Some? || !AnyResolves(regions, addrs)
  {
    hide Resolution;
    var got, direct := ResolveMany(first, second, addrs), ResolveAll(regions, addrs);
    if first.None? && second.None? {
      if AnyResolves(regions, addrs) {
        var i :| 0 <= i < |addrs| && ResolveOne(regions, addrs[i]).Some?;
        assert got[i].None? && direct[i].Some?;
      }
    }
    if first.Some? || second.Some? || !AnyResolves(regions, addrs) {
      forall i | 0 <= i < |addrs| ensures got[i] == direct[i] {}
    }
  }

  // The failing case: a region that would resolve the address, and neither lookup answered.
  lemma BatchMayMissAll() returns (regions: Regions, addrs: seq<u64>)
    ensures ResolveMany(None, None, addrs) != ResolveAll(regions, addrs)
  {
    var region := MapRegion("0x0000000000001000", "0x0000000000002000", "r-xp", "0x0", "08:01", 7, Some("/a"));
    regions, addrs := [ParsedRegion(0x1000, 0x2000, region)], [0x1008];
    assert ResolveOne(regions, addrs[0]).Some?;
    BatchIsDirectIff(None, None, regions, addrs);
  }

  // Over a run: two finished calls of one pid, whose reads agree, make the batch of the two the direct one
  // unless neither was answered and some address had something to resolve to.
  lemma BatchOverRun(s: State, steps: seq<Step>, pid: u32, regions: Regions, id1: nat, id2: nat, addrs: seq<u64>)
    requires Initial(s) && IsRun(s, steps) && ReadsAgree(s, steps, pid, regions)
    requires forall id :: id in {id1, id2} ==>
               && id in After(s, steps).threads && After(s, steps).threads[id].Done?
               && After(s, steps).threads[id].call.pid == pid
    ensures var first := RegionsOf(After(s, steps).threads[id1].answer);
            var second := RegionsOf(After(s, steps).threads[id2].answer);
            ResolveMany(first, second, addrs) == ResolveAll(regions, addrs)
            <==> first.Some? || second.Some? || !AnyResolves(regions, addrs)
  {
    hide IsRun, After, ReadsAgree, ResolveMany, ResolveAll, AnyResolves;
    var t1, t2 := After(s, steps).threads[id1], After(s, steps).threads[id2];
    if t1.answer.Answered? { AgreeingReads(s, steps, pid, regions, id1); }
    if t2.answer.Answered? { AgreeingReads(s, steps, pid, regions, id2); }
    BatchIsDirectIff(RegionsOf(t1.answer), RegionsOf(t2.answer), regions, addrs);
  }

  // `resolve_cached`: the region one lookup gives.
  function RegionIn(found: Option<Regions>, addr: u64): Option<MapRegion> {
    if found.None? || FindRegion(found.value, addr, 0).None? then None
    else Some(found.value[FindRegion(found.value, addr, 0).value].region)
  }

  // `resolve`: the first lookup's region, or else the refreshed one's.
  function RegionOfEither(first: Option<Regions>, second: Option<Regions>, addr: u64): Option<MapRegion> {
    if RegionIn(first, addr).Some? then RegionIn(first, addr) else RegionIn(second, addr)
  }

  // Resolving one address alone gives the region that a batch of it gives.
  lemma AloneIsBatchOfOne(first: Option<Regions>, second: Option<Regions>, addr: u64)
    ensures var batch := ResolveMany(first, second, [addr])[0];
            RegionOfEither(first, second, addr) == if batch.Some? then Some(batch.value.region) else None
  {
    hide ModuleLabel, Hex;
    assert [addr][0] == addr;
  }

  // ----- the cache object -----

  // A successful read of the file of the pid asked for, so long after the call took its `now`.
  datatype Reading = Reading(delay: Time, regions: Regions)

  function SnapshotOf(call: Call, r: Reading): Snapshot { Snapshot(call.pid, call.now + r.delay, r.regions) }

  // One call start to finish, its file read answering `read`: the cache it leaves and its answer.
  function CacheAfter(cache: Cache, call: Call, read: Option<Reading>): Cache {
    if CheckCache(cache, call).None? && read.Some? then StoreRead(cache, call, SnapshotOf(call, read.value))
    else cache
  }

  function LookupAnswer(cache: Cache, call: Call, read: Option<Reading>): Answer {
    if CheckCache(cache, call).Some? then Answered(CheckCache(cache, call).value)
    else if read.None? then Failed
    else AnswerFrom(CacheAfter(cache, call, read), call.pid)
  }

  function SnapIn(answer: Answer): Option<Snapshot> { if answer.Answered? then Some(answer.snap) else None }

  function RegionsIn(snap: Option<Snapshot>): Option<Regions> {
    if snap.Some? then Some(snap.value.regions) else None
  }

  // The two lookups of one batch; the second is made only when the first leaves something unresolved.
  datatype Lookup = Lookup(now: Time, first: Option<Snapshot>, second: Option<Snapshot>)

  // Both answered as calls of `pid` at `now` are: the first within its second, the second no older than `now`.
  predicate FreshFor(l: Lookup, pid: u32) {
    && (l.first.Some? ==> Fresh(Call(l.now, pid, false), l.first.value))
    && (l.second.Some? ==> Fresh(Call(l.now, pid, true), l.second.value))
  }

  function ResolveWith(l: Lookup, addrs: seq<u64>): (r: seq<Option<AddressResolution>>)
    ensures |r| == |addrs|
  {
    ResolveMany(RegionsIn(l.first), RegionsIn(l.second), addrs)
  }

  // What every thread's steps keep of the cache, whatever the clock says.
  predicate Sound(cache: Cache) {
    forall pid :: pid in cache ==> cache[pid].snap.pid == pid && cache[pid].loadedAt <= cache[pid].snap.readAt
  }

  // A batch in a cache: the times and outcomes of its two calls, which share their `now`.
  datatype Batch = Batch(now: Time, read1: Option<Reading>, read2: Option<Reading>)

  function FirstLookup(cache: Cache, pid: u32, b: Batch): Option<Snapshot> {
    SnapIn(LookupAnswer(cache, Call(b.now, pid, false), b.read1))
  }

  predicate NeedsRefresh(cache: Cache, pid: u32, addrs: seq<u64>, b: Batch) {
    !AllResolved(ResolveAll(RegionsIn(FirstLookup(cache, pid, b)).GetOr([]), addrs))
  }

  function BatchLookup(cache: Cache, pid: u32, addrs: seq<u64>, b: Batch): Lookup {
    var cache1 := CacheAfter(cache, Call(b.now, pid, false), b.read1);
    if addrs == [] then Lookup(b.now, None, None)
    else Lookup(b.now, FirstLookup(cache, pid, b),
                if NeedsRefresh(cache, pid, addrs, b) then SnapIn(LookupAnswer(cache1, Call(b.now, pid, true), b.read2))
                else None)
  }

  function BatchCache(cache: Cache, pid: u32, addrs: seq<u64>, b: Batch): Cache {
    var cache1 := CacheAfter(cache, Call(b.now, pid, false), b.read1);
    if addrs == [] then cache
    else if NeedsRefresh(cache, pid, addrs, b) then CacheAfter(cache1, Call(b.now, pid, true), b.read2)
    else cache1
  }

  lemma LookupIsFresh(cache: Cache, call: Call, read: Option<Reading>)
    requires Sound(cache)
    ensures Sound(CacheAfter(cache, call, read))
    ensures var snap := SnapIn(LookupAnswer(cache, call, read)); snap.Some? ==> Fresh(call, snap.value)
  {}

  // A batch of a pid uses maps of that pid only, none older than a call at its time may return.
  lemma BatchIsFresh(cache: Cache, pid: u32, addrs: seq<u64>, b: Batch)
    requires Sound(cache)
    ensures FreshFor(BatchLookup(cache, pid, addrs, b), pid) && Sound(BatchCache(cache, pid, addrs, b))
  {
    hide Sound, CacheAfter, LookupAnswer, ResolveAll, AllResolved, Fresh;
    LookupIsFresh(cache, Call(b.now, pid, false), b.read1);
    LookupIsFresh(CacheAfter(cache, Call(b.now, pid, false), b.read1), Call(b.now, pid, true), b.read2);
  }

  // `res` was read off a region that contains the address, in maps of the pid read later than a second
  // before the lookups' `now`.
  ghost predicate FromFreshMaps(res: AddressResolution, addr: u64, l: Lookup, pid: u32) {
    exists snap: Snapshot, r: ParsedRegion ::
      && r in snap.regions && (l.first == Some(snap) || l.second == Some(snap))
      && snap.pid == pid && snap.readAt + SECOND > l.now
      && Contains(r, addr) && res == Resolution(r, addr)
  }

  lemma ResolvedFromFreshMaps(l: Lookup, pid: u32, addrs: seq<u64>, i: nat)
    requires FreshFor(l, pid) && i < |addrs| && ResolveWith(l, addrs)[i].Some?
    ensures FromFreshMaps(ResolveWith(l, addrs)[i].value, addrs[i], l, pid)
  {
    hide Resolution;
    ResolvedByContainingRegion(RegionsIn(l.first), RegionsIn(l.second), addrs, i);
    var first, second, res := RegionsIn(l.first), RegionsIn(l.second), ResolveWith(l, addrs)[i];
    var r: ParsedRegion :| ((first.Some? && r in first.value) || (second.Some? && r in second.value))
                           && Contains(r, addrs[i]) && res == Some(Resolution(r, addrs[i]));
    var snap := if first.Some? && r in first.value then l.first.value else l.second.value;
    assert r in snap.regions;
  }

  // In every interleaving: what a batch resolves from two finished calls of one pid and one `now` comes from
  // maps of that pid read later than a second before it.
  lemma BatchIsFreshOverRun(
    s: State, steps: seq<Step>, id1: nat, id2: nat, pid: u32, now: Time, addrs: seq<u64>, i: nat)
    requires Initial(s) && IsRun(s, steps) && id1 in After(s, steps).threads && id2 in After(s, steps).threads
    requires var t1, t2 := After(s, steps).threads[id1], After(s, steps).threads[id2];
             t1.Done? && t2.Done? && t1.call == Call(now, pid, false) && t2.call == Call(now, pid, true)
    requires i < |addrs|
    ensures var t1, t2 := After(s, steps).threads[id1], After(s, steps).threads[id2];
            var l := Lookup(now, SnapIn(t1.answer), SnapIn(t2.answer));
            ResolveWith(l, addrs)[i].Some? ==> FromFreshMaps(ResolveWith(l, addrs)[i].value, addrs[i], l, pid)
  {
    hide After, IsRun, ResolveWith, FromFreshMaps;
    Freshness(s, steps, id1);
    Freshness(s, steps, id2);
    var t1, t2 := After(s, steps).threads[id1], After(s, steps).threads[id2];
    var l := Lookup(now, SnapIn(t1.answer), SnapIn(t2.answer));
    if ResolveWith(l, addrs)[i].Some? { ResolvedFromFreshMaps(l, pid, addrs, i); }
  }

  // A thread alone: its steps leave the cache and the answer that the functions above give.
  lemma CallIsItsSteps(s: State, id: nat, read: Option<Reading>)
    requires id in s.threads && s.threads[id].Begun?
    requires read.Some? ==> s.threads[id].call.now + read.value.delay == s.clock
    ensures var call := s.threads[id].call;
            var checked := Do(s, Check(id));
            var done := if checked.threads[id].Done? then checked
                        else
                          var offered := Do(checked, Read(id, if read.Some? then Some(read.value.regions) else None));
                          if offered.threads[id].Done? then offered else Do(offered, Store(id));
            && done.cache == CacheAfter(s.cache, call, read)
            && done.threads[id] == Done(call, LookupAnswer(s.cache, call, read))
  {}

  predicate AllResolved(resolved: seq<Option<AddressResolution>>) {
    forall i :: 0 <= i < |resolved| ==> resolved[i].Some?
  }

  // Resolves again, against the refreshed regions, what is still unresolved.
  method PatchUnresolved(initial: seq<Option<AddressResolution>>, refreshed: Regions, addrs: seq<u64>)
    returns (resolved: seq<Option<AddressResolution>>)
    requires |initial| == |addrs|
    ensures |resolved| == |addrs|
    ensures forall i :: 0 <= i < |addrs| ==>
              resolved[i] == if initial[i].None? then ResolveOne(refreshed, addrs[i]) else initial[i]
  {
    resolved := initial;
    for idx := 0 to |addrs|
      invariant |resolved| == |addrs|
      invariant forall i :: idx <= i < |addrs| ==> resolved[i] == initial[i]
      invariant forall i :: 0 <= i < idx ==>
                  resolved[i] == if initial[i].None? then ResolveOne(refreshed, addrs[i]) else initial[i]
    {
      if resolved[idx].None? {
        resolved := resolved[idx := ResolveOne(refreshed, addrs[idx])];
      }
    }
  }

  class MapsCache {
    var inner: Cache

    predicate Valid()
      reads this
    {
      Sound(inner)
    }

    constructor ()
      ensures Valid() && inner == map[]
    {
      inner := map[];
    }

    method RegionsWith(call: Call, read: Option<Reading>) returns (answer: Answer)
      requires Valid()
      modifies this
      ensures Valid()
      ensures inner == CacheAfter(old(inner), call, read)
      ensures answer == LookupAnswer(old(inner), call, read)
      ensures !answer.Defaulted? && (answer.Answered? ==> Fresh(call, answer.snap))
    {
      LookupIsFresh(inner, call, read);
      var stale := if call.pid in inner then call.now >= inner[call.pid].loadedAt + SECOND else true;
      if !call.force && !stale {
        return if call.pid in inner then Answered(inner[call.pid].snap) else Defaulted;
      }
      if read.None? {
        return Failed;
      }
      var shouldUpdate := call.force || call.pid !in inner || call.now >= inner[call.pid].loadedAt + SECOND;
      if shouldUpdate {
        inner := inner[call.pid := Cached(call.now, SnapshotOf(call, read.value))];
      }
      answer := if call.pid in inner then Answered(inner[call.pid].snap) else Defaulted;
    }

    method Resolve(pid: u32, addr: u64, now: Time, read1: Option<Reading>, read2: Option<Reading>)
      returns (region: Option<MapRegion>)
      requires Valid()
      modifies this
      ensures Valid()
      ensures var call1, call2 := Call(now, pid, false), Call(now, pid, true);
              var cache1 := CacheAfter(old(inner), call1, read1);
              var first := RegionsOf(LookupAnswer(old(inner), call1, read1));
              var second := RegionsOf(LookupAnswer(cache1, call2, read2));
              && region == RegionOfEither(first, second, addr)
              && inner == if RegionIn(first, addr).Some? then cache1 else CacheAfter(cache1, call2, read2)
    {
      var answer := RegionsWith(Call(now, pid, false), read1);
      region := RegionIn(RegionsOf(answer), addr);
      if region.Some? {
        return;
      }
      answer := RegionsWith(Call(now, pid, true), read2);
      region := RegionIn(RegionsOf(answer), addr);
    }

    // `resolve_many_addresses`: patches what the first lookup left unresolved.
    method ResolveManyAddresses(pid: u32, addrs: seq<u64>, b: Batch) returns (resolved: seq<Option<AddressResolution>>)
      requires Valid()
      modifies this
      ensures Valid() && FreshFor(BatchLookup(old(inner), pid, addrs, b), pid)
      ensures resolved == ResolveWith(BatchLookup(old(inner), pid, addrs, b), addrs)
      ensures inner == BatchCache(old(inner), pid, addrs, b)
    {
      BatchIsFresh(inner, pid, addrs, b);
      if addrs == [] {
        return [];
      }
      ghost var lookup := BatchLookup(inner, pid, addrs, b);
      var answer := RegionsWith(Call(b.now, pid, false), b.read1);
      var regions := if answer.Answered? then answer.snap.regions else [];
      hide LookupAnswer, CacheAfter, ResolveOne;
      resolved := ResolveAll(regions, addrs);
      if exists i :: 0 <= i < |resolved| && resolved[i].None? {
        var refreshed := RegionsWith(Call(b.now, pid, true), b.read2);
        if refreshed.Answered? {
          resolved := PatchUnresolved(resolved, refreshed.snap.regions, addrs);
        }
      }
      assert resolved == ResolveWith(lookup, addrs);
    }
  }
}
