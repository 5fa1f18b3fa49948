// From the driver to the page's list: the hits of one breakpoint are, in order, the accepted ones among the
// polled samples that its filter text wants.
module HitPath {
  import opened Prelude
  import opened Registers
  import opened FilterParser
  import opened HitFactory
  import opened Pipeline
  import opened Watch

  // What one breakpoint has of each stage, in the stage's order.
  function OffersFor(offers: seq<(QueuedSample, bool)>, id: nat): seq<(QueuedSample, bool)> {
    if offers == [] then []
    else
      var last := offers[|offers| - 1];
      OffersFor(offers[..|offers| - 1], id) + (if last.0.breakpointId == id then [last] else [])
  }

  function SamplesFor(samples: seq<QueuedSample>, id: nat): seq<QueuedSample> {
    if samples == [] then []
    else
      var last := samples[|samples| - 1];
      SamplesFor(samples[..|samples| - 1], id) + (if last.breakpointId == id then [last] else [])
  }

  function HitsFor(hits: seq<Hit>, id: nat): seq<Hit> {
    if hits == [] then []
    else
      var last := hits[|hits| - 1];
      HitsFor(hits[..|hits| - 1], id) + (if last.breakpointId == id then [last] else [])
  }

  function DataOf(samples: seq<QueuedSample>): (r: seq<SampleData>)
    ensures |r| == |samples|
  {
    seq(|samples|, i requires 0 <= i < |samples| => samples[i].data)
  }

  // What a watch with that filter, given by its tokens, is to hand on of the samples polled.
  ghost function Wanted(filter: Option<seq<string>>, polled: seq<SampleData>): seq<SampleData> {
    if filter.None? then polled else KeptByText(filter.value, polled)
  }

  function ParsedFilter(filter: Option<seq<string>>): Filter
    requires filter.Some? ==> ParseTokens(Aarch64, filter.value).Ok?
  {
    if filter.None? then None else Some(ParseTokens(Aarch64, filter.value).value)
  }

  lemma {:induction false} UnfilteredKept(samples: seq<SampleData>)
    ensures Kept(None, samples) == samples
  {
    if samples != [] {
      var front, last := samples[..|samples| - 1], samples[|samples| - 1];
      assert Passes(None, last);
      hide Passes;
      UnfilteredKept(front);
      assert samples == front + [last];
    }
  }

  lemma KeptIsWanted(filter: Option<seq<string>>, polled: seq<SampleData>)
    requires filter.Some? ==> ParseTokens(Aarch64, filter.value).Ok?
    ensures Kept(ParsedFilter(filter), polled) == Wanted(filter, polled)
  {
    hide ParseTokens, Kept, KeptByText;
    if filter.Some? { DeliveredByText(filter.value, polled); } else { UnfilteredKept(polled); }
  }

  // ----- choosing one breakpoint's part commutes with each stage -----

  lemma SamplesForPush(samples: seq<QueuedSample>, x: QueuedSample, id: nat)
    ensures SamplesFor(samples + [x], id) == SamplesFor(samples, id) + (if x.breakpointId == id then [x] else [])
  {
    assert (samples + [x])[..|samples|] == samples;
  }

  lemma TakenPush(offers: seq<(QueuedSample, bool)>, x: (QueuedSample, bool))
    ensures Taken(offers + [x]) == Taken(offers) + (if x.1 then [x.0] else [])
  {
    assert (offers + [x])[..|offers|] == offers;
  }

  lemma {:induction false} TakenOfOne(offers: seq<(QueuedSample, bool)>, id: nat)
    ensures SamplesFor(Taken(offers), id) == Taken(OffersFor(offers, id))
  {
    if offers != [] {
      var front, last := offers[..|offers| - 1], offers[|offers| - 1];
      TakenOfOne(front, id);
      SamplesForPush(Taken(front), last.0, id);
      TakenPush(OffersFor(front, id), last);
      assert last.1 || Taken(offers) == Taken(front) + [] == Taken(front);
      assert last.0.breakpointId == id || OffersFor(offers, id) == OffersFor(front, id);
    }
  }

  lemma OfferedInPush(offers: seq<(QueuedSample, bool)>, x: (QueuedSample, bool))
    ensures OfferedIn(offers + [x]) == OfferedIn(offers) + [x.0]
  {}

  lemma {:induction false} OfferedByOne(offers: seq<(QueuedSample, bool)>, id: nat)
    ensures OfferedIn(OffersFor(offers, id)) == SamplesFor(OfferedIn(offers), id)
  {
    if offers != [] {
      var front, last := offers[..|offers| - 1], offers[|offers| - 1];
      OfferedByOne(front, id);
      assert OfferedIn(offers)[..|offers| - 1] == OfferedIn(front);
      OfferedInPush(OffersFor(front, id), last);
    }
  }

  lemma {:induction false} SamplesForPrefix(samples: seq<QueuedSample>, n: nat, id: nat)
    requires n <= |samples|
    ensures SamplesFor(samples[..n], id) <= SamplesFor(samples, id)
  {
    if n < |samples| {
      var front := samples[..|samples| - 1];
      SamplesForPrefix(front, n, id);
      assert front[..n] == samples[..n];
    } else {
      assert samples[..n] == samples;
    }
  }

  // `hit` shows `sample`, with whatever lookups were made for it.
  ghost predicate ShowsSample(arch: Arch, hit: Hit, sample: QueuedSample) {
    exists regs, backtrace :: Shows(arch, hit, sample, regs, backtrace)
  }

  lemma {:induction false} HitsPairUp(arch: Arch, hits: seq<Hit>, samples: seq<QueuedSample>, id: nat)
    requires |hits| == |samples|
    requires forall i :: 0 <= i < |hits| ==>
               hits[i].breakpointId == samples[i].breakpointId && ShowsSample(arch, hits[i], samples[i])
    ensures |HitsFor(hits, id)| == |SamplesFor(samples, id)|
    ensures forall k :: 0 <= k < |HitsFor(hits, id)| ==>
              ShowsSample(arch, HitsFor(hits, id)[k], SamplesFor(samples, id)[k])
  {
    hide ShowsSample;
    if hits != [] {
      var n := |hits| - 1;
      HitsPairUp(arch, hits[..n], samples[..n], id);
      assert hits[n].breakpointId == samples[n].breakpointId;
    }
  }

  lemma HitsShowTaken(s: State, steps: seq<Step>)
    requires Initial(s) && IsRun(s, steps)
    ensures var t := After(s, steps);
            && |t.hits| <= |Taken(t.offers)|
            && forall i :: 0 <= i < |t.hits| ==>
                 && t.hits[i].breakpointId == Taken(t.offers)[i].breakpointId
                 && ShowsSample(s.arch, t.hits[i], Taken(t.offers)[i])
  {
    hide After, IsRun, Taken, Initial;
    var t := After(s, steps);
    HitsWithinTaken(s, steps);
    forall i | 0 <= i < |t.hits|
      ensures t.hits[i].breakpointId == Taken(t.offers)[i].breakpointId
      ensures ShowsSample(s.arch, t.hits[i], Taken(t.offers)[i])
    {
      HitsInOrder(s, steps, i);
    }
  }

  lemma HitsWithinTaken(s: State, steps: seq<Step>)
    requires Initial(s) && IsRun(s, steps)
    ensures |After(s, steps).hits| <= |Taken(After(s, steps).offers)|
  {
    hide After, IsRun;
    var n := |After(s, steps).hits|;
    if n > 0 { HitsInOrder(s, steps, n - 1); }
  }

  // In every run of queue, worker and any number of watches: of what one watch polled, exactly what its
  // filter text wants is offered, in order, and the breakpoint's hits show the accepted of these in order.
  lemma HitsOfOneBreakpoint(
    s: State, steps: seq<Step>, id: nat, filter: Option<seq<string>>, polled: seq<SampleData>)
    requires Initial(s) && IsRun(s, steps) && (filter.Some? ==> ParseTokens(Aarch64, filter.value).Ok?)
    requires DataOf(SamplesFor(Offered(steps), id)) == Kept(ParsedFilter(filter), polled)
    ensures var t := After(s, steps);
            var offers := OffersFor(t.offers, id);
            && DataOf(OfferedIn(offers)) == Wanted(filter, polled)
            && |HitsFor(t.hits, id)| <= |Taken(offers)|
            && forall k :: 0 <= k < |HitsFor(t.hits, id)| ==>
                 ShowsSample(s.arch, HitsFor(t.hits, id)[k], Taken(offers)[k])
  {
    hide After, IsRun, Initial, Taken, ShowsSample, SamplesFor, HitsFor, OffersFor, Kept, Wanted, ParseTokens;
    var t := After(s, steps);
    SamplesConserved(s, steps);
    OfferedByOne(t.offers, id);
    KeptIsWanted(filter, polled);
    HitsShowTaken(s, steps);
    var n := |t.hits|;
    HitsPairUp(s.arch, t.hits, Taken(t.offers)[..n], id);
    SamplesForPrefix(Taken(t.offers), n, id);
    TakenOfOne(t.offers, id);
  }
}
