// The ring shared by the kernel and `PerfMap::events`, one memory access per step. The kernel may
// write any byte of the free space at any moment and publish a whole record by moving the head; the
// reader fetches one byte at a time. Counters are unbounded (no u64 wrap of head and tail).
module PerfRing {
  import opened Prelude
  import opened RingBytes
  import opened PerfRecord

  const MAX_EVENTS_PER_READINESS: nat := 128

  datatype Phase =
    | Waiting                      // in `readable().await`
    | Checking                     // at the inner loop's test
    | Reading(got: seq<byte>)      // inside the record at `read`, `got` fetched so far
    | Publishing                   // record handled, `data_tail` not yet written

  // `records` and `consumed` record the history; the program keeps neither.
  datatype State = State(
    data: seq<byte>,
    head: nat,
    tail: nat,
    read: nat,
    processed: nat,
    phase: Phase,
    handled: seq<SampleData>,
    records: seq<Record>,
    consumed: nat)

  datatype Step =
    | KernelWrite(at: nat, b: byte)
    | KernelPublish(rec: Record)
    | Wake
    | Check
    | ReadByte
    | Finish
    | PublishTail

  predicate Enabled(cfg: Config, s: State, step: Step)
    requires |s.data| > 0
  {
    match step
    case KernelWrite(at, _) => s.head <= at < s.tail + |s.data|
    case KernelPublish(rec) =>
      && WellFormed(cfg, rec)
      && s.head + |Encode(cfg, rec)| <= s.tail + |s.data|
      && Window(s.data, s.head, |Encode(cfg, rec)|) == Encode(cfg, rec)
    case Wake => s.phase.Waiting?
    case Check => s.phase.Checking?
    case ReadByte => s.phase.Reading? && |s.phase.got| < Demand(cfg, s.phase.got)
    case Finish => s.phase.Reading? && Complete(cfg, s.phase.got)
    case PublishTail => s.phase.Publishing?
  }

  function Append(handled: seq<SampleData>, sample: Option<SampleData>): seq<SampleData> {
    if sample.Some? then handled + [sample.value] else handled
  }

  function Do(cfg: Config, s: State, step: Step): (s': State)
    requires |s.data| > 0 && Enabled(cfg, s, step)
    ensures |s'.data| == |s.data|
  {
    match step
    case KernelWrite(at, b) => s.(data := s.data[Slot(at, |s.data|) := b])
    case KernelPublish(rec) => s.(head := s.head + |Encode(cfg, rec)|, records := s.records + [rec])
    case Wake => s.(phase := Checking, processed := 0)
    case Check =>
      if s.head != s.read && s.processed < MAX_EVENTS_PER_READINESS then s.(phase := Reading([]))
      else s.(phase := Waiting)
    case ReadByte =>
      s.(phase := Reading(s.phase.got + [s.data[Slot(s.read + |s.phase.got|, |s.data|)]]))
    case Finish =>
      s.(handled := Append(s.handled, Delivery(cfg, s.phase.got)),
         read := s.read + U16At(s.phase.got, 6),
         consumed := s.consumed + 1,
         phase := Publishing)
    case PublishTail => s.(tail := s.read, processed := s.processed + 1, phase := Checking)
  }

  predicate Initial(s: State) {
    && |s.data| > 0
    && s.head == s.tail == s.read == s.processed == s.consumed == 0
    && s.phase == Waiting && s.handled == [] && s.records == []
  }

  // ----- the unbounded queue the ring stands for -----

  function EncodeAll(cfg: Config, rs: seq<Record>): seq<byte> {
    if rs == [] then [] else Encode(cfg, rs[0]) + EncodeAll(cfg, rs[1..])
  }

  // The samples of a record sequence, in order: LOST, unknown and no-ABI records contribute none.
  function Delivered(cfg: Config, rs: seq<Record>): seq<SampleData> {
    if rs == [] then [] else Append(Delivered(cfg, rs[..|rs| - 1]), SampleOf(cfg, rs[|rs| - 1]))
  }

  lemma {:induction false} EncodeAllAppend(cfg: Config, rs: seq<Record>, rec: Record)
    ensures EncodeAll(cfg, rs + [rec]) == EncodeAll(cfg, rs) + Encode(cfg, rec)
  {
    if rs == [] {
      assert rs + [rec] == [rec] && [rec][1..] == [];
    } else {
      EncodeAllAppend(cfg, rs[1..], rec);
      assert (rs + [rec])[1..] == rs[1..] + [rec];
      ConcatAssociative(Encode(cfg, rs[0]), EncodeAll(cfg, rs[1..]), Encode(cfg, rec));
    }
  }

  // ----- the invariant -----

  predicate ReadingOk(cfg: Config, s: State)
    requires |s.data| > 0
  {
    s.phase.Reading? ==>
      && s.consumed < |s.records|
      && |s.phase.got| <= Consumed(cfg, s.records[s.consumed])
      && s.phase.got == Window(s.data, s.read, |s.phase.got|)
  }

  predicate Inv(cfg: Config, s: State) {
    && |s.data| > 0
    && s.tail <= s.read <= s.head <= s.tail + |s.data|
    && (s.phase.Publishing? || s.tail == s.read)
    && (if s.phase.Reading? || s.phase.Publishing? then s.processed < MAX_EVENTS_PER_READINESS
        else s.processed <= MAX_EVENTS_PER_READINESS)
    && s.consumed <= |s.records|
    && (forall i :: 0 <= i < |s.records| ==> WellFormed(cfg, s.records[i]))
    && Window(s.data, s.read, s.head - s.read) == EncodeAll(cfg, s.records[s.consumed..])
    && s.handled == Delivered(cfg, s.records[..s.consumed])
    && ReadingOk(cfg, s)
  }

  // No step of the kernel changes a byte the reader has yet to consume.
  lemma UnreadBytesKept(cfg: Config, s: State, step: Step)
    requires Inv(cfg, s) && Enabled(cfg, s, step) && (step.KernelWrite? || step.KernelPublish?)
    ensures Window(Do(cfg, s, step).data, s.read, s.head - s.read) == Window(s.data, s.read, s.head - s.read)
  {
    hide Encode, EncodeAll, Delivered, Window, WellFormed, ReadingOk;
    if step.KernelWrite? { WriteBeyondWindow(s.data, s.read, s.head - s.read, step.at, step.b); }
  }

  lemma EncodeAllFirst(cfg: Config, rs: seq<Record>, c: nat)
    requires c < |rs|
    ensures EncodeAll(cfg, rs[c..]) == Encode(cfg, rs[c]) + EncodeAll(cfg, rs[c + 1..])
  {
    assert rs[c..][1..] == rs[c + 1..];
  }

  lemma PendingAfterNext(cfg: Config, s: State)
    requires Inv(cfg, s) && s.consumed < |s.records|
    ensures var n := |Encode(cfg, s.records[s.consumed])|;
            && s.read + n <= s.head
            && Window(s.data, s.read, n) == Encode(cfg, s.records[s.consumed])
            && Window(s.data, s.read + n, s.head - s.read - n) == EncodeAll(cfg, s.records[s.consumed + 1..])
  {
    hide Encode, EncodeAll, Window, ReadingOk, Delivered, WellFormed;
    var e, rest := Encode(cfg, s.records[s.consumed]), EncodeAll(cfg, s.records[s.consumed + 1..]);
    EncodeAllFirst(cfg, s.records, s.consumed);
    WindowSplit(s.data, s.read, |e|, s.head - s.read - |e|);
    SplitsAlike(Window(s.data, s.read, |e|), Window(s.data, s.read + |e|, s.head - s.read - |e|), e, rest);
  }

  lemma PendingNotEmpty(cfg: Config, s: State)
    requires Inv(cfg, s) && s.head != s.read
    ensures s.consumed < |s.records|
  {
    assert |Window(s.data, s.read, s.head - s.read)| > 0;
    assert s.records[s.consumed..] != [];
  }

  // While it reads, the bytes the reader holds are the first bytes of the next record.
  lemma GotIsNextRecord(cfg: Config, s: State, k: nat)
    requires Inv(cfg, s) && s.consumed < |s.records|
    requires k <= |Encode(cfg, s.records[s.consumed])|
    ensures s.read + |Encode(cfg, s.records[s.consumed])| <= s.head
    ensures Window(s.data, s.read, k) == Encode(cfg, s.records[s.consumed])[..k]
  {
    hide Encode, EncodeAll, Delivered;
    PendingAfterNext(cfg, s);
    WindowPrefix(s.data, s.read, |Encode(cfg, s.records[s.consumed])|, k);
  }

  lemma KernelWriteKeeps(cfg: Config, s: State, step: Step)
    requires Inv(cfg, s) && step.KernelWrite? && Enabled(cfg, s, step)
    ensures Inv(cfg, Do(cfg, s, step))
  {
    hide Encode, EncodeAll, Delivered, Window, Demand, Consumed, WellFormed;
    UnreadBytesKept(cfg, s, step);
    if s.phase.Reading? {
      var k := |s.phase.got|;
      DemandOfPrefix(cfg, s.records[s.consumed], k);
      GotIsNextRecord(cfg, s, k);
      WriteBeyondWindow(s.data, s.read, k, step.at, step.b);
    }
  }

  lemma PublishExtendsPending(cfg: Config, s: State, rec: Record)
    requires Inv(cfg, s) && Enabled(cfg, s, KernelPublish(rec))
    ensures var rs := s.records + [rec];
            && Window(s.data, s.read, s.head - s.read + |Encode(cfg, rec)|) == EncodeAll(cfg, rs[s.consumed..])
            && rs[..s.consumed] == s.records[..s.consumed]
  {
    hide Encode, Window, ReadingOk, Delivered, WellFormed, EncodeAll, Append, SampleOf;
    var n := s.head - s.read;
    WindowSplit(s.data, s.read, n, |Encode(cfg, rec)|);
    EncodeAllAppend(cfg, s.records[s.consumed..], rec);
    assert (s.records + [rec])[s.consumed..] == s.records[s.consumed..] + [rec];
  }

  lemma KernelPublishKeeps(cfg: Config, s: State, step: Step)
    requires Inv(cfg, s) && step.KernelPublish? && Enabled(cfg, s, step)
    ensures Inv(cfg, Do(cfg, s, step))
  {
    hide Encode, Window, Delivered, WellFormed, EncodeAll, Demand, Consumed;
    PublishExtendsPending(cfg, s, step.rec);
  }

  lemma CheckKeeps(cfg: Config, s: State, step: Step)
    requires Inv(cfg, s) && (step.Check? || step.Wake? || step.PublishTail?) && Enabled(cfg, s, step)
    ensures Inv(cfg, Do(cfg, s, step))
  {
    hide Encode, SampleOf, WellFormed, Demand, Delivery, Consumed, Delivered, Window;
    if s.head != s.read { PendingNotEmpty(cfg, s); }
  }

  lemma ReadByteKeeps(cfg: Config, s: State, step: Step)
    requires Inv(cfg, s) && step.ReadByte? && Enabled(cfg, s, step)
    ensures Inv(cfg, Do(cfg, s, step))
  {
    hide Encode, EncodeAll, Delivered;
    var rec, k := s.records[s.consumed], |s.phase.got|;
    DemandOfPrefix(cfg, rec, k);
    GotIsNextRecord(cfg, s, k);
    assert s.phase.got == Encode(cfg, rec)[..k];
    WindowSplit(s.data, s.read, k, 1);
  }

  // A finished record is the next one, decoded, and the reader moves on by exactly its length.
  lemma FinishTakesNext(cfg: Config, s: State)
    requires Inv(cfg, s) && Enabled(cfg, s, Finish)
    ensures s.consumed < |s.records|
    ensures Delivery(cfg, s.phase.got) == SampleOf(cfg, s.records[s.consumed])
    ensures U16At(s.phase.got, 6) == |Encode(cfg, s.records[s.consumed])|
  {
    hide Encode, EncodeAll, Delivered, SampleOf, WellFormed, Delivery, Demand, Consumed;
    var rec, k := s.records[s.consumed], |s.phase.got|;
    DemandOfPrefix(cfg, rec, k);
    GotIsNextRecord(cfg, s, k);
    DecodeInvertsEncode(cfg, rec);
  }

  lemma DeliveredNext(cfg: Config, rs: seq<Record>, c: nat)
    requires c < |rs|
    ensures Delivered(cfg, rs[..c + 1]) == Append(Delivered(cfg, rs[..c]), SampleOf(cfg, rs[c]))
  {
    assert rs[..c + 1][..c] == rs[..c];
  }

  lemma FinishKeeps(cfg: Config, s: State)
    requires Inv(cfg, s) && Enabled(cfg, s, Finish)
    ensures Inv(cfg, Do(cfg, s, Finish))
  {
    hide Encode, Window, SampleOf, WellFormed, EncodeAll, Demand, Consumed, Delivery, Delivered, Append;
    FinishTakesNext(cfg, s);
    PendingAfterNext(cfg, s);
    DeliveredNext(cfg, s.records, s.consumed);
  }

  lemma StepKeepsInv(cfg: Config, s: State, step: Step)
    requires Inv(cfg, s) && Enabled(cfg, s, step)
    ensures Inv(cfg, Do(cfg, s, step))
  {
    match step
    case KernelWrite(_, _) => KernelWriteKeeps(cfg, s, step);
    case KernelPublish(_) => KernelPublishKeeps(cfg, s, step);
    case Finish => FinishKeeps(cfg, s);
    case ReadByte => ReadByteKeeps(cfg, s, step);
    case _ => CheckKeeps(cfg, s, step);
  }

  // ----- whole runs -----

  predicate IsRun(cfg: Config, s: State, steps: seq<Step>)
    requires |s.data| > 0
    decreases |steps|
  {
    steps == [] || (Enabled(cfg, s, steps[0]) && IsRun(cfg, Do(cfg, s, steps[0]), steps[1..]))
  }

  function After(cfg: Config, s: State, steps: seq<Step>): (s': State)
    requires |s.data| > 0 && IsRun(cfg, s, steps)
    ensures |s'.data| == |s.data|
    decreases |steps|
  {
    if steps == [] then s else After(cfg, Do(cfg, s, steps[0]), steps[1..])
  }

  // The records the kernel published, in order.
  function Published(steps: seq<Step>): seq<Record> {
    if steps == [] then []
    else RecordsOf(steps[0]) + Published(steps[1..])
  }

  function RecordsOf(step: Step): seq<Record> {
    if step.KernelPublish? then [step.rec] else []
  }

  lemma StepRecords(cfg: Config, s: State, step: Step)
    requires |s.data| > 0 && Enabled(cfg, s, step)
    ensures Do(cfg, s, step).records == s.records + RecordsOf(step)
  {}

  lemma {:induction false} RunKeepsInv(cfg: Config, s: State, steps: seq<Step>)
    requires Inv(cfg, s) && IsRun(cfg, s, steps)
    ensures Inv(cfg, After(cfg, s, steps))
    ensures After(cfg, s, steps).records == s.records + Published(steps)
    decreases |steps|
  {
    hide Do, Enabled, RecordsOf;
    if steps != [] {
      StepKeepsInv(cfg, s, steps[0]);
      StepRecords(cfg, s, steps[0]);
      RunKeepsInv(cfg, Do(cfg, s, steps[0]), steps[1..]);
      ConcatAssociative(s.records, RecordsOf(steps[0]), Published(steps[1..]));
    }
  }

  // In every interleaving: the reader has been handed exactly the samples of a prefix of what the
  // kernel published, and the unread bytes are exactly the records not yet consumed.
  lemma RingIsFifo(cfg: Config, s: State, steps: seq<Step>)
    requires Initial(s) && IsRun(cfg, s, steps)
    ensures var t := After(cfg, s, steps);
            && t.tail <= t.read <= t.head <= t.tail + |t.data|
            && t.consumed <= |Published(steps)|
            && t.handled == Delivered(cfg, Published(steps)[..t.consumed])
            && Window(t.data, t.read, t.head - t.read) == EncodeAll(cfg, Published(steps)[t.consumed..])
            && (t.head == t.read ==> t.handled == Delivered(cfg, Published(steps)))
  {
    hide Do, Enabled, Encode, EncodeAll, Delivered, Window, Published, IsRun, After, ReadingOk;
    InitialInv(cfg, s);
    RunKeepsInv(cfg, s, steps);
    var t := After(cfg, s, steps);
    assert t.records == Published(steps);
    if t.head == t.read { DrainedMeansAll(cfg, t); }
  }

  lemma InitialInv(cfg: Config, s: State)
    requires Initial(s)
    ensures Inv(cfg, s)
  {
    assert Window(s.data, 0, 0) == [];
  }

  lemma DrainedMeansAll(cfg: Config, s: State)
    requires Inv(cfg, s) && s.head == s.read
    ensures s.consumed == |s.records| && s.handled == Delivered(cfg, s.records)
  {
    if s.consumed < |s.records| { GotIsNextRecord(cfg, s, 0); }
    assert s.records[..|s.records|] == s.records;
  }

  // ----- refinement of an unbounded queue -----

  datatype Fifo = Fifo(queue: seq<Record>, delivered: seq<SampleData>)

  function Abstract(s: State): Fifo
    requires s.consumed <= |s.records|
  {
    Fifo(s.records[s.consumed..], s.handled)
  }

  predicate FifoStep(cfg: Config, q: Fifo, q': Fifo) {
    || q' == q
    || (q.queue < q'.queue && |q'.queue| == |q.queue| + 1 && q'.delivered == q.delivered)
    || (q.queue != [] && q' == Fifo(q.queue[1..], Append(q.delivered, SampleOf(cfg, q.queue[0]))))
  }

  lemma InBounds(cfg: Config, s: State)
    requires Inv(cfg, s)
    ensures s.consumed <= |s.records| && |s.data| > 0
  {}

  lemma StepRefinesFifo(cfg: Config, s: State, step: Step)
    requires Inv(cfg, s) && Enabled(cfg, s, step)
    ensures Inv(cfg, Do(cfg, s, step))
    ensures FifoStep(cfg, Abstract(s), Abstract(Do(cfg, s, step)))
  {
    hide Inv, Encode, Window, WellFormed, Complete, Demand, Delivery, SampleOf, Append, U16At, Slot;
    InBounds(cfg, s);
    StepKeepsInv(cfg, s, step);
    var q, q' := Abstract(s), Abstract(Do(cfg, s, step));
    if step.KernelPublish? {
      assert q' == Fifo(q.queue + [step.rec], q.delivered);
    } else if step.Finish? {
      FinishTakesNext(cfg, s);
      assert q.queue[1..] == q'.queue;
    } else {
      assert q' == q;
    }
  }

  // ----- progress: left alone, the reader drains the ring -----

  predicate ReaderStep(step: Step) { !step.KernelWrite? && !step.KernelPublish? }

  function PhaseRank(s: State): nat {
    match s.phase
    case Publishing => 4
    case Checking => if s.processed < MAX_EVENTS_PER_READINESS then 1 else 3
    case Waiting => 2
    case Reading(_) => 0
  }

  function BytesLeft(cfg: Config, s: State): nat
    requires |s.data| > 0 && ReadingOk(cfg, s)
  {
    if s.phase.Reading? then Consumed(cfg, s.records[s.consumed]) - |s.phase.got| else 0
  }

  function NextReaderStep(cfg: Config, s: State): Step {
    match s.phase
    case Waiting => Wake
    case Checking => Check
    case Reading(got) => if |got| < Demand(cfg, got) then ReadByte else Finish
    case Publishing => PublishTail
  }

  lemma ReaderNeverStuck(cfg: Config, s: State)
    requires Inv(cfg, s)
    ensures Enabled(cfg, s, NextReaderStep(cfg, s))
  {
    if s.phase.Reading? {
      DemandOfPrefix(cfg, s.records[s.consumed], |s.phase.got|);
      GotIsNextRecord(cfg, s, |s.phase.got|);
    }
  }

  lemma NextStepProgress(cfg: Config, s: State)
    requires Inv(cfg, s) && s.consumed < |s.records|
    ensures Enabled(cfg, s, NextReaderStep(cfg, s))
    ensures var t := Do(cfg, s, NextReaderStep(cfg, s));
            && Inv(cfg, t) && t.records == s.records
            && (t.consumed == s.consumed + 1
                || (t.consumed == s.consumed && PhaseRank(t) < PhaseRank(s))
                || (t.consumed == s.consumed && PhaseRank(t) == PhaseRank(s)
                    && BytesLeft(cfg, t) < BytesLeft(cfg, s)))
  {
    ReaderNeverStuck(cfg, s);
    StepKeepsInv(cfg, s, NextReaderStep(cfg, s));
    GotIsNextRecord(cfg, s, 0);
  }

  lemma {:induction false} ReaderDrains(cfg: Config, s: State) returns (steps: seq<Step>)
    requires Inv(cfg, s)
    ensures IsRun(cfg, s, steps) && forall i :: 0 <= i < |steps| ==> ReaderStep(steps[i])
    ensures After(cfg, s, steps).handled == Delivered(cfg, s.records)
    decreases |s.records| - s.consumed, PhaseRank(s), BytesLeft(cfg, s)
  {
    if s.consumed == |s.records| {
      steps := [];
      assert s.records[..|s.records|] == s.records;
    } else {
      var step := NextReaderStep(cfg, s);
      NextStepProgress(cfg, s);
      var rest := ReaderDrains(cfg, Do(cfg, s, step));
      steps := [step] + rest;
      assert steps[1..] == rest;
    }
  }
}
