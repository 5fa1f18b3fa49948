// The consumer of src/perf.rs as the object it is: one readiness of `PerfMap::events` handles the
// oldest pending records, 128 at most, and leaves the rest in the ring.
module PerfMap {
  import opened Prelude
  import opened RingBytes
  import opened PerfRecord
  import opened PerfRing
  import opened PerfReader

  // The demand is settled by the bytes it names: more bytes do not change it.
  lemma DemandStable(cfg: Config, got: seq<byte>, m: nat)
    requires HEADER_SIZE <= m <= |got| && Complete(cfg, got[..m])
    ensures Demand(cfg, got) == m
  {
    PrefixWords(got, m, 0);
    PrefixWords(got, m, ChainAt(cfg));
    if U32At(got, 0) == PERF_RECORD_SAMPLE && (cfg.callchain ==> ChainAt(cfg) + 8 <= m) {
      PrefixWords(got, m, RegsAt(cfg, got[..m]));
    }
  }

  // Complete bytes at the front of the ring are exactly the fields of the next record.
  lemma CompleteIsNext(cfg: Config, s: State, got: seq<byte>)
    requires Inv(cfg, s) && s.head != s.read
    requires got == Window(s.data, s.read, |got|) && |got| >= HEADER_SIZE && Complete(cfg, got)
    ensures s.consumed < |s.records| && |got| == Consumed(cfg, s.records[s.consumed])
  {
    PendingNotEmpty(cfg, s);
    var rec, k := s.records[s.consumed], |got|;
    var c := Consumed(cfg, rec);
    DemandOfPrefix(cfg, rec, if k <= c then k else c);
    GotIsNextRecord(cfg, s, if k <= c then k else c);
    if k > c {
      WindowPrefix(s.data, s.read, k, c);
      DemandOfPrefix(cfg, rec, c);
      DemandStable(cfg, got, c);
    }
  }

  lemma MidRecord(cfg: Config, s: State, got: seq<byte>)
    requires Inv(cfg, s) && s.phase.Checking? && s.processed == 0 && s.consumed < |s.records|
    requires got == Window(s.data, s.read, |got|) && |got| == Consumed(cfg, s.records[s.consumed])
    ensures Inv(cfg, s.(phase := Reading(got)))
  {
    hide Encode, EncodeAll, Delivered, Window, WellFormed, Consumed;
  }

  lemma Recounted(cfg: Config, s: State)
    requires Inv(cfg, s) && s.phase.Checking?
    ensures Inv(cfg, s.(processed := 0))
  {
    hide Encode, EncodeAll, Delivered, Window, WellFormed, Consumed;
  }

  lemma FinishAndPublish(cfg: Config, s: State)
    requires Inv(cfg, s) && s.phase.Reading? && Complete(cfg, s.phase.got) && |s.phase.got| >= HEADER_SIZE
    ensures var read := s.read + U16At(s.phase.got, 6);
            Inv(cfg, s.(handled := Append(s.handled, Delivery(cfg, s.phase.got)), read := read, tail := read,
                        consumed := s.consumed + 1, phase := Checking, processed := s.processed + 1))
  {
    hide Inv, SampleOf, Delivery, Window, Append, Complete, U16At;
    InBounds(cfg, s);
    FinishKeeps(cfg, s);
    CheckKeeps(cfg, Do(cfg, s, Finish), PublishTail);
  }

  // Reading one record whole and moving on: the ring's steps `Finish` and `PublishTail` in one.
  lemma RecordHandled(cfg: Config, s: State, got: seq<byte>)
    requires Inv(cfg, s) && s.phase.Checking? && s.processed == 0 && s.head != s.read
    requires got == Window(s.data, s.read, |got|) && |got| >= HEADER_SIZE && Complete(cfg, got)
    ensures s.consumed < |s.records| && Delivery(cfg, got) == SampleOf(cfg, s.records[s.consumed])
    ensures Inv(cfg, s.(handled := Append(s.handled, Delivery(cfg, got)),
                        read := s.read + U16At(got, 6), tail := s.read + U16At(got, 6), consumed := s.consumed + 1))
  {
    hide Inv, SampleOf, Delivery, Window, Append, Demand, Consumed, Encode, U16At, U32At, WellFormed, Do;
    CompleteIsNext(cfg, s, got);
    MidRecord(cfg, s, got);
    var reading := s.(phase := Reading(got));
    InBounds(cfg, s);
    FinishTakesNext(cfg, reading);
    FinishAndPublish(cfg, reading);
    var read := s.read + U16At(got, 6);
    Recounted(cfg, reading.(handled := Append(s.handled, Delivery(cfg, got)), read := read, tail := read,
                            consumed := s.consumed + 1, phase := Checking, processed := 1));
  }

  // What the LOST branch logs for a record: the word it takes for the count.
  function LostLog(rec: Record): seq<u64> { if rec.Lost? then [rec.id] else [] }

  function LoggedOf(got: seq<byte>): seq<u64>
    requires |got| >= HEADER_SIZE && (U32At(got, 0) == PERF_RECORD_LOST ==> |got| >= HEADER_SIZE + 8)
  {
    if U32At(got, 0) == PERF_RECORD_LOST then [U64At(got, HEADER_SIZE)] else []
  }

  lemma RecordLogged(cfg: Config, s: State, got: seq<byte>)
    requires Inv(cfg, s) && s.head != s.read
    requires got == Window(s.data, s.read, |got|) && |got| >= HEADER_SIZE && Complete(cfg, got)
    ensures s.consumed < |s.records| && LoggedOf(got) == LostLog(s.records[s.consumed])
  {
    hide Window, Encode, EncodeAll, Delivered, Consumed;
    CompleteIsNext(cfg, s, got);
    var rec := s.records[s.consumed];
    LostWordOfPrefix(cfg, rec);
    GotIsNextRecord(cfg, s, |got|);
  }

  // The body of the inner loop up to the record's end: what it read, what it delivers, how far it moves.
  method ReadRecord(cfg: Config, ring: array<byte>, base: nat)
    returns (data: Option<SampleData>, size: u16, lost: seq<u64>, ghost got: seq<byte>)
    requires ring.Length > 0
    ensures got == Window(ring[..], base, |got|) && |got| >= HEADER_SIZE && Complete(cfg, got)
    ensures data == Delivery(cfg, got) && size == U16At(got, 6) && lost == LoggedOf(got)
  {
    var reader := new RingReader(ring, base);
    var kind, misc, length := reader.ReadHeader();
    data, size, lost := None, length, [];
    if kind == PERF_RECORD_SAMPLE {
      data := ReadSampleFrom(cfg, reader);
    } else if kind == PERF_RECORD_LOST {
      var count := reader.ReadU64();
      lost := [count];
    }
    StillThere(ring[..], base, HEADER_SIZE, reader.offset, 0);
    StillThere(ring[..], base, HEADER_SIZE, reader.offset, 6);
    got := reader.Seen();
  }

  lemma ByteAppended(data: seq<byte>, base: nat, i: nat, b: byte)
    requires i < |data|
    ensures Window(data[Slot(base + i, |data|) := b], base, i + 1) == Window(data, base, i) + [b]
  {
    WriteBeyondWindow(data, base, i, base + i, b);
  }

  lemma HeadInLap(cfg: Config, s: State)
    requires Inv(cfg, s)
    ensures |s.data| > 0 && s.tail <= s.head <= s.tail + |s.data|
  {}

  lemma HandledIsDelivered(cfg: Config, s: State)
    requires Inv(cfg, s)
    ensures s.consumed <= |s.records| && s.handled == Delivered(cfg, s.records[..s.consumed])
  {}

  class PerfMap {
    const cfg: Config
    const ring: array<byte>
    var dataHead: nat
    var dataTail: nat
    var readDataSize: nat
    var handled: seq<SampleData>
    var logged: seq<u64>         // the numbers the LOST branch has logged
    // What the kernel has published, and how much of it this reader has taken.
    ghost var records: seq<Record>
    ghost var consumed: nat

    ghost function View(): State
      reads this, ring
    {
      State(ring[..], dataHead, dataTail, readDataSize, 0, Checking, handled, records, consumed)
    }

    ghost predicate Valid()
      reads this, ring
    {
      ring.Length > 0 && Inv(cfg, View())
    }

    constructor (cfg: Config, ring: array<byte>)
      requires ring.Length > 0
      ensures Valid() && this.cfg == cfg && this.ring == ring
      ensures handled == [] && logged == [] && records == [] && consumed == 0 && dataHead == 0
    {
      this.cfg, this.ring := cfg, ring;
      dataHead, dataTail, readDataSize, handled, logged := 0, 0, 0, [], [];
      records, consumed := [], 0;
      new;
      assert Window(ring[..], 0, 0) == [];
    }

    // The view once the oldest record has been dealt with.
    ghost function Moved(data: Option<SampleData>, size: u16): State
      reads this, ring
    {
      View().(handled := Append(handled, data), read := readDataSize + size, tail := readDataSize + size,
              consumed := consumed + 1)
    }

    // Reads the record at the read position: the oldest one pending.
    method ReadNext() returns (data: Option<SampleData>, size: u16, lost: seq<u64>)
      requires Valid() && dataHead != readDataSize
      ensures consumed < |records| && data == SampleOf(cfg, records[consumed])
      ensures lost == LostLog(records[consumed])
      ensures Inv(cfg, Moved(data, size))
    {
      hide Inv, SampleOf, Delivery, Complete, Append, Window, Encode, U16At, LoggedOf, LostLog;
      ghost var got;
      data, size, lost, got := ReadRecord(cfg, ring, readDataSize);
      RecordHandled(cfg, View(), got);
      RecordLogged(cfg, View(), got);
    }

    // One turn of the inner loop.
    method HandleNext()
      requires Valid() && dataHead != readDataSize
      modifies this`dataTail, this`readDataSize, this`handled, this`logged, this`consumed
      ensures Valid() && consumed == old(consumed) + 1 <= |records|
      ensures handled == Append(old(handled), SampleOf(cfg, records[old(consumed)]))
      ensures logged == old(logged) + LostLog(records[old(consumed)])
      ensures dataTail == readDataSize
    {
      hide Inv, SampleOf, LostLog;
      var data, size, lost := ReadNext();
      ghost var moved := Moved(data, size);
      if data.Some? {
        handled := handled + [data.value];
      }
      logged := logged + lost;
      readDataSize := readDataSize + size;
      dataTail := readDataSize;
      consumed := consumed + 1;
      assert View() == moved;
    }

    // The kernel's side: a record goes in when there is room for it, byte by byte, and the head moves last.
    method Publish(rec: Record) returns (fits: bool)
      requires Valid() && WellFormed(cfg, rec)
      modifies this`dataHead, this`records, ring
      ensures Valid() && (fits <==> old(dataHead) + |Encode(cfg, rec)| <= dataTail + ring.Length)
      ensures records == old(records) + (if fits then [rec] else [])
      ensures dataHead == old(dataHead) + (if fits then |Encode(cfg, rec)| else 0)
    {
      hide Inv, Encode, WellFormed, Window;
      var bytes := Encode(cfg, rec);
      fits := dataHead + |bytes| <= dataTail + ring.Length;
      if fits {
        WriteBytes(bytes);
        ghost var s := View();
        KernelPublishKeeps(cfg, s, KernelPublish(rec));
        records := records + [rec];
        dataHead := dataHead + |bytes|;
        assert View() == Do(cfg, s, KernelPublish(rec));
      }
    }

    method WriteBytes(bytes: seq<byte>)
      requires Valid() && dataHead + |bytes| <= dataTail + ring.Length
      modifies ring
      ensures Valid() && Window(ring[..], dataHead, |bytes|) == bytes
    {
      hide Inv;
      for i := 0 to |bytes|
        invariant Valid() && Window(ring[..], dataHead, i) == bytes[..i]
      {
        WriteByte(i, bytes[i]);
        assert bytes[..i + 1] == bytes[..i] + [bytes[i]];
      }
      assert bytes[..|bytes|] == bytes;
    }

    // One byte of a record being written, `i` bytes past the head.
    method WriteByte(i: nat, b: byte)
      requires Valid() && dataHead + i < dataTail + ring.Length
      modifies ring
      ensures Valid() && Window(ring[..], dataHead, i + 1) == Window(old(ring[..]), dataHead, i) + [b]
    {
      hide Inv, Window;
      ghost var s, step := View(), KernelWrite(dataHead + i, b);
      HeadInLap(cfg, s);
      KernelWriteKeeps(cfg, s, step);
      var at := (dataHead + i) % ring.Length;
      SlotIsMod(dataHead + i, ring.Length);
      ring[at] := b;
      assert View() == Do(cfg, s, step);
      ByteAppended(s.data, dataHead, i, b);
    }

    method PublishAll(recs: seq<Record>)
      requires Valid() && forall k :: 0 <= k < |recs| ==> WellFormed(cfg, recs[k])
      modifies this`dataHead, this`records, ring
      ensures Valid() && old(records) <= records
    {
      for k := 0 to |recs|
        invariant Valid() && old(records) <= records
      {
        var fits := Publish(recs[k]);
      }
    }

    // The records handled in one readiness: the oldest ones, up to the batch limit. `arriving[k]` is what
    // the kernel publishes, as far as it fits, before the k-th look at the head.
    method HandleReadiness(arriving: seq<seq<Record>>) returns (processed: nat)
      requires Valid()
      requires forall j, k :: 0 <= j < |arriving| && 0 <= k < |arriving[j]| ==> WellFormed(cfg, arriving[j][k])
      modifies this`dataTail, this`readDataSize, this`handled, this`logged, this`consumed
      modifies this`dataHead, this`records, ring
      ensures Valid() && old(records) <= records && (arriving == [] ==> records == old(records))
      ensures var pending := |records| - old(consumed);
              processed == if pending < 128 then pending else 128
      ensures consumed == old(consumed) + processed
      ensures handled == Delivered(cfg, records[..consumed])
    {
      hide Inv, Delivered, SampleOf, LostLog, Append, WellFormed, Encode;
      processed := 0;
      InBounds(cfg, View());
      while true
        invariant Valid() && processed <= MAX_EVENTS_PER_READINESS
        invariant old(records) <= records && (arriving == [] ==> records == old(records))
        invariant consumed == old(consumed) + processed <= |records|
        decreases MAX_EVENTS_PER_READINESS - processed
      {
        if processed < |arriving| {
          PublishAll(arriving[processed]);
        }
        if dataHead == readDataSize || processed == MAX_EVENTS_PER_READINESS {
          break;
        }
        HandleNext();
        processed := processed + 1;
      }
      if dataHead == readDataSize { DrainedMeansAll(cfg, View()); }
      HandledIsDelivered(cfg, View());
    }
  }
}
