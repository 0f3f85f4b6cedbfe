/** When the intervals of the accepted records of a cpu and event cover time without gap or overlap. */
module Tiling {
  import opened Common
  import opened Importer

  /** Times of a history never decrease and never precede the start. */
  predicate Ordered(start: uint64, h: seq<Seen>) {
    forall i :: 0 <= i < |h| ==> !GoesBack(start, h, i)
  }

  /** When the event of h[i] was seen before. */
  function Previous(start: uint64, h: seq<Seen>, i: nat): (t: uint64)
    requires i < |h|
  {
    if i == 0 then start else h[i - 1].time
  }

  predicate GoesBack(start: uint64, h: seq<Seen>, i: nat)
    requires i < |h|
  {
    h[i].time < Previous(start, h, i)
  }

  predicate Advances(start: uint64, h: seq<Seen>, i: nat)
    requires i < |h|
  {
    Previous(start, h, i) < h[i].time
  }

  /** The intervals follow each other without gap or overlap from the start to the last, within the stop time. */
  predicate Tiles(start: uint64, stop: uint64, a: seq<Interval>) {
    && (a != [] ==> a[0].from == start)
    && (forall i :: 0 <= i < |a| - 1 ==> a[i].to == a[i + 1].from)
    && (forall i :: 0 <= i < |a| ==> a[i].from < a[i].to <= stop)
  }

  function EndOf(start: uint64, a: seq<Interval>): (t: uint64) {
    if a == [] then start else a[|a| - 1].to
  }

  lemma TilesStep(start: uint64, stop: uint64, a: seq<Interval>, x: Interval)
    ensures Tiles(start, stop, a + [x]) <==> Tiles(start, stop, a) && x.from == EndOf(start, a) && x.from < x.to <= stop
  {
    var b := a + [x];
    if Tiles(start, stop, b) {
      assert forall i :: 0 <= i < |a| ==> b[i] == a[i];
      assert b[|a|] == x;
      if a != [] {
        assert b[|a| - 1].to == b[|a| - 1 + 1].from;
      }
      forall i | 0 <= i < |a| - 1
        ensures a[i].to == a[i + 1].from
      {
        assert b[i].to == b[i + 1].from;
      }
    }
  }

  /** The furthest time that accepted records of a history reach. */
  function Furthest(start: uint64, stop: uint64, h: seq<Seen>): (t: uint64) {
    if h == [] then start
    else
      var init, s := h[..|h| - 1], h[|h| - 1];
      var f := Furthest(start, stop, init);
      if Judge(LastSeen(start, init), s.time, stop).Accepted? && f < s.time then s.time else f
  }

  /** A record is accepted only when its event was last seen at the furthest time reached. */
  predicate AcceptsAtFurthest(start: uint64, stop: uint64, h: seq<Seen>) {
    forall i :: 0 <= i < |h| && Judge(Previous(start, h, i), h[i].time, stop).Accepted? ==>
      Previous(start, h, i) == Furthest(start, stop, h[..i])
  }

  lemma AcceptsAtFurthestStep(start: uint64, stop: uint64, h: seq<Seen>, s: Seen)
    ensures AcceptsAtFurthest(start, stop, h + [s]) <==>
            && AcceptsAtFurthest(start, stop, h)
            && (Judge(LastSeen(start, h), s.time, stop).Accepted? ==> LastSeen(start, h) == Furthest(start, stop, h))
  {
    var g := h + [s];
    forall i | 0 <= i < |h|
      ensures g[i] == h[i] && Previous(start, g, i) == Previous(start, h, i) && g[..i] == h[..i]
    {
    }
    assert g[..|h|] == h && Previous(start, g, |h|) == LastSeen(start, h);
  }

  lemma FurthestStep(start: uint64, stop: uint64, h: seq<Seen>, s: Seen)
    ensures Furthest(start, stop, h + [s]) ==
            var f := Furthest(start, stop, h);
            if Judge(LastSeen(start, h), s.time, stop).Accepted? && f < s.time then s.time else f
  {
    assert (h + [s])[..|h|] == h;
  }

  /** The exact condition for one stop time: no accepted interval starts short of what is covered, or beyond it. */
  lemma {:induction false} TilesIffAcceptsAtFurthest(start: uint64, stop: uint64, h: seq<Seen>)
    ensures Tiles(start, stop, AcceptedOf(start, stop, h)) <==> AcceptsAtFurthest(start, stop, h)
    ensures AcceptsAtFurthest(start, stop, h) ==> Furthest(start, stop, h) == EndOf(start, AcceptedOf(start, stop, h))
    decreases |h|
  {
    if h != [] {
      TilesIffAcceptsAtFurthest(start, stop, h[..|h| - 1]);
      TilesIffStep(start, stop, h[..|h| - 1], h[|h| - 1]);
      SplitLast(h);
    }
  }

  lemma TilesIffStep(start: uint64, stop: uint64, h: seq<Seen>, s: Seen)
    requires Tiles(start, stop, AcceptedOf(start, stop, h)) <==> AcceptsAtFurthest(start, stop, h)
    requires AcceptsAtFurthest(start, stop, h) ==> Furthest(start, stop, h) == EndOf(start, AcceptedOf(start, stop, h))
    ensures var g := h + [s];
            && (Tiles(start, stop, AcceptedOf(start, stop, g)) <==> AcceptsAtFurthest(start, stop, g))
            && (AcceptsAtFurthest(start, stop, g) ==>
                Furthest(start, stop, g) == EndOf(start, AcceptedOf(start, stop, g)))
  {
    AcceptedStep(start, stop, h, s);
    AcceptsAtFurthestStep(start, stop, h, s);
    FurthestStep(start, stop, h, s);
    TilesStep(start, stop, AcceptedOf(start, stop, h), Interval(LastSeen(start, h), s.time, s.record));
  }

  /** Once time has gone back it never advances again. */
  predicate NeverAdvancesAfterGoingBack(start: uint64, h: seq<Seen>) {
    forall i, j :: 0 <= i < j < |h| && GoesBack(start, h, i) ==> !Advances(start, h, j)
  }

  lemma {:induction false} OrderedReachesLast(start: uint64, stop: uint64, h: seq<Seen>)
    requires Ordered(start, h) && LastSeen(start, h) <= stop
    ensures Furthest(start, stop, h) == LastSeen(start, h)
    decreases |h|
  {
    if h != [] {
      var n := |h| - 1;
      OrderedPrefix(start, h, n);
      assert !GoesBack(start, h, n);
      assert LastSeen(start, h[..n]) == Previous(start, h, n);
      OrderedReachesLast(start, stop, h[..n]);
    }
  }

  lemma OrderedPrefix(start: uint64, h: seq<Seen>, k: nat)
    requires k <= |h| && forall i :: 0 <= i < k ==> !GoesBack(start, h, i)
    ensures Ordered(start, h[..k])
  {
    forall i | 0 <= i < k
      ensures !GoesBack(start, h[..k], i)
    {
      assert !GoesBack(start, h, i);
    }
  }

  lemma AdvanceStartsAtFurthest(start: uint64, stop: uint64, h: seq<Seen>, j: nat)
    requires j < |h| && Judge(Previous(start, h, j), h[j].time, stop).Accepted?
    requires forall i :: 0 <= i < j ==> !GoesBack(start, h, i)
    ensures Previous(start, h, j) == Furthest(start, stop, h[..j])
  {
    OrderedPrefix(start, h, j);
    OrderedReachesLast(start, stop, h[..j]);
  }

  /** Sufficient for every stop time. */
  lemma TilesUntilItGoesBack(start: uint64, stop: uint64, h: seq<Seen>)
    requires NeverAdvancesAfterGoingBack(start, h)
    ensures Tiles(start, stop, AcceptedOf(start, stop, h))
  {
    forall j | 0 <= j < |h| && Judge(Previous(start, h, j), h[j].time, stop).Accepted?
      ensures Previous(start, h, j) == Furthest(start, stop, h[..j])
    {
      assert Advances(start, h, j);
      AdvanceStartsAtFurthest(start, stop, h, j);
    }
    TilesIffAcceptsAtFurthest(start, stop, h);
  }

  /** Without late records, having gone back leaves the last time short of the furthest for good. */
  lemma {:induction false} GoneBackStaysShort(start: uint64, stop: uint64, h: seq<Seen>)
    requires AcceptsAtFurthest(start, stop, h) && forall i :: 0 <= i < |h| ==> h[i].time <= stop
    ensures LastSeen(start, h) <= Furthest(start, stop, h)
    ensures LastSeen(start, h) == Furthest(start, stop, h) ==> Ordered(start, h)
    decreases |h|
  {
    if h != [] {
      var init, s := h[..|h| - 1], h[|h| - 1];
      SplitLast(h);
      AcceptsAtFurthestStep(start, stop, init, s);
      GoneBackStaysShort(start, stop, init);
      StaysShortStep(start, stop, init, s);
    }
  }

  lemma StaysShortStep(start: uint64, stop: uint64, h: seq<Seen>, s: Seen)
    requires s.time <= stop && LastSeen(start, h) <= Furthest(start, stop, h)
    requires LastSeen(start, h) == Furthest(start, stop, h) ==> Ordered(start, h)
    requires Judge(LastSeen(start, h), s.time, stop).Accepted? ==> LastSeen(start, h) == Furthest(start, stop, h)
    ensures s.time <= Furthest(start, stop, h + [s])
    ensures s.time == Furthest(start, stop, h + [s]) ==> Ordered(start, h + [s])
  {
    FurthestStep(start, stop, h, s);
    OrderedStep(start, h, s);
  }

  lemma OrderedStep(start: uint64, h: seq<Seen>, s: Seen)
    ensures Ordered(start, h + [s]) <==> Ordered(start, h) && LastSeen(start, h) <= s.time
  {
    var g := h + [s];
    forall i | 0 <= i < |h|
      ensures GoesBack(start, g, i) == GoesBack(start, h, i)
    {
    }
    assert GoesBack(start, g, |h|) == (s.time < LastSeen(start, h));
  }

  /** The exact condition on the times of a cpu and event when none is past the stop time. */
  lemma TilesIffNeverAdvancesAfterGoingBack(start: uint64, stop: uint64, h: seq<Seen>)
    requires forall i :: 0 <= i < |h| ==> h[i].time <= stop
    ensures Tiles(start, stop, AcceptedOf(start, stop, h)) <==> NeverAdvancesAfterGoingBack(start, h)
  {
    TilesIffAcceptsAtFurthest(start, stop, h);
    if AcceptsAtFurthest(start, stop, h) {
      forall i, j | 0 <= i < j < |h| && GoesBack(start, h, i)
        ensures !Advances(start, h, j)
      {
        AdvanceMeansOrdered(start, stop, h, j);
        if Ordered(start, h[..j]) {
          assert GoesBack(start, h[..j], i);
        }
      }
    }
    if NeverAdvancesAfterGoingBack(start, h) {
      TilesUntilItGoesBack(start, stop, h);
    }
  }

  lemma AdvanceMeansOrdered(start: uint64, stop: uint64, h: seq<Seen>, j: nat)
    requires AcceptsAtFurthest(start, stop, h) && forall i :: 0 <= i < |h| ==> h[i].time <= stop
    requires j < |h|
    ensures Advances(start, h, j) ==> Ordered(start, h[..j])
  {
    forall i | 0 <= i < j && Judge(Previous(start, h[..j], i), h[..j][i].time, stop).Accepted?
      ensures Previous(start, h[..j], i) == Furthest(start, stop, h[..j][..i])
    {
      assert h[..j][..i] == h[..i] && Previous(start, h, i) == Previous(start, h[..j], i);
    }
    GoneBackStaysShort(start, stop, h[..j]);
    assert LastSeen(start, h[..j]) == Previous(start, h, j);
  }

  /**
   The intervals of the accepted records of a cpu and event tile, whatever the stop time, if and
   only if the times at its records never advance after having gone back, the start included.
   */
  lemma TilesForEveryStopIff(start: uint64, initial: uint64, records: seq<Record>, cpu: Cpu, event: EventId)
    ensures var h := History(initial, records, cpu, event);
            (forall stop: uint64 :: Tiles(start, stop, AcceptedOf(start, stop, h))) <==>
              NeverAdvancesAfterGoingBack(start, h)
  {
    var h := History(initial, records, cpu, event);
    TilesIffNeverAdvancesAfterGoingBack(start, TWO_64 - 1, h);
    if NeverAdvancesAfterGoingBack(start, h) {
      forall stop: uint64
        ensures Tiles(start, stop, AcceptedOf(start, stop, h))
      {
        TilesUntilItGoesBack(start, stop, h);
      }
    }
  }

  /** The records of one cpu, of any event, except those that only move the clock. */
  function CpuHistory(initial: uint64, records: seq<Record>, cpu: Cpu): (h: seq<Seen>) {
    if records == [] then []
    else
      var init, r := records[..|records| - 1], records[|records| - 1];
      var h := CpuHistory(initial, init, cpu);
      if !r.TimeOnly() && r.cpu == cpu then h + [Seen(r, ClockAfter(initial, records))] else h
  }

  lemma {:induction false} EventsOfOrderedCpu(start: uint64, initial: uint64, records: seq<Record>, cpu: Cpu,
                                              event: EventId)
    requires Ordered(start, CpuHistory(initial, records, cpu))
    ensures Ordered(start, History(initial, records, cpu, event))
    ensures LastSeen(start, History(initial, records, cpu, event)) <= LastSeen(start, CpuHistory(initial, records, cpu))
    decreases |records|
  {
    if records != [] {
      var init, s := records[..|records| - 1], Seen(records[|records| - 1], ClockAfter(initial, records));
      OrderedStep(start, CpuHistory(initial, init, cpu), s);
      EventsOfOrderedCpu(start, initial, init, cpu, event);
      OrderedStep(start, History(initial, init, cpu, event), s);
    }
  }

  /**
   When the clock at the records of a cpu is never before the start of the trace and never goes back
   among them, whatever it does at other cpus, the intervals of the accepted records of each event of
   that cpu tile the time from the start to the last accepted record, within the stop time.
   */
  lemma AcceptedIntervalsTile(start: uint64, stop: uint64, initial: uint64, records: seq<Record>, cpu: Cpu,
                              event: EventId)
    requires Ordered(start, CpuHistory(initial, records, cpu))
    ensures Tiles(start, stop, AcceptedOf(start, stop, History(initial, records, cpu, event)))
  {
    EventsOfOrderedCpu(start, initial, records, cpu, event);
    TilesUntilItGoesBack(start, stop, History(initial, records, cpu, event));
  }

  // ----- what the reader delivers: the buffer of one cpu after another -----

  /** A cpu's buffer: it begins with a time, and its times do not precede the start nor go back. */
  predicate BufferOrdered(start: uint64, cpu: Cpu, b: seq<Record>) {
    && (forall i :: 0 <= i < |b| ==> b[i].cpu == cpu)
    && (b != [] ==> b[0].kind.Time?)
    && (forall i :: 0 <= i < |b| && b[i].kind.Time? ==> start <= b[i].readerTime)
    && (forall i, j :: 0 <= i <= j < |b| && b[i].kind.Time? && b[j].kind.Time? ==> b[i].readerTime <= b[j].readerTime)
  }

  /** The records in reading order. */
  function AllRecords(buffers: seq<seq<Record>>): (records: seq<Record>) {
    if buffers == [] then [] else AllRecords(buffers[..|buffers| - 1]) + buffers[|buffers| - 1]
  }

  lemma {:induction false} ClockIsLastTime(initial: uint64, records: seq<Record>)
    ensures (records != [] && records[0].kind.Time?) ==>
              exists i :: 0 <= i < |records| && records[i].kind.Time?
                && records[i].readerTime == ClockAfter(initial, records)
    decreases |records|
  {
    if records != [] && !records[|records| - 1].kind.Time? {
      var init := records[..|records| - 1];
      ClockIsLastTime(initial, init);
      if init != [] && init[0].kind.Time? {
        var i :| 0 <= i < |init| && init[i].kind.Time? && init[i].readerTime == ClockAfter(initial, init);
        assert records[i] == init[i];
      }
    }
  }

  lemma BufferClock(start: uint64, initial: uint64, cpu: Cpu, b: seq<Record>)
    requires BufferOrdered(start, cpu, b) && b != []
    ensures BufferOrdered(start, cpu, b[..|b| - 1]) && start <= ClockAfter(initial, b)
    ensures |b| > 1 ==> ClockAfter(initial, b[..|b| - 1]) <= ClockAfter(initial, b)
  {
    ClockIsLastTime(initial, b);
    ClockIsLastTime(initial, b[..|b| - 1]);
  }

  lemma {:induction false} BufferHistoryOrdered(start: uint64, initial: uint64, cpu: Cpu, b: seq<Record>)
    requires BufferOrdered(start, cpu, b)
    ensures Ordered(start, CpuHistory(initial, b, cpu))
    ensures b != [] ==> LastSeen(start, CpuHistory(initial, b, cpu)) <= ClockAfter(initial, b)
    decreases |b|
  {
    if b != [] {
      var init := b[..|b| - 1];
      BufferClock(start, initial, cpu, b);
      BufferHistoryOrdered(start, initial, cpu, init);
      OrderedStep(start, CpuHistory(initial, init, cpu), Seen(b[|b| - 1], ClockAfter(initial, b)));
    }
  }

  lemma {:induction false} CpuHistoryConcat(initial: uint64, a: seq<Record>, b: seq<Record>, cpu: Cpu)
    ensures ClockAfter(initial, a + b) == ClockAfter(ClockAfter(initial, a), b)
    ensures CpuHistory(initial, a + b, cpu) == CpuHistory(initial, a, cpu) + CpuHistory(ClockAfter(initial, a), b, cpu)
    decreases |b|
  {
    if b == [] {
      assert a + b == a;
    } else {
      assert (a + b)[..|a + b| - 1] == a + b[..|b| - 1];
      CpuHistoryConcat(initial, a, b[..|b| - 1], cpu);
    }
  }

  lemma {:induction false} OtherCpuAddsNothing(initial: uint64, b: seq<Record>, cpu: Cpu)
    requires forall i :: 0 <= i < |b| ==> b[i].cpu != cpu
    ensures CpuHistory(initial, b, cpu) == []
    decreases |b|
  {
    if b != [] {
      OtherCpuAddsNothing(initial, b[..|b| - 1], cpu);
    }
  }

  lemma {:induction false} ReaderHistoryOrdered(start: uint64, initial: uint64, buffers: seq<seq<Record>>, cpu: Cpu)
    requires |buffers| <= 32 && forall k :: 0 <= k < |buffers| ==> BufferOrdered(start, k, buffers[k])
    ensures Ordered(start, CpuHistory(initial, AllRecords(buffers), cpu))
    ensures |buffers| <= cpu ==> CpuHistory(initial, AllRecords(buffers), cpu) == []
    decreases |buffers|
  {
    if buffers != [] {
      var n := |buffers| - 1;
      ReaderHistoryOrdered(start, initial, buffers[..n], cpu);
      NextBuffer(start, initial, AllRecords(buffers[..n]), n, buffers[n], cpu);
    }
  }

  lemma NextBuffer(start: uint64, initial: uint64, before: seq<Record>, n: Cpu, b: seq<Record>, cpu: Cpu)
    requires BufferOrdered(start, n, b) && Ordered(start, CpuHistory(initial, before, cpu))
    requires n <= cpu ==> CpuHistory(initial, before, cpu) == []
    ensures Ordered(start, CpuHistory(initial, before + b, cpu))
    ensures n < cpu ==> CpuHistory(initial, before + b, cpu) == []
  {
    var h, clock := CpuHistory(initial, before, cpu), ClockAfter(initial, before);
    CpuHistoryConcat(initial, before, b, cpu);
    if n == cpu {
      BufferHistoryOrdered(start, clock, cpu, b);
      assert [] + CpuHistory(clock, b, cpu) == CpuHistory(clock, b, cpu);
    } else {
      OtherCpuAddsNothing(clock, b, cpu);
      assert h + [] == h;
    }
  }

  /**
   For what the reader delivers, whose clock is zero at first and goes back with every buffer, the
   accepted intervals of every cpu and event tile, if each buffer begins with a time and its times
   neither precede the start of the trace nor go back.
   */
  lemma ReaderTracesTile(start: uint64, stop: uint64, buffers: seq<seq<Record>>, cpu: Cpu, event: EventId)
    requires |buffers| <= 32 && forall k :: 0 <= k < |buffers| ==> BufferOrdered(start, k, buffers[k])
    ensures Tiles(start, stop, AcceptedOf(start, stop, History(0, AllRecords(buffers), cpu, event)))
  {
    ReaderHistoryOrdered(start, 0, buffers, cpu);
    AcceptedIntervalsTile(start, stop, 0, AllRecords(buffers), cpu, event);
  }

  /**
   A buffer that begins with another record does not tile: the reader's clock is still zero there, so
   the next interval reaches back to zero.
   */
  lemma EarlyRecordBreaksTiling(start: uint64, stop: uint64, t: uint64, cpu: Cpu, event: EventId)
    requires 0 < start && 0 < t <= stop
    ensures var records := [Record(cpu, event, Count, 1, 0), Record(cpu, EVENT_NONE, Time, 0, t),
                            Record(cpu, event, Count, 1, t)];
            !Tiles(start, stop, AcceptedOf(start, stop, History(0, records, cpu, event)))
  {
    var r1, r2, r3 := Record(cpu, event, Count, 1, 0), Record(cpu, EVENT_NONE, Time, 0, t),
      Record(cpu, event, Count, 1, t);
    HistoryStep(0, [], r1, cpu, event);
    HistoryStep(0, [] + [r1], r2, cpu, event);
    HistoryStep(0, [] + [r1] + [r2], r3, cpu, event);
    assert [] + [r1] + [r2] + [r3] == [r1, r2, r3];
    var s1, s3 := Seen(r1, 0), Seen(r3, t);
    AcceptedStep(start, stop, [], s1);
    AcceptedStep(start, stop, [] + [s1], s3);
    assert AcceptedOf(start, stop, [] + [s1] + [s3])[0].from == 0;
  }
}
