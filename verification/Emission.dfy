/** What the imported records amount to in the trace, cpu by cpu and event by event. */
module Emission {
  import opened Common
  import opened Importer

  // ----- what is written for a cpu and event -----

  /** The records written for one cpu and event, in order. */
  function OfPair(out: seq<Emitted>, cpu: Cpu, event: EventId): (mine: seq<Emitted>) {
    if out == [] then []
    else
      var last := out[|out| - 1];
      OfPair(out[..|out| - 1], cpu, event) + if last.cpu == cpu && last.event == event then [last] else []
  }

  /** The same records k times over: an event may be configured more than once. */
  function Times(k: nat, some: seq<Emitted>): (out: seq<Emitted>) {
    if k == 0 then [] else Times(k - 1, some) + some
  }

  function Occurrences(events: seq<EventId>, event: EventId): (n: nat) {
    if events == [] then 0
    else Occurrences(events[..|events| - 1], event) + if events[|events| - 1] == event then 1 else 0
  }

  lemma {:induction false} OfPairAppend(out: seq<Emitted>, more: seq<Emitted>, cpu: Cpu, event: EventId)
    ensures OfPair(out + more, cpu, event) == OfPair(out, cpu, event) + OfPair(more, cpu, event)
    decreases |more|
  {
    if more == [] {
      assert out + more == out;
    } else {
      OfPairAppend(out, more[..|more| - 1], cpu, event);
      assert (out + more)[..|out + more| - 1] == out + more[..|more| - 1];
    }
  }

  lemma {:induction false} OfOthers(out: seq<Emitted>, cpu: Cpu, event: EventId)
    requires forall i :: 0 <= i < |out| ==> out[i].cpu != cpu || out[i].event != event
    ensures OfPair(out, cpu, event) == []
  {
    if out != [] {
      OfOthers(out[..|out| - 1], cpu, event);
    }
  }

  lemma OfItself(some: seq<Emitted>, cpu: Cpu, event: EventId)
    requires 1 <= |some| <= 2 && forall i :: 0 <= i < |some| ==> some[i].cpu == cpu && some[i].event == event
    ensures OfPair(some, cpu, event) == some
  {
    assert OfPair([], cpu, event) == [] && some[..1][..0] == [] && OfPair(some[..1], cpu, event) == some[..1];
    if |some| == 2 {
      assert some == some[..1] + [some[1]];
    } else {
      assert some == some[..1];
    }
  }

  lemma OneMoreCpu(out: seq<Emitted>, some: seq<Emitted>, n: nat, cpu: Cpu, event: EventId, mine: seq<Emitted>)
    requires OfPair(out, cpu, event) == if cpu < n then mine else []
    requires OfPair(some, cpu, event) == if n == cpu then mine else []
    ensures OfPair(out + some, cpu, event) == if cpu < n + 1 then mine else []
  {
    OfPairAppend(out, some, cpu, event);
  }

  /** One or two records, or none, all of a cpu and event. */
  predicate OnlyOf(some: seq<Emitted>, cpu: Cpu, event: EventId) {
    |some| <= 2 && forall i :: 0 <= i < |some| ==> some[i].cpu == cpu && some[i].event == event
  }

  /** What a visit of a cpu and event writes concerns that cpu and event only. */
  lemma OneMoreVisit(out: seq<Emitted>, some: seq<Emitted>, of: Cpu, visited: EventId, cpu: Cpu, event: EventId)
    requires OnlyOf(some, of, visited)
    ensures OfPair(out + some, cpu, event) ==
            OfPair(out, cpu, event) + if of == cpu && visited == event then some else []
  {
    OfPairAppend(out, some, cpu, event);
    if of != cpu || visited != event || some == [] {
      OfOthers(some, cpu, event);
    } else {
      OfItself(some, cpu, event);
    }
  }

  /** What one visit of a cpu and event with the given history writes. */
  function PairRecords(start: uint64, stop: uint64, cpu: Cpu, event: EventId, h: seq<Seen>): (out: seq<Emitted>)
    ensures OnlyOf(out, cpu, event)
  {
    if h == [] then [] else TallyRecords(start, stop, cpu, event, Tally(AcceptedOf(start, stop, h)))
  }

  /** What visiting events one after the other writes, if visiting e writes f(e). */
  function Visits(f: EventId -> seq<Emitted>, events: seq<EventId>): (out: seq<Emitted>) {
    if events == [] then [] else Visits(f, events[..|events| - 1]) + f(events[|events| - 1])
  }

  ghost predicate WritesOf(f: EventId -> seq<Emitted>, of: Cpu) {
    forall e: EventId :: OnlyOf(f(e), of, e)
  }

  lemma OneMoreTime(k: nat, some: seq<Emitted>)
    ensures Times(k + 1, some) == Times(k, some) + some
  {
  }

  lemma {:induction false} VisitsOfPair(f: EventId -> seq<Emitted>, events: seq<EventId>, of: Cpu, cpu: Cpu,
                                        event: EventId)
    requires WritesOf(f, of)
    ensures OfPair(Visits(f, events), cpu, event) ==
            if of == cpu then Times(Occurrences(events, event), f(event)) else []
  {
    if events != [] {
      var n := |events| - 1;
      VisitsOfPair(f, events[..n], of, cpu, event);
      OneMoreVisit(Visits(f, events[..n]), f(events[n]), of, events[n], cpu, event);
      if events[n] == event {
        OneMoreTime(Occurrences(events[..n], event), f(event));
      }
    }
  }

  function PairWriter(start: uint64, stop: uint64, initial: uint64, records: seq<Record>,
                      cpu: Cpu): (f: EventId -> seq<Emitted>)
    ensures WritesOf(f, cpu)
  {
    (e: EventId) => PairRecords(start, stop, cpu, e, History(initial, records, cpu, e))
  }

  lemma {:induction false} CpuVisits(start: uint64, stop: uint64, initial: uint64, records: seq<Record>, cpu: Cpu,
                                     events: seq<EventId>)
    ensures TallyCpu(start, stop, initial, records, cpu, events) ==
            Visits(PairWriter(start, stop, initial, records, cpu), events)
  {
    if events != [] {
      CpuVisits(start, stop, initial, records, cpu, events[..|events| - 1]);
    }
  }

  lemma CpuWrites(start: uint64, stop: uint64, initial: uint64, records: seq<Record>, of: Cpu, events: seq<EventId>,
                  cpu: Cpu, event: EventId)
    ensures OfPair(TallyCpu(start, stop, initial, records, of, events), cpu, event) ==
            if of == cpu then Times(Occurrences(events, event), PairWriter(start, stop, initial, records, cpu)(event))
            else []
  {
    CpuVisits(start, stop, initial, records, of, events);
    VisitsOfPair(PairWriter(start, stop, initial, records, of), events, of, cpu, event);
  }

  /** Only the visit of its own cpu writes anything for a cpu and event. */
  lemma {:induction false} AllWrites(start: uint64, stop: uint64, initial: uint64, records: seq<Record>, numCpus: nat,
                                     events: seq<EventId>, cpu: Cpu, event: EventId)
    requires numCpus <= 32
    ensures OfPair(TallyAll(start, stop, initial, records, numCpus, events), cpu, event) ==
            if cpu < numCpus then OfPair(TallyCpu(start, stop, initial, records, cpu, events), cpu, event) else []
  {
    if numCpus > 0 {
      var n := numCpus - 1;
      AllWrites(start, stop, initial, records, n, events, cpu, event);
      if n != cpu {
        CpuWrites(start, stop, initial, records, n, events, cpu, event);
      }
      OneMoreCpu(TallyAll(start, stop, initial, records, n, events),
                 TallyCpu(start, stop, initial, records, n, events), n, cpu, event,
                 OfPair(TallyCpu(start, stop, initial, records, cpu, events), cpu, event));
    }
  }

  /** A count: zero at the start of the trace and its total at the end. */
  function CountRecords(start: uint64, stop: uint64, cpu: Cpu, event: EventId, total: nat): (out: seq<Emitted>) {
    [Emitted(cpu, event, start, false, 0), Emitted(cpu, event, stop, false, total % TWO_64)]
  }

  /**
   What should be written for a cpu and event that was seen, from its accepted records alone: a count,
   of all its counts, if it had no value; and else its last value and the counts after it, as a value
   if nothing was tallied after it.
   */
  ghost predicate SaysTotal(out: seq<Emitted>, start: uint64, stop: uint64, cpu: Cpu, event: EventId,
                            a: seq<Interval>) {
    && ((forall i :: 0 <= i < |a| ==> !a[i].record.kind.Value?) ==>
        out == CountRecords(start, stop, cpu, event, SumOfCounts(a)))
    && forall j :: 0 <= j < |a| && IsLastValue(a, j) ==>
         out == LastValueRecords(start, stop, cpu, event, TotalFrom(a, j), NothingTalliedAfter(a, j))
  }

  /** A value and the counts accepted after it. */
  function TotalFrom(a: seq<Interval>, j: nat): (n: nat)
    requires j < |a|
  {
    a[j].record.payload + SumOfCounts(a[j + 1..])
  }

  function LastValueRecords(start: uint64, stop: uint64, cpu: Cpu, event: EventId, total: nat,
                            isValue: bool): (out: seq<Emitted>) {
    if isValue then [Emitted(cpu, event, stop, true, total % TWO_64)]
    else CountRecords(start, stop, cpu, event, total)
  }

  /** A cpu and event that was never seen is not mentioned. */
  ghost predicate Says(out: seq<Emitted>, start: uint64, stop: uint64, cpu: Cpu, event: EventId, h: seq<Seen>) {
    if h == [] then out == [] else SaysTotal(out, start, stop, cpu, event, AcceptedOf(start, stop, h))
  }

  lemma TallyRecordsSay(start: uint64, stop: uint64, cpu: Cpu, event: EventId, a: seq<Interval>)
    ensures SaysTotal(TallyRecords(start, stop, cpu, event, Tally(a)), start, stop, cpu, event, a)
  {
    if forall i :: 0 <= i < |a| ==> !a[i].record.kind.Value? {
      CountSaid(start, stop, cpu, event, a);
    }
    forall j | 0 <= j < |a| && IsLastValue(a, j)
      ensures TallyRecords(start, stop, cpu, event, Tally(a)) ==
              LastValueRecords(start, stop, cpu, event, TotalFrom(a, j), NothingTalliedAfter(a, j))
    {
      LastValueSaid(start, stop, cpu, event, a, j);
    }
  }

  lemma CountSaid(start: uint64, stop: uint64, cpu: Cpu, event: EventId, a: seq<Interval>)
    requires forall i :: 0 <= i < |a| ==> !a[i].record.kind.Value?
    ensures TallyRecords(start, stop, cpu, event, Tally(a)) == CountRecords(start, stop, cpu, event, SumOfCounts(a))
  {
    CountingEventTotals(a);
  }

  lemma LastValueSaid(start: uint64, stop: uint64, cpu: Cpu, event: EventId, a: seq<Interval>, j: nat)
    requires j < |a| && IsLastValue(a, j)
    ensures TallyRecords(start, stop, cpu, event, Tally(a)) ==
            LastValueRecords(start, stop, cpu, event, TotalFrom(a, j), NothingTalliedAfter(a, j))
  {
    var total, isValue := TotalFrom(a, j), NothingTalliedAfter(a, j);
    assert Tally(a) == (isValue, total % TWO_64) by {
      MixedEventTotals(a, j);
    }
    TotalSaid(start, stop, cpu, event, total, isValue);
  }

  lemma TotalSaid(start: uint64, stop: uint64, cpu: Cpu, event: EventId, total: nat, isValue: bool)
    ensures TallyRecords(start, stop, cpu, event, (isValue, total % TWO_64)) ==
            LastValueRecords(start, stop, cpu, event, total, isValue)
  {
  }

  /**
   The trace says of every cpu and event what it should, once for each time the event is configured,
   and nothing else; of a cpu that the system does not have it says nothing.
   */
  lemma EmittedForPair(start: uint64, stop: uint64, initial: uint64, records: seq<Record>, numCpus: nat,
                       events: seq<EventId>, cpu: Cpu, event: EventId) returns (said: seq<Emitted>)
    requires numCpus <= 32
    ensures Says(said, start, stop, cpu, event, History(initial, records, cpu, event))
    ensures OfPair(TallyAll(start, stop, initial, records, numCpus, events), cpu, event) ==
            if cpu < numCpus then Times(Occurrences(events, event), said) else []
  {
    said := PairRecords(start, stop, cpu, event, History(initial, records, cpu, event));
    AllWrites(start, stop, initial, records, numCpus, events, cpu, event);
    CpuWrites(start, stop, initial, records, cpu, events, cpu, event);
    TallyRecordsSay(start, stop, cpu, event, AcceptedOf(start, stop, History(initial, records, cpu, event)));
  }

  // ----- what is sampled for a cpu and event -----

  function SamplesOfPair(out: seq<Sample>, cpu: Cpu, event: EventId): (mine: seq<Sample>) {
    if out == [] then []
    else
      var last := out[|out| - 1];
      SamplesOfPair(out[..|out| - 1], cpu, event) + if last.cpu == cpu && last.event == event then [last] else []
  }

  /** A sample of an accepted record: over its interval, with its own count or value, or else the sample rate. */
  predicate IsSampleOf(s: Sample, x: Interval, sampleRate: uint64) {
    && s.cpu == x.record.cpu && s.event == x.record.event && s.from == x.from && s.to == x.to
    && match x.record.kind
       case Count => s.value == x.record.payload
       case Value => s.value == x.record.payload
       case _ => s.value == sampleRate
  }

  function WithoutBlobs(a: seq<Interval>): (b: seq<Interval>) {
    if a == [] then []
    else WithoutBlobs(a[..|a| - 1]) + if a[|a| - 1].record.kind.LastBranch? then [] else [a[|a| - 1]]
  }

  predicate AreSamplesOf(out: seq<Sample>, a: seq<Interval>, sampleRate: uint64) {
    |out| == |a| && forall i :: 0 <= i < |a| ==> IsSampleOf(out[i], a[i], sampleRate)
  }

  lemma OneMoreSample(out: seq<Sample>, s: Sample, cpu: Cpu, event: EventId)
    ensures SamplesOfPair(out + [s], cpu, event) ==
            SamplesOfPair(out, cpu, event) + if s.cpu == cpu && s.event == event then [s] else []
  {
    assert (out + [s])[..|out|] == out;
  }

  lemma OneMoreInterval(a: seq<Interval>, x: Interval)
    ensures WithoutBlobs(a + [x]) == WithoutBlobs(a) + if x.record.kind.LastBranch? then [] else [x]
  {
    assert (a + [x])[..|a|] == a;
  }

  /** One more record, with the interval it covers if it is accepted, keeps samples and accepted records in step. */
  lemma SampleStep(out: seq<Sample>, a: seq<Interval>, x: Interval, accepted: bool, sampleRate: uint64, cpu: Cpu,
                   event: EventId)
    requires AreSamplesOf(SamplesOfPair(out, cpu, event), WithoutBlobs(a), sampleRate)
    ensures var r := x.record;
            var out' := if accepted && !r.kind.LastBranch?
                        then out + [Sample(r.cpu, r.event, x.from, x.to, SampleValue(r, sampleRate))] else out;
            var a' := if accepted && r.cpu == cpu && r.event == event then a + [x] else a;
            AreSamplesOf(SamplesOfPair(out', cpu, event), WithoutBlobs(a'), sampleRate)
  {
    var r := x.record;
    var s := Sample(r.cpu, r.event, x.from, x.to, SampleValue(r, sampleRate));
    OneMoreSample(out, s, cpu, event);
    OneMoreInterval(a, x);
    if accepted && !r.kind.LastBranch? {
      SamplesAppend(SamplesOfPair(out, cpu, event), WithoutBlobs(a), s, x, sampleRate);
    }
  }

  lemma SamplesAppend(out: seq<Sample>, a: seq<Interval>, s: Sample, x: Interval, sampleRate: uint64)
    requires AreSamplesOf(out, a, sampleRate) && IsSampleOf(s, x, sampleRate)
    ensures AreSamplesOf(out + [s], a + [x], sampleRate)
  {
  }

  /** The samples of a cpu and event are its accepted records but the last-branch ones, in order. */
  lemma {:induction false} SamplesOfPairAre(start: uint64, stop: uint64, initial: uint64, sampleRate: uint64,
                                            records: seq<Record>, cpu: Cpu, event: EventId)
    ensures AreSamplesOf(SamplesOfPair(Samples(start, stop, initial, sampleRate, records), cpu, event),
                         WithoutBlobs(AcceptedOf(start, stop, History(initial, records, cpu, event))), sampleRate)
  {
    if records != [] {
      var init, r := records[..|records| - 1], records[|records| - 1];
      SamplesOfPairAre(start, stop, initial, sampleRate, init, cpu, event);
      SplitLast(records);
      var out, a := NextSamples(start, stop, initial, sampleRate, init, r, cpu, event);
    }
  }

  lemma NextSamples(start: uint64, stop: uint64, initial: uint64, sampleRate: uint64, init: seq<Record>, r: Record,
                    cpu: Cpu, event: EventId) returns (out: seq<Sample>, a: seq<Interval>)
    requires AreSamplesOf(SamplesOfPair(Samples(start, stop, initial, sampleRate, init), cpu, event),
                          WithoutBlobs(AcceptedOf(start, stop, History(initial, init, cpu, event))), sampleRate)
    ensures out == Samples(start, stop, initial, sampleRate, init + [r])
    ensures a == AcceptedOf(start, stop, History(initial, init + [r], cpu, event))
    ensures AreSamplesOf(SamplesOfPair(out, cpu, event), WithoutBlobs(a), sampleRate)
  {
    out, a := Samples(start, stop, initial, sampleRate, init + [r]),
      AcceptedOf(start, stop, History(initial, init + [r], cpu, event));
    var previous := LastSeen(start, History(initial, init, r.cpu, r.event));
    var t := ClockAfter(initial, init + [r]);
    var accepted := !r.TimeOnly() && Judge(previous, t, stop).Accepted?;
    SampleStep(Samples(start, stop, initial, sampleRate, init),
               AcceptedOf(start, stop, History(initial, init, cpu, event)), Interval(previous, t, r), accepted,
               sampleRate, cpu, event);
    assert out == if accepted && !r.kind.LastBranch?
                  then Samples(start, stop, initial, sampleRate, init)
                       + [Sample(r.cpu, r.event, previous, t, SampleValue(r, sampleRate))]
                  else Samples(start, stop, initial, sampleRate, init) by {
      assert (init + [r])[..|init|] == init;
    }
    HistoryStep(initial, init, r, cpu, event);
    if r.cpu == cpu && r.event == event && !r.TimeOnly() {
      AcceptedStep(start, stop, History(initial, init, cpu, event), Seen(r, t));
    }
  }

  // ----- what the buckets mean -----

  /** Record j, before the last of some records, is the previous one of the same cpu and event. */
  predicate IsPrevious(records: seq<Record>, j: nat) {
    && j < |records| - 1
    && var last := records[|records| - 1];
       && !records[j].TimeOnly() && records[j].cpu == last.cpu && records[j].event == last.event
       && forall i :: j < i < |records| - 1 ==>
            records[i].TimeOnly() || records[i].cpu != last.cpu || records[i].event != last.event
  }

  predicate IsFirstOfPair(records: seq<Record>)
    requires records != []
  {
    var last := records[|records| - 1];
    forall i :: 0 <= i < |records| - 1 ==>
      records[i].TimeOnly() || records[i].cpu != last.cpu || records[i].event != last.event
  }

  lemma {:induction false} LastSeenIs(start: uint64, initial: uint64, records: seq<Record>, cpu: Cpu, event: EventId,
                                      j: nat)
    requires j < |records| && !records[j].TimeOnly() && records[j].cpu == cpu && records[j].event == event
    requires forall i :: j < i < |records| ==>
               records[i].TimeOnly() || records[i].cpu != cpu || records[i].event != event
    ensures LastSeen(start, History(initial, records, cpu, event)) == ClockAfter(initial, records[..j + 1])
    decreases |records|
  {
    var n := |records| - 1;
    if j == n {
      assert records[..j + 1] == records;
    } else {
      LastSeenIs(start, initial, records[..n], cpu, event, j);
      assert records[..n][..j + 1] == records[..j + 1];
    }
  }

  lemma {:induction false} NeverSeen(initial: uint64, records: seq<Record>, cpu: Cpu, event: EventId)
    requires forall i :: 0 <= i < |records| ==>
               records[i].TimeOnly() || records[i].cpu != cpu || records[i].event != event
    ensures History(initial, records, cpu, event) == []
  {
    if records != [] {
      NeverSeen(initial, records[..|records| - 1], cpu, event);
    }
  }

  /** How a record is taken when `previous` is when its cpu and event was seen before, or the start of the trace. */
  predicate IsTaken(b: Bucket, previous: uint64, current: uint64, stop: uint64) {
    && (b.OldTime? <==> current < previous)
    && (b.EmptyInterval? <==> current == previous)
    && (b.LateRecord? <==> previous < current && stop < current)
    && (b.Accepted? <==> previous < current <= stop)
  }

  /** The bucket of a record goes by the clock at the previous record of its cpu and event. */
  lemma BucketMeans(start: uint64, stop: uint64, initial: uint64, records: seq<Record>)
    requires records != []
    ensures var b, r := BucketOfLast(start, stop, initial, records), records[|records| - 1];
            && (b.TimeUpdate? <==> r.kind.Time? && r.event == EVENT_NONE)
            && (!b.TimeUpdate? ==>
                && (IsFirstOfPair(records) ==> IsTaken(b, start, ClockAfter(initial, records), stop))
                && forall j :: 0 <= j < |records| && IsPrevious(records, j) ==>
                     IsTaken(b, ClockAfter(initial, records[..j + 1]), ClockAfter(initial, records), stop))
  {
    var init, r := records[..|records| - 1], records[|records| - 1];
    if IsFirstOfPair(records) {
      NeverSeen(initial, init, r.cpu, r.event);
    }
    forall j | 0 <= j < |records| && IsPrevious(records, j)
      ensures LastSeen(start, History(initial, init, r.cpu, r.event)) == ClockAfter(initial, records[..j + 1])
    {
      LastSeenIs(start, initial, init, r.cpu, r.event, j);
      assert init[..j + 1] == records[..j + 1];
    }
  }

  /** The clock is the reader's at the last time record, and the initial one before the first. */
  lemma {:induction false} ClockMeans(initial: uint64, records: seq<Record>)
    ensures (forall i :: 0 <= i < |records| ==> !records[i].kind.Time?) ==> ClockAfter(initial, records) == initial
    ensures forall j :: 0 <= j < |records| && records[j].kind.Time?
                        && (forall i :: j < i < |records| ==> !records[i].kind.Time?) ==>
              ClockAfter(initial, records) == records[j].readerTime
  {
    if records != [] && !records[|records| - 1].kind.Time? {
      ClockMeans(initial, records[..|records| - 1]);
    }
  }

  /** The numbers below n with a property. */
  function Below(n: nat, p: nat -> bool): (at: set<nat>) {
    set i: nat | i < n && p(i)
  }

  lemma OneMoreBelow(n: nat, p: nat -> bool)
    ensures |Below(n + 1, p)| == |Below(n, p)| + if p(n) then 1 else 0
  {
    if p(n) {
      assert Below(n + 1, p) == Below(n, p) + {n};
    } else {
      assert Below(n + 1, p) == Below(n, p);
    }
  }

  /** Whether the record at a position was taken in a way. */
  function TakenAs(start: uint64, stop: uint64, initial: uint64, records: seq<Record>,
                   b: Bucket): (p: nat -> bool) {
    (i: nat) => i < |records| && BucketOfLast(start, stop, initial, records[..i + 1]) == b
  }

  lemma {:induction false} CountBucketIs(start: uint64, stop: uint64, initial: uint64, records: seq<Record>, n: nat,
                                         b: Bucket)
    requires n <= |records|
    ensures CountBucket(start, stop, initial, records[..n], b) ==
            |Below(n, TakenAs(start, stop, initial, records, b))|
  {
    if n > 0 {
      CountBucketIs(start, stop, initial, records, n - 1, b);
      OneMoreBelow(n - 1, TakenAs(start, stop, initial, records, b));
      assert records[..n][..n - 1] == records[..n - 1];
    } else {
      assert Below(0, TakenAs(start, stop, initial, records, b)) == {};
    }
  }

  /** The warnings count the records that went back, stood still or came late, each kind by itself, in 32 bits. */
  lemma CountersMean(start: uint64, stop: uint64, initial: uint64, records: seq<Record>)
    ensures var c, n := CountersOf(start, stop, initial, records), |records|;
            && c.records == n % TWO_32
            && c.stale == |Below(n, TakenAs(start, stop, initial, records, OldTime))| % TWO_32
            && c.empty == |Below(n, TakenAs(start, stop, initial, records, EmptyInterval))| % TWO_32
            && c.late == |Below(n, TakenAs(start, stop, initial, records, LateRecord))| % TWO_32
  {
    assert records[..|records|] == records;
    CountBucketIs(start, stop, initial, records, |records|, OldTime);
    CountBucketIs(start, stop, initial, records, |records|, EmptyInterval);
    CountBucketIs(start, stop, initial, records, |records|, LateRecord);
  }
}
