/** Importing cpu performance records into a trace. */
module Importer {
  import opened Common

  type Cpu = x: int | 0 <= x < 32
  type EventId = x: int | 0 <= x < 0x1_0000

  /** Event id zero means "no event". */
  const EVENT_NONE: EventId := 0

  datatype Kind = Time | Tick | Count | Value | Pc | LastBranch

  /** A record as the reader delivers it; readerTime is the reader's clock after reading it. */
  datatype Record = Record(cpu: Cpu, event: EventId, kind: Kind, payload: uint64, readerTime: uint64) {
    /** A time record without an event only moves the clock. */
    predicate TimeOnly() {
      kind.Time? && event == EVENT_NONE
    }
  }

  // ----- the tracker -----

  /** (cpu << 16) | event, with the bit operations written as arithmetic; see PackingIsArithmetic. */
  function GenKey(cpu: Cpu, event: EventId): (key: uint32) {
    cpu * 0x1_0000 + event
  }

  /** For a cpu below the limit and a 16-bit event, shifting and or-ing is multiplying and adding. */
  lemma PackingIsArithmetic(cpu: bv32, event: bv32)
    requires cpu < 32 && event < 0x1_0000
    ensures (cpu << 16) | event == cpu * 0x1_0000 + event
  {
  }

  /** The packed key tells every cpu and event pair apart. */
  lemma GenKeyIsInjective(cpu1: Cpu, event1: EventId, cpu2: Cpu, event2: EventId)
    requires GenKey(cpu1, event1) == GenKey(cpu2, event2)
    ensures cpu1 == cpu2 && event1 == event2
  {
  }

  /** What is kept per key: when it was last seen, and its count or value. */
  datatype Data = Data(time: uint64, isValue: bool, amount: uint64)

  const NO_DATA := Data(0, false, 0)

  class EventTracker {
    const startTime: uint64
    var data: map<uint32, Data>

    constructor (startTime: uint64)
      ensures this.startTime == startTime && data == map[]
    {
      this.startTime := startTime;
      data := map[];
    }

    function Slot(cpu: Cpu, event: EventId): (d: Data)
      reads this
    {
      if GenKey(cpu, event) in data then data[GenKey(cpu, event)] else NO_DATA
    }

    predicate HaveValue(cpu: Cpu, event: EventId)
      reads this
    {
      GenKey(cpu, event) in data
    }

    function GetTime(cpu: Cpu, event: EventId): (t: uint64)
      reads this
    {
      if HaveValue(cpu, event) then Slot(cpu, event).time else startTime
    }

    method UpdateTime(cpu: Cpu, event: EventId, time: uint64)
      modifies this
      ensures data == old(data)[GenKey(cpu, event) := old(Slot(cpu, event)).(time := time)]
    {
      data := data[GenKey(cpu, event) := Slot(cpu, event).(time := time)];
    }

    method UpdateValue(cpu: Cpu, event: EventId, value: uint64)
      modifies this
      ensures data == old(data)[GenKey(cpu, event) := old(Slot(cpu, event)).(isValue := true, amount := value)]
    {
      data := data[GenKey(cpu, event) := Slot(cpu, event).(isValue := true, amount := value)];
    }

    method AccumulateCount(cpu: Cpu, event: EventId, value: uint64)
      modifies this
      ensures data == old(data)[GenKey(cpu, event) :=
                                old(Slot(cpu, event)).(isValue := false,
                                                       amount := (old(Slot(cpu, event)).amount + value) % TWO_64)]
    {
      data := data[GenKey(cpu, event) :=
                   Slot(cpu, event).(isValue := false, amount := (Slot(cpu, event).amount + value) % TWO_64)];
    }
  }

  // ----- the reference: one cpu and event at a time -----

  /** A record of some cpu and event together with the current time when it was handled. */
  datatype Seen = Seen(record: Record, time: uint64)

  /** The current time after reading some records. */
  function ClockAfter(initial: uint64, records: seq<Record>): (t: uint64) {
    if records == [] then initial
    else if records[|records| - 1].kind.Time? then records[|records| - 1].readerTime
    else ClockAfter(initial, records[..|records| - 1])
  }

  /** The records of one cpu and event, except those that only move the clock. */
  function History(initial: uint64, records: seq<Record>, cpu: Cpu, event: EventId): (h: seq<Seen>) {
    if records == [] then []
    else
      var init, r := records[..|records| - 1], records[|records| - 1];
      var h := History(initial, init, cpu, event);
      if !r.TimeOnly() && r.cpu == cpu && r.event == event then h + [Seen(r, ClockAfter(initial, records))] else h
  }

  /** When the event was last seen: also records that were not accepted count. */
  function LastSeen(start: uint64, h: seq<Seen>): (t: uint64) {
    if h == [] then start else h[|h| - 1].time
  }

  datatype Bucket = TimeUpdate | OldTime | EmptyInterval | LateRecord | Accepted

  function Judge(previous: uint64, current: uint64, stop: uint64): (b: Bucket) {
    if current < previous then OldTime
    else if current == previous then EmptyInterval
    else if current > stop then LateRecord
    else Accepted
  }

  /** An accepted record with the interval it covers. */
  datatype Interval = Interval(from: uint64, to: uint64, record: Record)

  /** The accepted records of a history, each with the time its event was seen before and its own time. */
  function AcceptedOf(start: uint64, stop: uint64, h: seq<Seen>): (a: seq<Interval>) {
    if h == [] then []
    else
      var init, s := h[..|h| - 1], h[|h| - 1];
      var a, previous := AcceptedOf(start, stop, init), LastSeen(start, init);
      if Judge(previous, s.time, stop).Accepted? then a + [Interval(previous, s.time, s.record)] else a
  }

  /** A count or value: whether it is a value, and how much. */
  type Total = (bool, uint64)

  /** What an accepted record does to the total in tally mode, where the sample rate is zero. */
  function Effect(total: Total, r: Record): (t: Total) {
    match r.kind
    case Time => (false, total.1)
    case Tick => (false, total.1)
    case Count => (false, (total.1 + r.payload) % TWO_64)
    case Value => (true, r.payload)
    case Pc => total
    case LastBranch => total
  }

  /** The total that accepted records amount to in tally mode. */
  function Tally(a: seq<Interval>): (t: Total) {
    if a == [] then (false, 0) else Effect(Tally(a[..|a| - 1]), a[|a| - 1].record)
  }

  /** What the tracker should hold for a cpu and event with a non-empty history. */
  function Expected(start: uint64, stop: uint64, tallying: bool, h: seq<Seen>): (d: Data) {
    var (isValue, amount) := if tallying then Tally(AcceptedOf(start, stop, h)) else (false, 0);
    Data(LastSeen(start, h), isValue, amount)
  }

  /** The tracker's entry for one cpu and event is the expected one. */
  ghost predicate TracksKey(data: map<uint32, Data>, start: uint64, stop: uint64, tallying: bool, h: seq<Seen>,
                            key: uint32) {
    if h == [] then key !in data else key in data && data[key] == Expected(start, stop, tallying, h)
  }

  /** The packed map of the tracker is exactly the table of expected data by cpu and event. */
  ghost predicate Tracks(data: map<uint32, Data>, start: uint64, stop: uint64, tallying: bool, initial: uint64,
                         records: seq<Record>) {
    forall cpu: Cpu, event: EventId ::
      TracksKey(data, start, stop, tallying, History(initial, records, cpu, event), GenKey(cpu, event))
  }

  /** A call of ImportSampleRecord. */
  datatype Sample = Sample(cpu: Cpu, event: EventId, from: uint64, to: uint64, value: uint64)

  function SampleValue(r: Record, sampleRate: uint64): (v: uint64) {
    if r.kind.Count? || r.kind.Value? then r.payload else sampleRate
  }

  /** The bucket of the last of some records, judged by the history of its own cpu and event. */
  function BucketOfLast(start: uint64, stop: uint64, initial: uint64, records: seq<Record>): (b: Bucket)
    requires records != []
  {
    var init, r := records[..|records| - 1], records[|records| - 1];
    if r.TimeOnly() then TimeUpdate
    else Judge(LastSeen(start, History(initial, init, r.cpu, r.event)), ClockAfter(initial, records), stop)
  }

  function CountBucket(start: uint64, stop: uint64, initial: uint64, records: seq<Record>, b: Bucket): (n: nat) {
    if records == [] then 0
    else
      CountBucket(start, stop, initial, records[..|records| - 1], b) +
      if BucketOfLast(start, stop, initial, records) == b then 1 else 0
  }

  /** The samples of sampling mode, in record order. */
  function Samples(start: uint64, stop: uint64, initial: uint64, sampleRate: uint64,
                   records: seq<Record>): (out: seq<Sample>) {
    if records == [] then []
    else
      var init, r := records[..|records| - 1], records[|records| - 1];
      var out := Samples(start, stop, initial, sampleRate, init);
      if BucketOfLast(start, stop, initial, records).Accepted? && !r.kind.LastBranch? then
        var previous := LastSeen(start, History(initial, init, r.cpu, r.event));
        out + [Sample(r.cpu, r.event, previous, ClockAfter(initial, records), SampleValue(r, sampleRate))]
      else out
  }

  // ----- the loop refines the reference -----

  lemma HistoryStep(initial: uint64, init: seq<Record>, r: Record, cpu: Cpu, event: EventId)
    ensures History(initial, init + [r], cpu, event) ==
            var h := History(initial, init, cpu, event);
            if !r.TimeOnly() && r.cpu == cpu && r.event == event then h + [Seen(r, ClockAfter(initial, init + [r]))]
            else h
    ensures ClockAfter(initial, init + [r]) == if r.kind.Time? then r.readerTime else ClockAfter(initial, init)
  {
    assert (init + [r])[..|init|] == init;
  }

  lemma TimeUpdateKeepsTracking(data: map<uint32, Data>, start: uint64, stop: uint64, tallying: bool, initial: uint64,
                                init: seq<Record>, r: Record)
    requires Tracks(data, start, stop, tallying, initial, init) && r.TimeOnly()
    ensures Tracks(data, start, stop, tallying, initial, init + [r])
  {
    forall cpu: Cpu, event: EventId
      ensures TracksKey(data, start, stop, tallying, History(initial, init + [r], cpu, event), GenKey(cpu, event))
    {
      HistoryStep(initial, init, r, cpu, event);
      assert TracksKey(data, start, stop, tallying, History(initial, init, cpu, event), GenKey(cpu, event));
    }
  }

  lemma RecordKeepsTracking(data: map<uint32, Data>, start: uint64, stop: uint64, tallying: bool, initial: uint64,
                            init: seq<Record>, r: Record, d: Data)
    requires Tracks(data, start, stop, tallying, initial, init) && !r.TimeOnly()
    requires d == Expected(start, stop, tallying, History(initial, init + [r], r.cpu, r.event))
    ensures Tracks(data[GenKey(r.cpu, r.event) := d], start, stop, tallying, initial, init + [r])
  {
    var data' := data[GenKey(r.cpu, r.event) := d];
    forall cpu: Cpu, event: EventId
      ensures TracksKey(data', start, stop, tallying, History(initial, init + [r], cpu, event), GenKey(cpu, event))
    {
      HistoryStep(initial, init, r, cpu, event);
      if cpu != r.cpu || event != r.event {
        assert TracksKey(data, start, stop, tallying, History(initial, init, cpu, event), GenKey(cpu, event));
      }
    }
  }

  lemma AcceptedStep(start: uint64, stop: uint64, h: seq<Seen>, s: Seen)
    ensures AcceptedOf(start, stop, h + [s]) ==
            var a := AcceptedOf(start, stop, h);
            if Judge(LastSeen(start, h), s.time, stop).Accepted? then
              a + [Interval(LastSeen(start, h), s.time, s.record)]
            else a
  {
    assert (h + [s])[..|h|] == h;
  }

  lemma TallyStep(a: seq<Interval>, x: Interval)
    ensures Tally(a + [x]) == Effect(Tally(a), x.record)
  {
    assert (a + [x])[..|a|] == a;
  }

  /** The effect of one more seen record on the expected data. */
  lemma ExpectedStep(start: uint64, stop: uint64, tallying: bool, h: seq<Seen>, s: Seen)
    ensures var before, after := Expected(start, stop, tallying, h), Expected(start, stop, tallying, h + [s]);
            var total := (before.isValue, before.amount);
            && after.time == s.time
            && (after.isValue, after.amount) ==
               if tallying && Judge(LastSeen(start, h), s.time, stop).Accepted? then Effect(total, s.record) else total
  {
    AcceptedStep(start, stop, h, s);
    if Judge(LastSeen(start, h), s.time, stop).Accepted? {
      TallyStep(AcceptedOf(start, stop, h), Interval(LastSeen(start, h), s.time, s.record));
    }
  }

  /** The switch on the record type for an accepted record in tally mode. */
  method TallyRecord(tracker: EventTracker, r: Record)
    modifies tracker
    ensures var d := old(tracker.Slot(r.cpu, r.event));
            tracker.data == if r.kind.Pc? || r.kind.LastBranch? then old(tracker.data)
                            else old(tracker.data)[GenKey(r.cpu, r.event) :=
                                                   Data(d.time, Effect((d.isValue, d.amount), r).0,
                                                        Effect((d.isValue, d.amount), r).1)]
  {
    match r.kind
    case Time => tracker.AccumulateCount(r.cpu, r.event, 0);
    case Tick => tracker.AccumulateCount(r.cpu, r.event, 0);
    case Count => tracker.AccumulateCount(r.cpu, r.event, r.payload);
    case Value => tracker.UpdateValue(r.cpu, r.event, r.payload);
    case Pc =>
    case LastBranch =>
  }

  /** Everything the loop reports: the record count and the three warning counts, all 32 bits wide. */
  datatype Counters = Counters(records: uint32, stale: uint32, empty: uint32, late: uint32)

  function Bumped(n: uint32): (m: uint32) {
    (n + 1) % TWO_32
  }

  function CountersOf(start: uint64, stop: uint64, initial: uint64, records: seq<Record>): (c: Counters) {
    Counters(|records| % TWO_32,
             CountBucket(start, stop, initial, records, OldTime) % TWO_32,
             CountBucket(start, stop, initial, records, EmptyInterval) % TWO_32,
             CountBucket(start, stop, initial, records, LateRecord) % TWO_32)
  }

  lemma BumpedCount(n: nat)
    ensures (n + 1) % TWO_32 == Bumped(n % TWO_32)
  {
  }

  lemma BucketStep(start: uint64, stop: uint64, initial: uint64, init: seq<Record>, r: Record, b: Bucket)
    ensures CountBucket(start, stop, initial, init + [r], b) % TWO_32 ==
            var n := CountBucket(start, stop, initial, init, b) % TWO_32;
            if BucketOfLast(start, stop, initial, init + [r]) == b then Bumped(n) else n
  {
    assert (init + [r])[..|init|] == init;
    BumpedCount(CountBucket(start, stop, initial, init, b));
  }

  lemma CountersStep(start: uint64, stop: uint64, initial: uint64, init: seq<Record>, r: Record)
    ensures var c, b := CountersOf(start, stop, initial, init), BucketOfLast(start, stop, initial, init + [r]);
            CountersOf(start, stop, initial, init + [r]) ==
            Counters(Bumped(c.records), if b.OldTime? then Bumped(c.stale) else c.stale,
                     if b.EmptyInterval? then Bumped(c.empty) else c.empty,
                     if b.LateRecord? then Bumped(c.late) else c.late)
  {
    BumpedCount(|init|);
    BucketStep(start, stop, initial, init, r, OldTime);
    BucketStep(start, stop, initial, init, r, EmptyInterval);
    BucketStep(start, stop, initial, init, r, LateRecord);
  }

  /** What a record with an event does to the table, the counters and the samples. */
  function Handled(data: map<uint32, Data>, start: uint64, stop: uint64, sampleRate: uint64, r: Record, current: uint64,
                   c: Counters, samples: seq<Sample>): (after: (map<uint32, Data>, Counters, seq<Sample>)) {
    var key := GenKey(r.cpu, r.event);
    var slot := if key in data then data[key] else NO_DATA;
    var previous := if key in data then data[key].time else start;
    var b, total := Judge(previous, current, stop), (slot.isValue, slot.amount);
    var (isValue, amount) := if sampleRate == 0 && b.Accepted? then Effect(total, r) else total;
    (data[key := Data(current, isValue, amount)],
     Counters(Bumped(c.records), if b.OldTime? then Bumped(c.stale) else c.stale,
              if b.EmptyInterval? then Bumped(c.empty) else c.empty, if b.LateRecord? then Bumped(c.late) else c.late),
     if sampleRate != 0 && b.Accepted? && !r.kind.LastBranch? then
       samples + [Sample(r.cpu, r.event, previous, current, SampleValue(r, sampleRate))]
     else samples)
  }

  /** The body of the loop for a record that has an event. */
  method ImportRecord(tracker: EventTracker, r: Record, current: uint64, stop: uint64, sampleRate: uint64,
                      counters: Counters, samples: seq<Sample>)
    returns (counters': Counters, samples': seq<Sample>)
    modifies tracker
    ensures var after := Handled(old(tracker.data), tracker.startTime, stop, sampleRate, r, current, counters, samples);
            tracker.data == after.0 && counters' == after.1 && samples' == after.2
  {
    counters', samples' := counters, samples;
    var previous := tracker.GetTime(r.cpu, r.event);
    if current < previous {
      counters' := counters'.(stale := Bumped(counters'.stale));
    } else if current == previous {
      counters' := counters'.(empty := Bumped(counters'.empty));
    } else if current > stop {
      counters' := counters'.(late := Bumped(counters'.late));
    } else if sampleRate == 0 {
      TallyRecord(tracker, r);
    } else if !r.kind.LastBranch? {
      samples' := samples' + [Sample(r.cpu, r.event, previous, current, SampleValue(r, sampleRate))];
    }
    tracker.UpdateTime(r.cpu, r.event, current);
    counters' := counters'.(records := Bumped(counters'.records));
  }

  /**
   ImportRecords up to the emission of tallies. For every cpu and event the tracker ends with the
   time it was last seen and the fold of its accepted records; the counters and the samples are
   those of the reference.
   */
  method ImportRecords(records: seq<Record>, initial: uint64, start: uint64, stop: uint64, sampleRate: uint64)
    returns (tracker: EventTracker, counters: Counters, samples: seq<Sample>)
    ensures fresh(tracker) && tracker.startTime == start
    ensures Tracks(tracker.data, start, stop, sampleRate == 0, initial, records)
    ensures counters == CountersOf(start, stop, initial, records)
    ensures samples == if sampleRate == 0 then [] else Samples(start, stop, initial, sampleRate, records)
  {
    tracker := new EventTracker(start);
    counters, samples := Counters(0, 0, 0, 0), [];
    var current := initial;
    NothingImported(start, stop, sampleRate, initial);
    for i := 0 to |records|
      invariant fresh(tracker) && tracker.startTime == start
      invariant Imported(tracker.data, start, stop, sampleRate, initial, records[..i], current, counters, samples)
    {
      current, counters, samples := ReadAt(tracker, records, i, stop, sampleRate, current, counters, samples, initial);
    }
    assert records[..|records|] == records;
  }

  /** The loop's state agrees with the reference for the records read so far. */
  ghost predicate Imported(data: map<uint32, Data>, start: uint64, stop: uint64, sampleRate: uint64, initial: uint64,
                           done: seq<Record>, current: uint64, counters: Counters, samples: seq<Sample>) {
    && current == ClockAfter(initial, done)
    && Tracks(data, start, stop, sampleRate == 0, initial, done)
    && counters == CountersOf(start, stop, initial, done)
    && samples == if sampleRate == 0 then [] else Samples(start, stop, initial, sampleRate, done)
  }

  lemma NothingImported(start: uint64, stop: uint64, sampleRate: uint64, initial: uint64)
    ensures Imported(map[], start, stop, sampleRate, initial, [], initial, Counters(0, 0, 0, 0), [])
  {
  }

  /** One iteration of the loop. */
  method ReadRecord(tracker: EventTracker, r: Record, stop: uint64, sampleRate: uint64, current: uint64,
                    counters: Counters, samples: seq<Sample>, ghost initial: uint64, ghost done: seq<Record>)
    returns (current': uint64, counters': Counters, samples': seq<Sample>)
    requires Imported(tracker.data, tracker.startTime, stop, sampleRate, initial, done, current, counters, samples)
    modifies tracker
    ensures Imported(tracker.data, tracker.startTime, stop, sampleRate, initial, done + [r], current', counters',
                     samples')
  {
    ghost var start := tracker.startTime;
    current' := if r.kind.Time? then r.readerTime else current;
    if r.TimeOnly() {
      TimeRecordImported(tracker.data, start, stop, sampleRate, initial, done, r, current, counters, samples);
      counters', samples' := counters.(records := Bumped(counters.records)), samples;
    } else {
      RecordImported(tracker.data, start, stop, sampleRate, initial, done, r, current, counters, samples);
      counters', samples' := ImportRecord(tracker, r, current', stop, sampleRate, counters, samples);
    }
  }

  method ReadAt(tracker: EventTracker, records: seq<Record>, i: nat, stop: uint64, sampleRate: uint64,
                current: uint64, counters: Counters, samples: seq<Sample>, ghost initial: uint64)
    returns (current': uint64, counters': Counters, samples': seq<Sample>)
    requires i < |records|
    requires Imported(tracker.data, tracker.startTime, stop, sampleRate, initial, records[..i], current, counters,
                      samples)
    modifies tracker
    ensures Imported(tracker.data, tracker.startTime, stop, sampleRate, initial, records[..i + 1], current',
                     counters', samples')
  {
    current', counters', samples' :=
      ReadRecord(tracker, records[i], stop, sampleRate, current, counters, samples, initial, records[..i]);
    TakeOneMore(records, i);
  }

  lemma TimeRecordImported(data: map<uint32, Data>, start: uint64, stop: uint64, sampleRate: uint64, initial: uint64,
                           done: seq<Record>, r: Record, current: uint64, counters: Counters, samples: seq<Sample>)
    requires Imported(data, start, stop, sampleRate, initial, done, current, counters, samples) && r.TimeOnly()
    ensures Imported(data, start, stop, sampleRate, initial, done + [r], r.readerTime,
                     counters.(records := Bumped(counters.records)), samples)
  {
    HistoryStep(initial, done, r, r.cpu, r.event);
    CountersStep(start, stop, initial, done, r);
    SamplesStep(start, stop, initial, sampleRate, done, r);
    TimeUpdateKeepsTracking(data, start, stop, sampleRate == 0, initial, done, r);
  }

  lemma RecordImported(data: map<uint32, Data>, start: uint64, stop: uint64, sampleRate: uint64, initial: uint64,
                       done: seq<Record>, r: Record, current: uint64, counters: Counters, samples: seq<Sample>)
    requires Imported(data, start, stop, sampleRate, initial, done, current, counters, samples) && !r.TimeOnly()
    ensures var current' := if r.kind.Time? then r.readerTime else current;
            var (data', counters', samples') := Handled(data, start, stop, sampleRate, r, current', counters, samples);
            Imported(data', start, stop, sampleRate, initial, done + [r], current', counters', samples')
  {
    HistoryStep(initial, done, r, r.cpu, r.event);
    CountersStep(start, stop, initial, done, r);
    SamplesStep(start, stop, initial, sampleRate, done, r);
    ImportStep(data, start, stop, sampleRate == 0, initial, done, r);
  }

  lemma SamplesStep(start: uint64, stop: uint64, initial: uint64, sampleRate: uint64, init: seq<Record>, r: Record)
    ensures Samples(start, stop, initial, sampleRate, init + [r]) ==
            var out := Samples(start, stop, initial, sampleRate, init);
            var previous := LastSeen(start, History(initial, init, r.cpu, r.event));
            if BucketOfLast(start, stop, initial, init + [r]).Accepted? && !r.kind.LastBranch? then
              out + [Sample(r.cpu, r.event, previous, ClockAfter(initial, init + [r]), SampleValue(r, sampleRate))]
            else out
    ensures BucketOfLast(start, stop, initial, init + [r]) ==
            if r.TimeOnly() then TimeUpdate
            else Judge(LastSeen(start, History(initial, init, r.cpu, r.event)), ClockAfter(initial, init + [r]), stop)
  {
    assert (init + [r])[..|init|] == init;
  }

  /** The entry that the loop writes for a record is the expected one. */
  lemma ImportStep(data: map<uint32, Data>, start: uint64, stop: uint64, tallying: bool, initial: uint64,
                   init: seq<Record>, r: Record)
    requires Tracks(data, start, stop, tallying, initial, init) && !r.TimeOnly()
    ensures var key := GenKey(r.cpu, r.event);
            var slot := if key in data then data[key] else NO_DATA;
            var previous := if key in data then data[key].time else start;
            var current := ClockAfter(initial, init + [r]);
            var total := (slot.isValue, slot.amount);
            var accepted := Judge(previous, current, stop).Accepted?;
            var (isValue, amount) := if tallying && accepted then Effect(total, r) else total;
            && previous == LastSeen(start, History(initial, init, r.cpu, r.event))
            && Tracks(data[key := Data(current, isValue, amount)], start, stop, tallying, initial, init + [r])
  {
    var h, current := History(initial, init, r.cpu, r.event), ClockAfter(initial, init + [r]);
    assert TracksKey(data, start, stop, tallying, h, GenKey(r.cpu, r.event));
    HistoryStep(initial, init, r, r.cpu, r.event);
    ExpectedStep(start, stop, tallying, h, Seen(r, current));
    RecordKeepsTracking(data, start, stop, tallying, initial, init, r,
                        Expected(start, stop, tallying, h + [Seen(r, current)]));
  }

  // ----- emission at stop time -----

  /** A counter record written to the trace. */
  datatype Emitted = Emitted(cpu: Cpu, event: EventId, time: uint64, isValue: bool, amount: uint64)

  /** What is written for a cpu and event: a value once, a count as zero at the start and its total at the end. */
  function TallyRecords(start: uint64, stop: uint64, cpu: Cpu, event: EventId, total: Total): (out: seq<Emitted>) {
    if total.0 then [Emitted(cpu, event, stop, true, total.1)]
    else [Emitted(cpu, event, start, false, 0), Emitted(cpu, event, stop, false, total.1)]
  }

  /** The records for one cpu, over the configured events. */
  function TallyCpu(start: uint64, stop: uint64, initial: uint64, records: seq<Record>, cpu: Cpu,
                    events: seq<EventId>): (out: seq<Emitted>) {
    if events == [] then []
    else
      var event := events[|events| - 1];
      var h := History(initial, records, cpu, event);
      TallyCpu(start, stop, initial, records, cpu, events[..|events| - 1]) +
      if h == [] then [] else TallyRecords(start, stop, cpu, event, Tally(AcceptedOf(start, stop, h)))
  }

  function TallyAll(start: uint64, stop: uint64, initial: uint64, records: seq<Record>, numCpus: nat,
                    events: seq<EventId>): (out: seq<Emitted>)
    requires numCpus <= 32
  {
    if numCpus == 0 then []
    else
      TallyAll(start, stop, initial, records, numCpus - 1, events) +
      TallyCpu(start, stop, initial, records, numCpus - 1, events)
  }

  /** The callback of IterateOverEvents for one cpu and event. */
  method EmitTally(tracker: EventTracker, start: uint64, stop: uint64, cpu: Cpu, event: EventId, ghost h: seq<Seen>)
    returns (out: seq<Emitted>)
    requires TracksKey(tracker.data, start, stop, true, h, GenKey(cpu, event))
    ensures out == if h == [] then [] else TallyRecords(start, stop, cpu, event, Tally(AcceptedOf(start, stop, h)))
  {
    out := [];
    if tracker.HaveValue(cpu, event) {
      var d := tracker.Slot(cpu, event);
      if d.isValue {
        out := [Emitted(cpu, event, stop, true, d.amount)];
      } else {
        out := [Emitted(cpu, event, start, false, 0)];
        out := out + [Emitted(cpu, event, stop, false, d.amount)];
      }
    }
  }

  /** Emission reads the packed map, but writes what the histories of each cpu and event amount to. */
  method EmitTallyCounts(tracker: EventTracker, start: uint64, stop: uint64, numCpus: nat, events: seq<EventId>,
                         ghost initial: uint64, ghost records: seq<Record>) returns (out: seq<Emitted>)
    requires numCpus <= 32 && Tracks(tracker.data, start, stop, true, initial, records)
    ensures out == TallyAll(start, stop, initial, records, numCpus, events)
  {
    out := [];
    for cpu := 0 to numCpus
      invariant out == TallyAll(start, stop, initial, records, cpu, events)
    {
      var ofCpu := EmitCpu(tracker, start, stop, cpu, events, initial, records);
      out := out + ofCpu;
    }
  }

  method EmitCpu(tracker: EventTracker, start: uint64, stop: uint64, cpu: Cpu, events: seq<EventId>,
                 ghost initial: uint64, ghost records: seq<Record>)
    returns (out: seq<Emitted>)
    requires Tracks(tracker.data, start, stop, true, initial, records)
    ensures out == TallyCpu(start, stop, initial, records, cpu, events)
  {
    out := [];
    for i := 0 to |events|
      invariant out == TallyCpu(start, stop, initial, records, cpu, events[..i])
    {
      assert TracksKey(tracker.data, start, stop, true, History(initial, records, cpu, events[i]),
                       GenKey(cpu, events[i]));
      assert events[..i + 1][..i] == events[..i];
      var some := EmitTally(tracker, start, stop, cpu, events[i], History(initial, records, cpu, events[i]));
      out := out + some;
    }
    assert events[..|events|] == events;
  }

  // ----- what the totals and the intervals mean -----

  /** The sum of the counts of accepted records, unbounded. */
  function SumOfCounts(a: seq<Interval>): (n: nat) {
    if a == [] then 0
    else SumOfCounts(a[..|a| - 1]) + if a[|a| - 1].record.kind.Count? then a[|a| - 1].record.payload else 0
  }

  /** An event that only counts: its total is the sum of the accepted counts modulo 2^64. */
  lemma {:induction false} CountingEventTotals(a: seq<Interval>)
    requires forall i :: 0 <= i < |a| ==> !a[i].record.kind.Value?
    ensures Tally(a) == (false, SumOfCounts(a) % TWO_64)
  {
    if a != [] {
      CountingEventTotals(a[..|a| - 1]);
      AddThenWrap(SumOfCounts(a[..|a| - 1]), a[|a| - 1].record.payload);
    }
  }

  lemma AddThenWrap(n: nat, k: nat)
    ensures (n % TWO_64 + k) % TWO_64 == (n + k) % TWO_64
  {
    assert n == TWO_64 * (n / TWO_64) + n % TWO_64;
  }

  /** An event that only has values: its total is the last accepted value. */
  lemma ValueEventTotals(a: seq<Interval>)
    requires a != [] && forall i :: 0 <= i < |a| ==> a[i].record.kind.Value?
    ensures Tally(a) == (true, a[|a| - 1].record.payload)
  {
  }

  /** Record j is the last value among accepted records. */
  predicate IsLastValue(a: seq<Interval>, j: nat) {
    && j < |a| && a[j].record.kind.Value?
    && forall i :: j < i < |a| ==> !a[i].record.kind.Value?
  }

  /** After record j come only records that tally mode ignores. */
  predicate NothingTalliedAfter(a: seq<Interval>, j: nat) {
    forall i :: j < i < |a| ==> a[i].record.kind.Pc? || a[i].record.kind.LastBranch?
  }

  /** In general the last value and the counts after it add up; it stays a value while nothing is tallied after it. */
  lemma {:induction false} MixedEventTotals(a: seq<Interval>, j: nat)
    requires IsLastValue(a, j)
    ensures Tally(a) == (NothingTalliedAfter(a, j), (a[j].record.payload + SumOfCounts(a[j + 1..])) % TWO_64)
    decreases |a|
  {
    var n := |a| - 1;
    if j == n {
      assert a[j + 1..] == [];
    } else {
      var init := a[..n];
      MixedEventTotals(init, j);
      assert a[j + 1..][..n - j - 1] == init[j + 1..];
      assert NothingTalliedAfter(a, j) <==>
             NothingTalliedAfter(init, j) && (a[n].record.kind.Pc? || a[n].record.kind.LastBranch?);
      AddThenWrap(a[j].record.payload + SumOfCounts(init[j + 1..]), a[n].record.payload);
    }
  }

  // ----- every record is accounted for -----

  function CountTimeOnly(records: seq<Record>): (n: nat) {
    if records == [] then 0
    else CountTimeOnly(records[..|records| - 1]) + if records[|records| - 1].TimeOnly() then 1 else 0
  }

  /** The blobs of sampling mode: accepted last-branch records. */
  function CountBlobs(start: uint64, stop: uint64, initial: uint64, records: seq<Record>): (n: nat) {
    if records == [] then 0
    else
      CountBlobs(start, stop, initial, records[..|records| - 1]) +
      if BucketOfLast(start, stop, initial, records).Accepted? && records[|records| - 1].kind.LastBranch? then 1 else 0
  }

  lemma {:induction false} BucketsAddUp(start: uint64, stop: uint64, initial: uint64, sampleRate: uint64,
                                        records: seq<Record>)
    ensures CountTimeOnly(records) + CountBucket(start, stop, initial, records, OldTime)
            + CountBucket(start, stop, initial, records, EmptyInterval)
            + CountBucket(start, stop, initial, records, LateRecord)
            + |Samples(start, stop, initial, sampleRate, records)|
            + CountBlobs(start, stop, initial, records) == |records|
  {
    if records != [] {
      BucketsAddUp(start, stop, initial, sampleRate, records[..|records| - 1]);
    }
  }

  lemma WrappedSum(n: nat, a: nat, b: nat, c: nat, rest: nat)
    requires n == a + b + c + rest
    ensures (a % TWO_32 + b % TWO_32 + c % TWO_32 + rest) % TWO_32 == n % TWO_32
  {
    var k := a / TWO_32 + b / TWO_32 + c / TWO_32;
    assert n == a % TWO_32 + b % TWO_32 + c % TWO_32 + rest + k * TWO_32;
    ShiftedByWraps(a % TWO_32 + b % TWO_32 + c % TWO_32 + rest, k);
  }

  lemma {:induction false} ShiftedByWraps(m: nat, k: nat)
    ensures (m + k * TWO_32) % TWO_32 == m % TWO_32
    decreases k
  {
    if k > 0 {
      ShiftedByWraps(m, k - 1);
      assert m + k * TWO_32 == (m + (k - 1) * TWO_32) + TWO_32;
    }
  }

  /**
   For any times, what the importer returns accounts for every record: the three warning counts, the
   samples and blobs, and the records that only move the clock add up to the record count, modulo
   the width of the counters.
   */
  lemma CountersAddUp(start: uint64, stop: uint64, initial: uint64, sampleRate: uint64, records: seq<Record>)
    ensures var c := CountersOf(start, stop, initial, records);
            (c.stale + c.empty + c.late + |Samples(start, stop, initial, sampleRate, records)|
             + CountBlobs(start, stop, initial, records) + CountTimeOnly(records)) % TWO_32 == c.records
  {
    BucketsAddUp(start, stop, initial, sampleRate, records);
    WrappedSum(|records|, CountBucket(start, stop, initial, records, OldTime),
               CountBucket(start, stop, initial, records, EmptyInterval),
               CountBucket(start, stop, initial, records, LateRecord),
               |Samples(start, stop, initial, sampleRate, records)| + CountBlobs(start, stop, initial, records)
               + CountTimeOnly(records));
  }
}
