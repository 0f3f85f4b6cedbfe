/**
 The notification protocol of RspServer. One notification may be pending; events reported meanwhile
 wait in a queue. Each `vStopped` acknowledgment is answered with the next queued event, or with `OK`
 when the queue is empty, which ends the round. A timer resends the pending notification.
 */
module Notifications {
  import opened Common
  import opened Packet

  /** A heap-allocated PendingNotification. `serial` tells notifications apart; the program sees only `addr`. */
  datatype Notification = Notification(serial: nat, addr: nat, event: Bytes)

  /** A delayed task: it captured the address of the notification it was posted for. */
  datatype Timer = Timer(serial: nat, addr: nat)

  /** What the server hands to the I/O loop. */
  datatype Message =
    | Notify(event: Bytes)
    | EventPacket(event: Bytes)
    | OkPacket
    | Ack(ok: bool)
    | Response(data: Bytes)

  datatype State = State(queue: seq<Notification>, pending: Option<Notification>,
                         timers: multiset<Timer>, wire: seq<Message>, reported: nat)

  const INITIAL := State([], None, multiset{}, [], 0)

  datatype Input =
    | Report(event: Bytes, addr: nat)        // an event; addr is where its notification is allocated
    | Read(bytes: Bytes, handled: bool)      // bytes from the debugger; whether the command handler takes them
    | Respond(data: Bytes)                   // the command handler answers
    | Expire(timer: Timer)                   // a delayed task runs

  // ----- the operations as functions on the state -----

  function Live(s: State): (notifications: set<Notification>) {
    (set n | n in s.queue) + if s.pending.Some? then {s.pending.value} else {}
  }

  /** The environment's obligations: memory in use is not handed out again, only posted tasks run. */
  predicate Enabled(s: State, i: Input) {
    match i
    case Report(_, addr) => forall n :: n in Live(s) ==> n.addr != addr
    case Expire(timer) => timer in s.timers
    case _ => true
  }

  function Send(s: State, m: Message): (r: State) {
    s.(wire := s.wire + [m])
  }

  function TryPostNext(s: State): (r: State) {
    if s.pending.Some? || s.queue == [] then s
    else
      var n := s.queue[0];
      Send(s.(queue := s.queue[1..], pending := Some(n), timers := s.timers + multiset{Timer(n.serial, n.addr)}),
           Notify(n.event))
  }

  ghost predicate IsStopAck(bytes: Bytes) {
    bytes != "+" && Unframe(bytes) == Some("vStopped")
  }

  function Acknowledge(s: State): (r: State) {
    if s.pending.None? then s
    else if s.queue != [] then Send(s.(queue := s.queue[1..]), EventPacket(s.queue[0].event))
    else Send(s.(pending := None), OkPacket)
  }

  ghost function Step(s: State, i: Input): (r: State) {
    match i
    case Report(event, addr) =>
      TryPostNext(s.(queue := s.queue + [Notification(s.reported, addr, event)], reported := s.reported + 1))
    case Read(bytes, handled) =>
      if bytes == "+" then s
      else if Unframe(bytes).None? then Send(s, Ack(false))
      else if IsStopAck(bytes) then Acknowledge(Send(s, Ack(true)))
      else if handled then Send(s, Ack(true))
      else Send(Send(s, Ack(true)), Response([]))
    case Respond(data) => Send(s, Response(data))
    case Expire(timer) =>
      var s' := s.(timers := s.timers - multiset{timer});
      if s.pending.Some? && s.pending.value.addr == timer.addr then
        var n := s.pending.value;
        Send(s'.(timers := s'.timers + multiset{Timer(n.serial, n.addr)}), Notify(n.event))
      else s'
  }

  /** The server object. The delayed tasks of the message loop and the bytes posted are part of its state. */
  class RspServer {
    var notifyQueue: seq<Notification>
    var pendingNotification: Option<Notification>
    var tasks: multiset<Timer>
    var posted: seq<Message>
    var allocations: nat

    function View(): (s: State)
      reads this
    {
      State(notifyQueue, pendingNotification, tasks, posted, allocations)
    }

    constructor ()
      ensures View() == INITIAL
    {
      notifyQueue, pendingNotification, tasks, posted, allocations := [], None, multiset{}, [], 0;
    }

    method QueueNotification(event: Bytes, addr: nat)
      requires Enabled(View(), Report(event, addr))
      modifies this
      ensures View() == Step(old(View()), Report(event, addr))
    {
      notifyQueue := notifyQueue + [Notification(allocations, addr, event)];
      allocations := allocations + 1;
      var _ := TryPostNextNotification();
    }

    method TryPostNextNotification() returns (sent: bool)
      modifies this
      ensures View() == TryPostNext(old(View()))
      ensures sent <==> old(pendingNotification).None? && old(notifyQueue) != []
    {
      if pendingNotification.Some? || |notifyQueue| == 0 {
        return false;
      }
      pendingNotification := Some(notifyQueue[0]);
      notifyQueue := notifyQueue[1..];
      PostPendingNotificationWriteTask();
      PostNotificationTimeoutHandler();
      return true;
    }

    method PostPendingNotificationWriteTask()
      requires pendingNotification.Some?
      modifies this`posted
      ensures posted == old(posted) + [Notify(pendingNotification.value.event)]
    {
      posted := posted + [Notify(pendingNotification.value.event)];
    }

    method PostNotificationTimeoutHandler()
      requires pendingNotification.Some?
      modifies this`tasks
      ensures tasks == old(tasks) + multiset{Timer(pendingNotification.value.serial, pendingNotification.value.addr)}
    {
      tasks := tasks + multiset{Timer(pendingNotification.value.serial, pendingNotification.value.addr)};
    }

    /** The delayed task: it compares addresses only. */
    method OnTimeout(timer: Timer)
      requires timer in tasks
      modifies this
      ensures View() == Step(old(View()), Expire(timer))
    {
      tasks := tasks - multiset{timer};
      if pendingNotification.None? || pendingNotification.value.addr != timer.addr {
        return;
      }
      PostPendingNotificationWriteTask();
      PostNotificationTimeoutHandler();
    }

    method OnBytesRead(bytes: Bytes, handled: bool)
      modifies this
      ensures View() == Step(old(View()), Read(bytes, handled))
    {
      if bytes == "+" {
        return;
      }
      var packetData := VerifyPacket(bytes);
      posted := posted + [Ack(packetData.Some?)];
      if packetData.None? {
        return;
      }
      if packetData.value == "vStopped" {
        if pendingNotification.Some? {
          if |notifyQueue| != 0 {
            var notif := notifyQueue[0];
            notifyQueue := notifyQueue[1..];
            posted := posted + [EventPacket(notif.event)];
          } else {
            pendingNotification := None;
            posted := posted + [OkPacket];
          }
        }
        return;
      }
      if handled {
        return;
      }
      posted := posted + [Response([])];
    }

    method OnResponse(data: Bytes)
      modifies this
      ensures View() == Step(old(View()), Respond(data))
    {
      posted := posted + [Response(data)];
    }
  }

  // ----- runs -----

  ghost function Run(inputs: seq<Input>): (s: State) {
    if inputs == [] then INITIAL else Step(Run(inputs[..|inputs| - 1]), inputs[|inputs| - 1])
  }

  /** Every input of the run is possible when it happens. */
  ghost predicate Feasible(inputs: seq<Input>) {
    forall k :: 0 <= k < |inputs| ==> Enabled(Run(inputs[..k]), inputs[k])
  }

  lemma RunStep(inputs: seq<Input>, k: nat)
    requires k < |inputs|
    ensures Run(inputs[..k + 1]) == Step(Run(inputs[..k]), inputs[k])
  {
    assert inputs[..k + 1][..k] == inputs[..k];
  }

  lemma FeasiblePrefix(inputs: seq<Input>, k: nat)
    requires k <= |inputs| && Feasible(inputs)
    ensures Feasible(inputs[..k])
  {
    forall j | 0 <= j < k
      ensures Enabled(Run(inputs[..k][..j]), inputs[..k][j])
    {
      assert inputs[..k][..j] == inputs[..j];
    }
  }

  lemma FeasibleAppend(inputs: seq<Input>, i: Input)
    requires Feasible(inputs + [i])
    ensures Feasible(inputs) && Enabled(Run(inputs), i) && Run(inputs + [i]) == Step(Run(inputs), i)
  {
    var n := |inputs|;
    TakeOfAppend(inputs, i, n);
    assert inputs[..n] == inputs;
    FeasiblePrefix(inputs + [i], n);
    assert Enabled(Run((inputs + [i])[..n]), (inputs + [i])[n]);
  }

  function ReportedEvents(inputs: seq<Input>): (events: seq<Bytes>) {
    if inputs == [] then []
    else
      ReportedEvents(inputs[..|inputs| - 1]) +
      if inputs[|inputs| - 1].Report? then [inputs[|inputs| - 1].event] else []
  }

  function EventsOf(queue: seq<Notification>): (events: seq<Bytes>) {
    seq(|queue|, i requires 0 <= i < |queue| => queue[i].event)
  }

  // ----- the shape of the wire -----

  predicate IsProtocol(m: Message) {
    m.Notify? || m.EventPacket? || m.OkPacket?
  }

  /** The part of the wire that belongs to the notification protocol. */
  function Trace(wire: seq<Message>): (t: seq<Message>) {
    if wire == [] then []
    else Trace(wire[..|wire| - 1]) + if IsProtocol(wire[|wire| - 1]) then [wire[|wire| - 1]] else []
  }

  /** A round announces one event; until its OK come resends of that event and packets of queued events. */
  datatype Round = Round(event: Bytes, body: seq<Message>) {
    predicate WellFormed() {
      forall i :: 0 <= i < |body| ==> body[i] == Notify(event) || body[i].EventPacket?
    }

    function Open(): (t: seq<Message>) {
      [Notify(event)] + body
    }

    /** The events the round delivers for the first time. */
    function Delivers(): (events: seq<Bytes>) {
      [event] + PacketEvents(body)
    }
  }

  function PacketEvents(t: seq<Message>): (events: seq<Bytes>) {
    if t == [] then []
    else PacketEvents(t[..|t| - 1]) + if t[|t| - 1].EventPacket? then [t[|t| - 1].event] else []
  }

  function Closed(rounds: seq<Round>): (t: seq<Message>) {
    if rounds == [] then [] else Closed(rounds[..|rounds| - 1]) + rounds[|rounds| - 1].Open() + [OkPacket]
  }

  function Delivered(rounds: seq<Round>): (events: seq<Bytes>) {
    if rounds == [] then [] else Delivered(rounds[..|rounds| - 1]) + rounds[|rounds| - 1].Delivers()
  }

  /** t is the finished rounds followed by the unfinished one, if any. */
  ghost predicate IsRounds(t: seq<Message>, rounds: seq<Round>, open: Option<Round>) {
    && (forall i :: 0 <= i < |rounds| ==> rounds[i].WellFormed())
    && (open.Some? ==> open.value.WellFormed())
    && t == Closed(rounds) + if open.Some? then open.value.Open() else []
  }

  function DeliveredSoFar(rounds: seq<Round>, open: Option<Round>): (events: seq<Bytes>) {
    Delivered(rounds) + if open.Some? then open.value.Delivers() else []
  }

  /** The state agrees with the wire: the open round is the pending notification's. */
  ghost predicate Explains(s: State, rounds: seq<Round>, open: Option<Round>) {
    && IsRounds(Trace(s.wire), rounds, open)
    && (open.Some? <==> s.pending.Some?)
    && (open.Some? ==> open.value.event == s.pending.value.event)
    && (s.pending.None? ==> s.queue == [])
  }

  lemma TraceSend(wire: seq<Message>, m: Message)
    ensures Trace(wire + [m]) == Trace(wire) + if IsProtocol(m) then [m] else []
  {
    assert (wire + [m])[..|wire|] == wire;
  }

  lemma OpenRoundGrows(t: seq<Message>, rounds: seq<Round>, r: Round, m: Message)
    requires IsRounds(t, rounds, Some(r)) && (m == Notify(r.event) || m.EventPacket?)
    ensures IsRounds(t + [m], rounds, Some(Round(r.event, r.body + [m])))
    ensures Round(r.event, r.body + [m]).Delivers() == r.Delivers() + if m.EventPacket? then [m.event] else []
  {
    assert (r.body + [m])[..|r.body|] == r.body;
    assert Round(r.event, r.body + [m]).Open() == r.Open() + [m];
  }

  lemma OpenRoundCloses(t: seq<Message>, rounds: seq<Round>, r: Round)
    requires IsRounds(t, rounds, Some(r))
    ensures IsRounds(t + [OkPacket], rounds + [r], None)
    ensures Delivered(rounds + [r]) == Delivered(rounds) + r.Delivers()
  {
    assert (rounds + [r])[..|rounds|] == rounds;
  }

  lemma RoundOpens(t: seq<Message>, rounds: seq<Round>, event: Bytes)
    requires IsRounds(t, rounds, None)
    ensures IsRounds(t + [Notify(event)], rounds, Some(Round(event, [])))
    ensures Round(event, []).Delivers() == [event]
  {
    assert t == Closed(rounds);
  }

  /** Events on the wire or still queued; conservation says this is what was reported. */
  function Accounted(s: State, rounds: seq<Round>, open: Option<Round>): (events: seq<Bytes>) {
    DeliveredSoFar(rounds, open) + EventsOf(s.queue)
  }

  lemma ReportWaits(s: State, event: Bytes, addr: nat, rounds: seq<Round>, r: Round)
    requires Explains(s, rounds, Some(r))
    ensures var s' := Step(s, Report(event, addr));
            Explains(s', rounds, Some(r)) && Accounted(s', rounds, Some(r)) == Accounted(s, rounds, Some(r)) + [event]
  {
    var n := Notification(s.reported, addr, event);
    assert EventsOf(s.queue + [n]) == EventsOf(s.queue) + [event];
  }

  lemma ReportOpensRound(s: State, event: Bytes, addr: nat, rounds: seq<Round>)
    requires Explains(s, rounds, None)
    ensures var s', r := Step(s, Report(event, addr)), Some(Round(event, []));
            Explains(s', rounds, r) && Accounted(s', rounds, r) == Accounted(s, rounds, None) + [event]
  {
    var n := Notification(s.reported, addr, event);
    assert s.queue + [n] == [n] && (s.queue + [n])[1..] == [];
    TraceSend(s.wire, Notify(event));
    RoundOpens(Trace(s.wire), rounds, event);
    assert EventsOf([]) == [];
  }

  lemma ReportExplained(s: State, event: Bytes, addr: nat, rounds: seq<Round>, open: Option<Round>)
    returns (open': Option<Round>)
    requires Explains(s, rounds, open)
    ensures var s' := Step(s, Report(event, addr));
            Explains(s', rounds, open') && Accounted(s', rounds, open') == Accounted(s, rounds, open) + [event]
  {
    if open.Some? {
      open' := open;
      ReportWaits(s, event, addr, rounds, open.value);
    } else {
      open' := Some(Round(event, []));
      ReportOpensRound(s, event, addr, rounds);
    }
  }

  lemma Regroup(a: seq<Bytes>, b: seq<Bytes>, x: Bytes, c: seq<Bytes>)
    ensures a + (b + [x]) + c == a + b + ([x] + c)
  {
  }

  lemma EventSentExplained(s: State, rounds: seq<Round>, r: Round) returns (r': Round)
    requires Explains(s, rounds, Some(r)) && s.queue != []
    ensures Explains(Acknowledge(s), rounds, Some(r'))
    ensures Accounted(Acknowledge(s), rounds, Some(r')) == Accounted(s, rounds, Some(r))
  {
    var m := EventPacket(s.queue[0].event);
    r' := Round(r.event, r.body + [m]);
    TraceSend(s.wire, m);
    OpenRoundGrows(Trace(s.wire), rounds, r, m);
    assert EventsOf(s.queue) == [m.event] + EventsOf(s.queue[1..]);
    Regroup(Delivered(rounds), r.Delivers(), m.event, EventsOf(s.queue[1..]));
  }

  lemma OkSentExplained(s: State, rounds: seq<Round>, r: Round)
    requires Explains(s, rounds, Some(r)) && s.queue == []
    ensures Explains(Acknowledge(s), rounds + [r], None)
    ensures Accounted(Acknowledge(s), rounds + [r], None) == Accounted(s, rounds, Some(r))
  {
    TraceSend(s.wire, OkPacket);
    OpenRoundCloses(Trace(s.wire), rounds, r);
    assert DeliveredSoFar(rounds + [r], None) == DeliveredSoFar(rounds, Some(r));
  }

  lemma AcknowledgeExplained(s: State, rounds: seq<Round>, open: Option<Round>)
    returns (rounds': seq<Round>, open': Option<Round>)
    requires Explains(s, rounds, open)
    ensures Explains(Acknowledge(s), rounds', open')
    ensures Accounted(Acknowledge(s), rounds', open') == Accounted(s, rounds, open)
  {
    rounds', open' := rounds, open;
    if s.pending.Some? {
      if s.queue != [] {
        var r' := EventSentExplained(s, rounds, open.value);
        open' := Some(r');
      } else {
        OkSentExplained(s, rounds, open.value);
        rounds', open' := rounds + [open.value], None;
      }
    }
  }

  lemma ExpireExplained(s: State, timer: Timer, rounds: seq<Round>, open: Option<Round>) returns (open': Option<Round>)
    requires Explains(s, rounds, open)
    ensures var s' := Step(s, Expire(timer));
            Explains(s', rounds, open') && Accounted(s', rounds, open') == Accounted(s, rounds, open)
  {
    open' := open;
    if s.pending.Some? && s.pending.value.addr == timer.addr {
      var r := open.value;
      var m := Notify(r.event);
      TraceSend(s.wire, m);
      OpenRoundGrows(Trace(s.wire), rounds, r, m);
      open' := Some(Round(r.event, r.body + [m]));
    }
  }

  lemma ReadExplained(s: State, bytes: Bytes, handled: bool, rounds: seq<Round>, open: Option<Round>)
    returns (rounds': seq<Round>, open': Option<Round>)
    requires Explains(s, rounds, open)
    ensures var s' := Step(s, Read(bytes, handled));
            Explains(s', rounds', open') && Accounted(s', rounds', open') == Accounted(s, rounds, open)
  {
    rounds', open' := rounds, open;
    TraceSend(s.wire, Ack(false));
    TraceSend(s.wire, Ack(true));
    TraceSend(s.wire + [Ack(true)], Response([]));
    if IsStopAck(bytes) {
      rounds', open' := AcknowledgeExplained(Send(s, Ack(true)), rounds, open);
    }
  }

  lemma StepExplained(s: State, i: Input, rounds: seq<Round>, open: Option<Round>)
    returns (rounds': seq<Round>, open': Option<Round>)
    requires Explains(s, rounds, open)
    ensures Explains(Step(s, i), rounds', open')
    ensures Accounted(Step(s, i), rounds', open') == Accounted(s, rounds, open) + if i.Report? then [i.event] else []
  {
    rounds', open' := rounds, open;
    match i {
      case Report(event, addr) => open' := ReportExplained(s, event, addr, rounds, open);
      case Expire(timer) => open' := ExpireExplained(s, timer, rounds, open);
      case Respond(data) => TraceSend(s.wire, Response(data));
      case Read(bytes, handled) => rounds', open' := ReadExplained(s, bytes, handled, rounds, open);
    }
  }

  /**
   Over every run, whatever addresses the allocator returns: the protocol's messages are finished
   rounds and at most one unfinished round, which is open exactly while its notification is pending;
   no notification pending means an empty queue; and the events reported are exactly those delivered
   by the rounds followed by those still queued, in order.
   */
  lemma {:induction false} EveryRunIsRounds(inputs: seq<Input>) returns (rounds: seq<Round>, open: Option<Round>)
    ensures Explains(Run(inputs), rounds, open)
    ensures ReportedEvents(inputs) == DeliveredSoFar(rounds, open) + EventsOf(Run(inputs).queue)
  {
    if inputs == [] {
      rounds, open := [], None;
    } else {
      rounds, open := EveryRunIsRounds(inputs[..|inputs| - 1]);
      rounds, open := StepExplained(Run(inputs[..|inputs| - 1]), inputs[|inputs| - 1], rounds, open);
    }
  }

  // The reading of a trace as rounds is unique, so "delivered" is a fact about the wire alone.

  predicate HasOk(t: seq<Message>) {
    exists i :: 0 <= i < |t| && t[i] == OkPacket
  }

  /** A suffix of a trace that is longer than the unfinished part of some reading holds an OK. */
  lemma LongTailHasOk(t: seq<Message>, tail: seq<Message>, rounds: seq<Round>, open: seq<Message>)
    requires |tail| <= |t| && tail == t[|t| - |tail|..] && t == Closed(rounds) + open
    ensures |tail| > |open| ==> HasOk(tail)
  {
    if |tail| > |open| {
      assert tail[|tail| - |open| - 1] == Closed(rounds)[|Closed(rounds)| - 1] == OkPacket;
    }
  }

  function OpenPart(open: Option<Round>): (t: seq<Message>) {
    if open.Some? then open.value.Open() else []
  }

  lemma OpenPartIsUnique(t: seq<Message>, rounds1: seq<Round>, open1: Option<Round>, rounds2: seq<Round>,
                         open2: Option<Round>)
    requires IsRounds(t, rounds1, open1) && IsRounds(t, rounds2, open2)
    ensures Closed(rounds1) == Closed(rounds2) && open1 == open2
  {
    var tail1, tail2 := OpenPart(open1), OpenPart(open2);
    assert tail1 == t[|t| - |tail1|..] && tail2 == t[|t| - |tail2|..];
    assert !HasOk(tail1) && !HasOk(tail2);
    LongTailHasOk(t, tail1, rounds2, tail2);
    LongTailHasOk(t, tail2, rounds1, tail1);
    assert tail1 == tail2;
    assert Closed(rounds1) == t[..|t| - |tail1|] == Closed(rounds2);
    if open1.Some? && open2.Some? {
      assert open1.value.body == tail1[1..] == open2.value.body;
      assert open1.value.event == tail1[0].event == open2.value.event;
    }
  }

  lemma {:induction false} ClosedIsInjective(rounds1: seq<Round>, rounds2: seq<Round>)
    requires Closed(rounds1) == Closed(rounds2)
    requires forall i :: 0 <= i < |rounds1| ==> rounds1[i].WellFormed()
    requires forall i :: 0 <= i < |rounds2| ==> rounds2[i].WellFormed()
    ensures rounds1 == rounds2
    decreases |rounds1|
  {
    if rounds1 != [] && rounds2 != [] {
      var n1, n2 := |rounds1| - 1, |rounds2| - 1;
      var t := Closed(rounds1)[..|Closed(rounds1)| - 1];
      assert t == Closed(rounds1[..n1]) + rounds1[n1].Open();
      assert t == Closed(rounds2[..n2]) + rounds2[n2].Open();
      OpenPartIsUnique(t, rounds1[..n1], Some(rounds1[n1]), rounds2[..n2], Some(rounds2[n2]));
      ClosedIsInjective(rounds1[..n1], rounds2[..n2]);
      SplitLast(rounds1);
      SplitLast(rounds2);
    }
  }

  lemma RoundsAreUnique(t: seq<Message>, rounds1: seq<Round>, open1: Option<Round>, rounds2: seq<Round>,
                        open2: Option<Round>)
    requires IsRounds(t, rounds1, open1) && IsRounds(t, rounds2, open2)
    ensures rounds1 == rounds2 && open1 == open2
  {
    OpenPartIsUnique(t, rounds1, open1, rounds2, open2);
    ClosedIsInjective(rounds1, rounds2);
  }

  // ----- every packet is answered -----

  /** The acknowledgments and responses among some messages. */
  function Answers(wire: seq<Message>): (t: seq<Message>) {
    if wire == [] then []
    else
      var last := wire[|wire| - 1];
      Answers(wire[..|wire| - 1]) + if last.Ack? || last.Response? then [last] else []
  }

  /**
   What is owed for an input: `+` or `-` for bytes that are not themselves a `+`, by whether they hold
   a valid packet, and an empty response to a valid packet that nobody handles.
   */
  ghost function Owed(i: Input): (t: seq<Message>) {
    match i
    case Read(bytes, handled) =>
      if bytes == "+" then []
      else
        [Ack(Unframe(bytes).Some?)] +
        if Unframe(bytes).Some? && Unframe(bytes).value != "vStopped" && !handled then [Response([])] else []
    case Respond(data) => [Response(data)]
    case _ => []
  }

  /** A lone `-`, which asks for the last packet again, is itself answered with `-`. */
  lemma RefusalIsRefused(handled: bool)
    ensures Owed(Read("-", handled)) == [Ack(false)]
  {
    var bytes: Bytes := "-";
    assert bytes != "+" by { assert bytes[0] == '-'; }
    NoFrameWithoutDollar(bytes);
  }

  ghost function AllOwed(inputs: seq<Input>): (t: seq<Message>) {
    if inputs == [] then [] else AllOwed(inputs[..|inputs| - 1]) + Owed(inputs[|inputs| - 1])
  }

  /** What an input may put on the wire: what is owed for it comes first. */
  ghost predicate MaySend(i: Input, t: seq<Message>) {
    match i
    case Read(bytes, _) =>
      || t == Owed(i)
      || (IsStopAck(bytes) && exists m: Message :: (m.EventPacket? || m.OkPacket?) && t == Owed(i) + [m])
    case Respond(_) => t == Owed(i)
    case _ => t == [] || (|t| == 1 && t[0].Notify?)
  }

  lemma StepSends(s: State, i: Input) returns (t: seq<Message>)
    ensures Step(s, i).wire == s.wire + t && MaySend(i, t)
  {
    t := Step(s, i).wire[|s.wire|..];
    if i.Read? && IsStopAck(i.bytes) && s.pending.Some? {
      assert t == Owed(i) + [if s.queue != [] then EventPacket(s.queue[0].event) else OkPacket];
    }
  }

  lemma {:induction false} AnswersAppend(wire: seq<Message>, t: seq<Message>)
    ensures Answers(wire + t) == Answers(wire) + Answers(t)
    decreases |t|
  {
    if t == [] {
      assert wire + t == wire;
    } else {
      AnswersAppend(wire, t[..|t| - 1]);
      assert (wire + t)[..|wire + t| - 1] == wire + t[..|t| - 1];
    }
  }

  lemma OwedAreAnswers(i: Input, t: seq<Message>)
    requires MaySend(i, t)
    ensures Answers(t) == Owed(i)
  {
    var owed := Owed(i);
    assert Answers([]) == [];
    if |owed| == 1 {
      assert owed[..0] == [] && Answers(owed) == owed;
    } else if |owed| == 2 {
      assert owed[..1][..0] == [] && Answers(owed) == owed;
    }
    if t != owed {
      AnswersAppend(owed, t[|owed|..]);
      assert t == owed + t[|owed|..] && t[|owed|..][..0] == [];
    }
  }

  /** Over every run the acknowledgments and responses sent are those owed for the inputs, in order. */
  lemma {:induction false} EveryPacketIsAnswered(inputs: seq<Input>)
    ensures Answers(Run(inputs).wire) == AllOwed(inputs)
  {
    if inputs != [] {
      var init, i := inputs[..|inputs| - 1], inputs[|inputs| - 1];
      EveryPacketIsAnswered(init);
      var t := StepSends(Run(init), i);
      AnswersAppend(Run(init).wire, t);
      OwedAreAnswers(i, t);
    }
  }

  /** The wire is what the inputs made the server send, one after the other. */
  ghost predicate Conversation(inputs: seq<Input>, wire: seq<Message>) {
    if inputs == [] then wire == []
    else
      exists k :: && 0 <= k <= |wire| && Conversation(inputs[..|inputs| - 1], wire[..k])
                  && MaySend(inputs[|inputs| - 1], wire[k..])
  }

  /** Over every run nothing else is sent, and what is owed for an input comes before its event or `OK`. */
  lemma {:induction false} EveryRunIsConversation(inputs: seq<Input>)
    ensures Conversation(inputs, Run(inputs).wire)
  {
    if inputs != [] {
      var init := inputs[..|inputs| - 1];
      EveryRunIsConversation(init);
      var before := Run(init).wire;
      var t := StepSends(Run(init), inputs[|inputs| - 1]);
      assert (before + t)[..|before|] == before && (before + t)[|before|..] == t;
    }
  }

  // ----- acknowledgments drain the queue -----

  ghost predicate IsAckInput(i: Input) {
    i.Read? && IsStopAck(i.bytes)
  }

  ghost function RunFrom(s: State, inputs: seq<Input>): (r: State) {
    if inputs == [] then s else Step(RunFrom(s, inputs[..|inputs| - 1]), inputs[|inputs| - 1])
  }

  ghost function AckCount(inputs: seq<Input>): (n: nat) {
    if inputs == [] then 0
    else AckCount(inputs[..|inputs| - 1]) + if IsAckInput(inputs[|inputs| - 1]) then 1 else 0
  }

  function Packets(wire: seq<Message>): (t: seq<Message>) {
    if wire == [] then []
    else
      var last := wire[|wire| - 1];
      Packets(wire[..|wire| - 1]) + if last.EventPacket? || last.OkPacket? then [last] else []
  }

  lemma PacketsSend(wire: seq<Message>, m: Message)
    ensures Packets(wire + [m]) == Packets(wire) + if m.EventPacket? || m.OkPacket? then [m] else []
  {
    assert (wire + [m])[..|wire|] == wire;
  }

  function QueuePackets(queue: seq<Notification>, k: nat): (t: seq<Message>)
    requires k <= |queue|
  {
    seq(k, i requires 0 <= i < k => EventPacket(queue[i].event))
  }

  /** The state after a acknowledgments and no new event: the first a queued events sent, then OK. */
  ghost predicate DrainedBy(s: State, a: nat, r: State) {
    if a <= |s.queue| then
      r.pending == s.pending && r.queue == s.queue[a..] && Packets(r.wire) == Packets(s.wire) + QueuePackets(s.queue, a)
    else
      r.pending == None && r.queue == []
        && Packets(r.wire) == Packets(s.wire) + QueuePackets(s.queue, |s.queue|) + [OkPacket]
  }

  /**
   While no event is reported, a acknowledgments, among any timeouts and other traffic, send exactly
   the first a queued events, in order; one more than the queue is long sends OK and ends the round,
   and further ones do nothing.
   */
  lemma {:induction false} AcknowledgmentsDrain(s: State, inputs: seq<Input>)
    requires s.pending.Some?
    requires forall k :: 0 <= k < |inputs| ==> !inputs[k].Report?
    ensures DrainedBy(s, AckCount(inputs), RunFrom(s, inputs))
  {
    if inputs == [] {
      assert QueuePackets(s.queue, 0) == [];
    } else {
      var init, i := inputs[..|inputs| - 1], inputs[|inputs| - 1];
      AcknowledgmentsDrain(s, init);
      DrainStep(s, AckCount(init), RunFrom(s, init), i);
    }
  }

  lemma DrainAck(s: State, a: nat, r: State)
    requires DrainedBy(s, a, r) && s.pending.Some?
    ensures DrainedBy(s, a + 1, Acknowledge(r))
  {
    if a < |s.queue| {
      assert r.queue[0] == s.queue[a] && r.queue[1..] == s.queue[a + 1..];
      PacketsSend(r.wire, EventPacket(s.queue[a].event));
      assert QueuePackets(s.queue, a + 1) == QueuePackets(s.queue, a) + [EventPacket(s.queue[a].event)];
    } else if a == |s.queue| {
      assert r.queue == [];
      PacketsSend(r.wire, OkPacket);
    }
  }

  lemma DrainRead(s: State, a: nat, r: State, bytes: Bytes, handled: bool)
    requires DrainedBy(s, a, r) && s.pending.Some?
    ensures DrainedBy(s, if IsStopAck(bytes) then a + 1 else a, Step(r, Read(bytes, handled)))
  {
    PacketsSend(r.wire, Ack(false));
    PacketsSend(r.wire, Ack(true));
    if IsStopAck(bytes) {
      DrainAck(s, a, Send(r, Ack(true)));
    } else {
      PacketsSend(r.wire + [Ack(true)], Response([]));
    }
  }

  lemma DrainStep(s: State, a: nat, r: State, i: Input)
    requires DrainedBy(s, a, r) && s.pending.Some? && !i.Report?
    ensures DrainedBy(s, if IsAckInput(i) then a + 1 else a, Step(r, i))
  {
    match i {
      case Respond(data) => PacketsSend(r.wire, Response(data));
      case Expire(timer) =>
        if r.pending.Some? {
          PacketsSend(r.wire, Notify(r.pending.value.event));
        }
      case Read(bytes, handled) => DrainRead(s, a, r, bytes, handled);
    }
  }

  // ----- timers -----

  /** Exactly one delayed task would resend the pending notification, and it is the one posted for it. */
  predicate OneLiveTimer(s: State) {
    s.pending.Some? ==>
      var n := s.pending.value;
      && s.timers[Timer(n.serial, n.addr)] == 1
      && forall t :: t in s.timers && t.addr == n.addr ==> t == Timer(n.serial, n.addr)
  }

  /** A notification becomes pending at an address that an outstanding task still compares against. */
  predicate ReusesTimedAddress(s: State, i: Input) {
    i.Report? && s.pending.None? && exists t :: t in s.timers && t.addr == i.addr
  }

  /** Serial numbers in use are below the counter. */
  predicate SerialsBelow(s: State) {
    && (forall n :: n in Live(s) ==> n.serial < s.reported)
    && (forall t :: t in s.timers ==> t.serial < s.reported)
    && (s.pending.None? ==> s.queue == [])
  }

  lemma SerialsStayBelow(s: State, i: Input)
    requires SerialsBelow(s) && Enabled(s, i)
    ensures SerialsBelow(Step(s, i))
  {
    if i.Report? {
      SerialsReport(s, i.event, i.addr);
    }
  }

  lemma SerialsReport(s: State, event: Bytes, addr: nat)
    requires SerialsBelow(s)
    ensures SerialsBelow(Step(s, Report(event, addr)))
  {
    if s.pending.None? {
      assert (s.queue + [Notification(s.reported, addr, event)])[1..] == [];
    }
  }

  lemma LiveTimerStep(s: State, i: Input)
    requires SerialsBelow(s) && Enabled(s, i) && OneLiveTimer(s)
    ensures OneLiveTimer(Step(s, i)) <==> !ReusesTimedAddress(s, i)
  {
    var s' := Step(s, i);
    if i.Report? && s.pending.None? {
      var n := Notification(s.reported, i.addr, i.event);
      assert (s.queue + [n])[0] == n;
      assert s'.pending == Some(n) && s'.timers == s.timers + multiset{Timer(n.serial, n.addr)};
      if t :| t in s.timers && t.addr == i.addr {
        assert t in s'.timers && t.serial != n.serial;
      } else {
        assert Timer(n.serial, n.addr) !in s.timers;
      }
    }
  }

  lemma {:induction false} SerialsBelowInRun(inputs: seq<Input>)
    requires Feasible(inputs)
    ensures SerialsBelow(Run(inputs))
  {
    if inputs != [] {
      var k := |inputs| - 1;
      FeasiblePrefix(inputs, k);
      SerialsBelowInRun(inputs[..k]);
      SerialsStayBelow(Run(inputs[..k]), inputs[k]);
    }
  }

  /** After the first k inputs. */
  ghost predicate OneLiveTimerAt(inputs: seq<Input>, k: nat)
    requires k <= |inputs|
  {
    OneLiveTimer(Run(inputs[..k]))
  }

  ghost predicate AlwaysOneLiveTimer(inputs: seq<Input>) {
    forall k :: 0 <= k <= |inputs| ==> OneLiveTimerAt(inputs, k)
  }

  /** At input k. */
  ghost predicate ReusesAt(inputs: seq<Input>, k: nat)
    requires k < |inputs|
  {
    ReusesTimedAddress(Run(inputs[..k]), inputs[k])
  }

  ghost predicate NeverReuses(inputs: seq<Input>) {
    forall k :: 0 <= k < |inputs| ==> !ReusesAt(inputs, k)
  }

  lemma AppendKeepsPast(inputs: seq<Input>, i: Input, k: nat)
    requires k <= |inputs|
    ensures OneLiveTimerAt(inputs + [i], k) == OneLiveTimerAt(inputs, k)
    ensures k < |inputs| ==> ReusesAt(inputs + [i], k) == ReusesAt(inputs, k)
  {
    TakeOfAppend(inputs, i, k);
  }

  lemma AlwaysExtends(inputs: seq<Input>, i: Input)
    ensures AlwaysOneLiveTimer(inputs + [i]) <==> AlwaysOneLiveTimer(inputs) && OneLiveTimer(Run(inputs + [i]))
  {
    var all := inputs + [i];
    assert all[..|all|] == all;
    assert OneLiveTimerAt(all, |all|) == OneLiveTimer(Run(all));
    forall k | 0 <= k <= |inputs|
      ensures OneLiveTimerAt(all, k) == OneLiveTimerAt(inputs, k)
    {
      AppendKeepsPast(inputs, i, k);
    }
  }

  lemma NeverExtends(inputs: seq<Input>, i: Input)
    ensures NeverReuses(inputs + [i]) <==> NeverReuses(inputs) && !ReusesTimedAddress(Run(inputs), i)
  {
    var all := inputs + [i];
    TakeOfAppend(inputs, i, |inputs|);
    assert inputs[..|inputs|] == inputs;
    assert ReusesAt(all, |inputs|) == ReusesTimedAddress(Run(inputs), i);
    forall k | 0 <= k < |inputs|
      ensures ReusesAt(all, k) == ReusesAt(inputs, k)
    {
      AppendKeepsPast(inputs, i, k);
    }
  }

  /**
   Throughout a run there is exactly one live timer while a notification is pending, if and only if
   no notification is ever made pending at the address of a freed one whose timer is still
   outstanding. (Timers compare raw addresses.)
   */
  lemma {:induction false} OneLiveTimerIffNoReuse(inputs: seq<Input>)
    requires Feasible(inputs)
    ensures AlwaysOneLiveTimer(inputs) <==> NeverReuses(inputs)
  {
    if inputs == [] {
      assert inputs[..0] == [];
    } else {
      var n := |inputs| - 1;
      var init, i := inputs[..n], inputs[n];
      SplitLast(inputs);
      FeasiblePrefix(inputs, n);
      OneLiveTimerIffNoReuse(init);
      AlwaysExtends(init, i);
      NeverExtends(init, i);
      if AlwaysOneLiveTimer(init) {
        LastTimerStep(init, i);
      }
    }
  }

  lemma LastTimerStep(inputs: seq<Input>, i: Input)
    requires Feasible(inputs + [i]) && AlwaysOneLiveTimer(inputs)
    ensures OneLiveTimer(Run(inputs + [i])) <==> !ReusesTimedAddress(Run(inputs), i)
  {
    FeasibleAppend(inputs, i);
    SerialsBelowInRun(inputs);
    AlwaysAtEnd(inputs);
    LiveTimerStep(Run(inputs), i);
  }

  lemma AlwaysAtEnd(inputs: seq<Input>)
    requires AlwaysOneLiveTimer(inputs)
    ensures OneLiveTimer(Run(inputs))
  {
    assert OneLiveTimerAt(inputs, |inputs|);
    assert inputs[..|inputs|] == inputs;
  }

  /** With one live timer, a task posted for a notification that is no longer pending sends nothing. */
  lemma StaleTimerIsSilent(s: State, timer: Timer)
    requires OneLiveTimer(s) && timer in s.timers
    requires s.pending.Some? ==> timer.serial != s.pending.value.serial
    ensures Step(s, Expire(timer)).wire == s.wire
  {
  }

  lemma StopAckFrame()
    ensures IsStopAck(Frame(false, "vStopped"))
  {
    var text: Bytes := "vStopped";
    assert forall i :: 0 <= i < |text| ==> text[i] != ESCAPE && text[i] != '#';
    assert Clean(text, '#') && Clean([], '$');
    FrameRoundTrip([], text);
    assert [] + Frame(false, text) == Frame(false, text);
  }

  lemma FirstReport(event: Bytes, addr: nat)
    ensures Step(INITIAL, Report(event, addr)) ==
            State([], Some(Notification(0, addr, event)), multiset{Timer(0, addr)}, [Notify(event)], 1)
  {
    var n := Notification(0, addr, event);
    assert INITIAL.queue + [n] == [n];
    assert [n][1..] == [];
    assert multiset{} + multiset{Timer(0, addr)} == multiset{Timer(0, addr)};
    assert [] + [Notify(event)] == [Notify(event)];
  }

  /** The run in which the property fails: an address is reused while its old timer is outstanding. */
  lemma ReusedAddressHasTwoTimers(a: nat, e1: Bytes, e2: Bytes)
    ensures var inputs := [Report(e1, a), Read(Frame(false, "vStopped"), false), Report(e2, a)];
            Feasible(inputs) && !AlwaysOneLiveTimer(inputs)
  {
    StopAckFrame();
    FirstReport(e1, a);
    var i0, i1, i2 := Report(e1, a), Read(Frame(false, "vStopped"), false), Report(e2, a);
    var inputs := [i0, i1, i2];
    assert inputs[..0] == [];
    RunStep(inputs, 0);
    RunStep(inputs, 1);
    var s2 := Run(inputs[..2]);
    assert s2.timers == multiset{Timer(0, a)} && s2.pending == None && s2.queue == [];
    assert Timer(0, a) in s2.timers;
    assert ReusesAt(inputs, 2);
    OneLiveTimerIffNoReuse(inputs);
  }
}
