/** What the debugger makes of the bytes that the notification protocol puts on the wire. */
module Wire {
  import opened Common
  import opened Packet
  import opened Notifications
  import StopReply

  /** The bytes of a message. */
  function WireBytes(m: Message): (bytes: Bytes) {
    match m
    case Notify(event) => Frame(true, "Stop:" + event)
    case EventPacket(event) => Frame(false, event)
    case OkPacket => Frame(false, "OK")
    case Ack(ok) => if ok then "+" else "-"
    case Response(data) => Frame(false, data)
  }

  /** An acknowledgment, a stop notification, or a packet. */
  datatype Heard = Acked(ok: bool) | Stop(event: Bytes) | Reply(data: Bytes)

  /** Reading bytes by the rules of VerifyPacket; a notification has `%` in place of `$`. */
  ghost function Hear(bytes: Bytes): (r: Option<Heard>) {
    if bytes == "+" then Some(Acked(true))
    else if bytes == "-" then Some(Acked(false))
    else if bytes != [] && bytes[0] == '%' then
      var payload := Unframe("$" + bytes[1..]);
      if payload.Some? && "Stop:" <= payload.value then Some(Stop(payload.value[5..])) else None
    else
      var payload := Unframe(bytes);
      if payload.Some? then Some(Reply(payload.value)) else None
  }

  /** What a message says. */
  function Said(m: Message): (h: Heard) {
    match m
    case Notify(event) => Stop(event)
    case EventPacket(event) => Reply(event)
    case OkPacket => Reply("OK")
    case Ack(ok) => Acked(ok)
    case Response(data) => Reply(data)
  }

  /** The event or data that a message carries. */
  function Load(m: Message): (data: Bytes) {
    match m
    case Notify(event) => event
    case EventPacket(event) => event
    case Response(data) => data
    case _ => []
  }

  /** A prefix without escapes and marks does not matter to whether a text is clean. */
  lemma PlainPrefix(s: Bytes, t: Bytes, c: Byte)
    requires forall i :: 0 <= i < |s| ==> s[i] != ESCAPE && s[i] != c
    ensures Clean(s + t, c) <==> Clean(t, c)
  {
    var all, k := s + t, |s|;
    assert !InEscape(all, k) by { PrefixOpensNothing(s, t, k); }
    assert all[k..] == t;
    forall i | 0 <= i <= |t|
      ensures InEscape(all, k + i) == InEscape(t, i)
    {
      InEscapeOfSuffix(all, k, i);
    }
    forall i | 0 <= i < |t|
      ensures UnescapedAt(all, k + i, c) == UnescapedAt(t, i, c)
    {
    }
    if Clean(t, c) {
      forall j | 0 <= j < |all|
        ensures !UnescapedAt(all, j, c)
      {
        if j >= k {
          assert UnescapedAt(all, k + (j - k), c) == UnescapedAt(t, j - k, c);
        }
      }
    }
    if Clean(all, c) {
      forall i | 0 <= i < |t|
        ensures !UnescapedAt(t, i, c)
      {
        assert !UnescapedAt(all, k + i, c);
      }
    }
  }

  lemma PrefixOpensNothing(s: Bytes, t: Bytes, i: nat)
    requires i <= |s| && forall j :: 0 <= j < |s| ==> s[j] != ESCAPE
    ensures !InEscape(s + t, i)
  {
    if i > 0 {
      assert (s + t)[i - 1] == s[i - 1];
    }
  }

  lemma NoiselessRoundTrip(payload: Bytes)
    ensures Unframe(Frame(false, payload)) == Some(payload) <==> Clean(payload, '#')
  {
    assert Clean([], '$');
    FrameRoundTrip([], payload);
    assert [] + Frame(false, payload) == Frame(false, payload);
  }

  lemma NotifyHeardIffClean(event: Bytes)
    ensures Hear(WireBytes(Notify(event))) == Some(Stop(event)) <==> Clean(event, '#')
  {
    var payload: Bytes := "Stop:" + event;
    var bytes := WireBytes(Notify(event));
    assert bytes[0] == '%' && "$" + bytes[1..] == Frame(false, payload);
    NoiselessRoundTrip(payload);
    PlainPrefix("Stop:", event, '#');
    assert payload[5..] == event;
    var heard := Unframe(Frame(false, payload));
    if heard.Some? && "Stop:" <= heard.value && heard.value[5..] == event {
      assert heard.value == "Stop:" + heard.value[5..];
    }
  }

  lemma PacketHeardIffClean(data: Bytes)
    ensures Hear(Frame(false, data)) == Some(Reply(data)) <==> Clean(data, '#')
  {
    assert Frame(false, data)[0] == '$';
    NoiselessRoundTrip(data);
  }

  lemma OkIsHeard()
    ensures Hear(WireBytes(OkPacket)) == Some(Reply("OK"))
  {
    var ok: Bytes := "OK";
    assert forall i :: 0 <= i < |ok| ==> ok[i] != ESCAPE && ok[i] != '#';
    assert Clean(ok, '#');
    PacketHeardIffClean(ok);
  }

  lemma MessageHeardIffClean(m: Message)
    ensures Hear(WireBytes(m)) == Some(Said(m)) <==> Clean(Load(m), '#')
  {
    match m {
      case Notify(event) => NotifyHeardIffClean(event);
      case EventPacket(event) => PacketHeardIffClean(event);
      case OkPacket => OkIsHeard();
      case Ack(ok) =>
      case Response(data) => PacketHeardIffClean(data);
    }
  }

  // ----- the events that a trace carries -----

  predicate Carries(t: seq<Message>, event: Bytes) {
    Notify(event) in t || EventPacket(event) in t
  }

  lemma {:induction false} PacketEventsAre(t: seq<Message>, event: Bytes)
    ensures event in PacketEvents(t) <==> EventPacket(event) in t
    decreases |t|
  {
    if t != [] {
      PacketEventsAre(t[..|t| - 1], event);
      SplitLast(t);
    }
  }

  lemma RoundCarries(r: Round, event: Bytes)
    requires r.WellFormed()
    ensures Carries(r.Open(), event) <==> event in r.Delivers()
  {
    PacketEventsAre(r.body, event);
  }

  lemma {:induction false} ClosedCarries(rounds: seq<Round>, event: Bytes)
    requires forall i :: 0 <= i < |rounds| ==> rounds[i].WellFormed()
    ensures Carries(Closed(rounds), event) <==> event in Delivered(rounds)
    decreases |rounds|
  {
    if rounds != [] {
      ClosedCarries(rounds[..|rounds| - 1], event);
      RoundCarries(rounds[|rounds| - 1], event);
    }
  }

  lemma TraceCarries(t: seq<Message>, rounds: seq<Round>, open: Option<Round>, event: Bytes)
    requires IsRounds(t, rounds, open)
    ensures Carries(t, event) <==> event in DeliveredSoFar(rounds, open)
  {
    ClosedCarries(rounds, event);
    if open.Some? {
      RoundCarries(open.value, event);
    }
  }

  lemma {:induction false} TraceIsProtocol(wire: seq<Message>)
    ensures forall m :: m in Trace(wire) ==> IsProtocol(m)
    decreases |wire|
  {
    if wire != [] {
      TraceIsProtocol(wire[..|wire| - 1]);
    }
  }

  /** The debugger understands every message of the protocol. */
  ghost predicate AllHeard(t: seq<Message>) {
    forall m :: m in t && IsProtocol(m) ==> Hear(WireBytes(m)) == Some(Said(m))
  }

  /**
   End to end: over every run the debugger, reading the bytes of each message, understands all of the
   protocol if and only if every event delivered is free of unescaped `#` and does not end in an
   escape; and what was delivered and what is queued is what was reported, in order.
   */
  lemma HeardIffClean(inputs: seq<Input>) returns (rounds: seq<Round>, open: Option<Round>)
    ensures Explains(Run(inputs), rounds, open)
    ensures ReportedEvents(inputs) == DeliveredSoFar(rounds, open) + EventsOf(Run(inputs).queue)
    ensures forall m :: m in Trace(Run(inputs).wire) ==> IsProtocol(m)
    ensures AllHeard(Trace(Run(inputs).wire)) <==> forall e :: e in DeliveredSoFar(rounds, open) ==> Clean(e, '#')
  {
    rounds, open := EveryRunIsRounds(inputs);
    var t := Trace(Run(inputs).wire);
    TraceIsProtocol(Run(inputs).wire);
    HeardWhenClean(t, rounds, open);
    CleanWhenHeard(t, rounds, open);
  }

  ghost predicate IsStopReply(event: Bytes) {
    exists r: StopReply.Reply :: StopReply.FromSetters(r) && event == r.Payload()
  }

  /** Stop replies are such events: a run that reports nothing else is understood entirely. */
  lemma StopRepliesHeard(inputs: seq<Input>)
    requires forall e :: e in ReportedEvents(inputs) ==> IsStopReply(e)
    ensures AllHeard(Trace(Run(inputs).wire))
  {
    var rounds, open := HeardIffClean(inputs);
    forall e | e in DeliveredSoFar(rounds, open)
      ensures Clean(e, '#')
    {
      assert e in ReportedEvents(inputs);
      var r: StopReply.Reply :| StopReply.FromSetters(r) && e == r.Payload();
      StopReply.PayloadIsClean(r);
    }
  }

  lemma HeardWhenClean(t: seq<Message>, rounds: seq<Round>, open: Option<Round>)
    requires IsRounds(t, rounds, open)
    ensures (forall e :: e in DeliveredSoFar(rounds, open) ==> Clean(e, '#')) ==> AllHeard(t)
  {
    if forall e :: e in DeliveredSoFar(rounds, open) ==> Clean(e, '#') {
      forall m | m in t && IsProtocol(m)
        ensures Hear(WireBytes(m)) == Some(Said(m))
      {
        MessageHeardIffClean(m);
        if !m.OkPacket? {
          TraceCarries(t, rounds, open, m.event);
        }
      }
    }
  }

  lemma CleanWhenHeard(t: seq<Message>, rounds: seq<Round>, open: Option<Round>)
    requires IsRounds(t, rounds, open)
    ensures AllHeard(t) ==> forall e :: e in DeliveredSoFar(rounds, open) ==> Clean(e, '#')
  {
    if AllHeard(t) {
      forall e | e in DeliveredSoFar(rounds, open)
        ensures Clean(e, '#')
      {
        TraceCarries(t, rounds, open, e);
        MessageHeardIffClean(Notify(e));
        MessageHeardIffClean(EventPacket(e));
      }
    }
  }
}
