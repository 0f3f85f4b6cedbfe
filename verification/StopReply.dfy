/** Stop-reply packets, the events that the server reports to the debugger. */
module StopReply {
  import opened Common
  import opened Hex
  import opened Text
  import opened ThreadIds
  import opened Packet

  datatype Kind = ReceivedSignal | ProcessExited | ProcessTerminatedWithSignal | ThreadExited

  /** The fields of a StopReplyPacket. */
  datatype Reply = Reply(kind: Kind, signo: uint8, tidString: Bytes, registerValues: seq<Bytes>, stopReason: Bytes) {
    predicate HasParameters() {
      tidString != [] || registerValues != [] || stopReason != []
    }

    /** What the setters keep: only signals carry registers and reasons, only two kinds carry a thread. */
    predicate WellKinded() {
      && (tidString != [] ==> kind.ReceivedSignal? || kind.ThreadExited?)
      && (registerValues != [] || stopReason != [] ==> kind.ReceivedSignal?)
    }

    function TypeChar(): (c: Byte) {
      match kind
      case ReceivedSignal => if HasParameters() then 'T' else 'S'
      case ProcessTerminatedWithSignal => 'X'
      case ProcessExited => 'W'
      case ThreadExited => 'w'
    }

    function Head(): (s: Bytes)
      ensures |s| == 3
    {
      [TypeChar()] + EncodeByteString(if stopReason == [] then signo else 5)
    }

    /** The parameters of the packet in order, each of which Build ends with `;`. */
    function Parameters(): (pieces: seq<Bytes>) {
      registerValues
      + (if tidString != [] && kind.ReceivedSignal? then ["thread:" + tidString] else [])
      + (if stopReason != [] then [stopReason] else [])
    }

    /** The payload, as the protocol describes it. */
    function Payload(): (s: Bytes) {
      Head() + if tidString != [] && kind.ThreadExited? then ";" + tidString else Terminated(Parameters(), ';')
    }
  }

  lemma {:induction false} TerminatedAppend(pieces: seq<Bytes>, more: seq<Bytes>, c: Byte)
    ensures Terminated(pieces + more, c) == Terminated(pieces, c) + Terminated(more, c)
  {
    if pieces == [] {
      assert pieces + more == more;
    } else {
      assert (pieces + more)[1..] == pieces[1..] + more;
      TerminatedAppend(pieces[1..], more, c);
    }
  }

  /** Appending a piece and `;` to the text of some pieces gives the text of one more piece. */
  lemma AppendPiece(head: Bytes, pieces: seq<Bytes>, piece: Bytes)
    ensures head + Terminated(pieces, ';') + piece + ";" == head + Terminated(pieces + [piece], ';')
  {
    TerminatedAppend(pieces, [piece], ';');
    assert [piece][1..] == [];
    assert Terminated([piece], ';') == piece + ";";
  }

  /** Text with none of the characters the packet layer treats specially. */
  predicate Plain(s: Bytes) {
    Lacks(s, '#') && Lacks(s, '$') && Lacks(s, ESCAPE)
  }

  /** A register value as AddRegisterValue stores it: two hexadecimal digits, `:`, hexadecimal digits. */
  predicate HexRegister(s: Bytes) {
    |s| >= 3 && IsHex(s[..2]) && s[2] == ':' && IsHex(s[3..])
  }

  /** A reply filled in through the setters: an encoded thread id, hexadecimal registers, a plain reason. */
  ghost predicate FromSetters(r: Reply) {
    && r.WellKinded()
    && (r.tidString != [] ==> exists pid, tid :: r.tidString == EncodeThreadId(pid, tid))
    && (forall i :: 0 <= i < |r.registerValues| ==> HexRegister(r.registerValues[i]))
    && Plain(r.stopReason) && Lacks(r.stopReason, ';')
  }

  lemma RegisterIsHexIff(registerNumber: uint8, value: Bytes)
    ensures HexRegister(EncodeByteString(registerNumber) + ":" + value) <==> IsHex(value)
  {
    ByteStringRoundTrip(registerNumber);
    var s := EncodeByteString(registerNumber) + ":" + value;
    assert s[..2] == EncodeByteString(registerNumber) && s[3..] == value;
  }

  lemma LacksAppend(s: Bytes, d: Byte, c: Byte)
    requires c != d
    ensures Lacks(s + [d], c) <==> Lacks(s, c)
  {
    assert forall i :: 0 <= i < |s| ==> (s + [d])[i] == s[i];
  }

  lemma ReasonIsPlainIff(reason: Bytes)
    ensures Plain(reason + ":") && Lacks(reason + ":", ';') <==> Plain(reason) && Lacks(reason, ';')
  {
    LacksAppend(reason, ':', '#');
    LacksAppend(reason, ':', '$');
    LacksAppend(reason, ':', ESCAPE);
    LacksAppend(reason, ':', ';');
  }

  class StopReplyPacket {
    var kind: Kind
    var signo: uint8
    var tidString: Bytes
    var registerValues: seq<Bytes>
    var stopReason: Bytes

    function Fields(): (r: Reply)
      reads this
    {
      Reply(kind, signo, tidString, registerValues, stopReason)
    }

    constructor (kind: Kind)
      ensures Fields() == Reply(kind, 0, [], [], []) && FromSetters(Fields())
    {
      this.kind := kind;
      signo, tidString, registerValues, stopReason := 0, [], [], [];
    }

    method SetSignalNumber(signalNumber: uint8)
      requires Fields().WellKinded()
      modifies this
      ensures Fields().WellKinded()
      ensures Fields() == old(Fields()).(signo := signalNumber)
      ensures old(FromSetters(Fields())) ==> FromSetters(Fields())
    {
      signo := signalNumber;
    }

    method SetThreadId(processId: uint64, threadId: uint64)
      requires Fields().WellKinded()
      requires kind.ReceivedSignal? || kind.ThreadExited?
      modifies this
      ensures Fields().WellKinded()
      ensures Fields() == old(Fields()).(tidString := EncodeThreadId(processId, threadId))
      ensures old(FromSetters(Fields())) ==> FromSetters(Fields())
    {
      tidString := EncodeThreadId(processId, threadId);
    }

    method AddRegisterValue(registerNumber: uint8, value: Bytes)
      requires Fields().WellKinded()
      requires kind.ReceivedSignal? && value != []
      modifies this
      ensures Fields().WellKinded()
      ensures Fields() == old(Fields()).(registerValues :=
                                         old(registerValues) + [EncodeByteString(registerNumber) + ":" + value])
      ensures old(FromSetters(Fields())) ==> (FromSetters(Fields()) <==> IsHex(value))
    {
      RegisterIsHexIff(registerNumber, value);
      ghost var n := |registerValues|;
      registerValues := registerValues + [EncodeByteString(registerNumber) + ":" + value];
      assert FromSetters(Fields()) ==> HexRegister(registerValues[n]);
    }

    method SetStopReason(reason: Bytes)
      requires Fields().WellKinded()
      requires kind.ReceivedSignal?
      modifies this
      ensures Fields().WellKinded()
      ensures Fields() == old(Fields()).(stopReason := reason + ":")
      ensures old(FromSetters(Fields())) ==> (FromSetters(Fields()) <==> Plain(reason) && Lacks(reason, ';'))
    {
      ReasonIsPlainIff(reason);
      stopReason := reason + ":";
    }

    /** The loop over the register values. */
    method AppendRegisters(head: Bytes) returns (packet: Bytes)
      ensures packet == head + Terminated(registerValues, ';')
    {
      packet := head;
      for i := 0 to |registerValues|
        invariant packet == head + Terminated(registerValues[..i], ';')
      {
        AppendPiece(head, registerValues[..i], registerValues[i]);
        TakeOneMore(registerValues, i);
        packet := packet + registerValues[i];
        packet := packet + ";";
      }
      assert registerValues[..|registerValues|] == registerValues;
    }

    method AppendParameter(packet: Bytes, piece: Bytes, ghost head: Bytes, ghost pieces: seq<Bytes>)
      returns (packet': Bytes)
      requires packet == head + Terminated(pieces, ';')
      ensures packet' == head + Terminated(pieces + [piece], ';')
    {
      AppendPiece(head, pieces, piece);
      packet' := packet + piece;
      packet' := packet' + ";";
    }

    method Build() returns (packet: Bytes)
      requires Fields().WellKinded()
      requires kind.ReceivedSignal? ==> signo != 0
      ensures packet == Fields().Payload()
    {
      packet := [Fields().TypeChar()];
      packet := packet + EncodeByteString(if stopReason == [] then signo else 5);
      ghost var head := packet;
      packet := AppendRegisters(packet);
      ghost var pieces := registerValues;
      if tidString != [] {
        if kind.ThreadExited? {
          packet := packet + ";";
          packet := packet + tidString;
        } else {
          packet := AppendParameter(packet, "thread:" + tidString, head, pieces);
          pieces := pieces + ["thread:" + tidString];
        }
      }
      if stopReason != [] {
        packet := AppendParameter(packet, stopReason, head, pieces);
        pieces := pieces + [stopReason];
      }
      assert pieces == Fields().Parameters();
    }
  }

  // ----- every stop reply survives the packet layer -----

  lemma {:induction false} PlainIsClean(s: Bytes, i: nat)
    requires Lacks(s, ESCAPE) && i <= |s|
    ensures !InEscape(s, i)
  {
  }

  lemma HexIsPlain(s: Bytes)
    requires IsHex(s)
    ensures Plain(s) && Lacks(s, ';')
  {
    forall i | 0 <= i < |s|
      ensures s[i] != '#' && s[i] != '$' && s[i] != ESCAPE && s[i] != ';'
    {
      assert HexCharToByte(s[i]).Some?;
    }
  }

  lemma ThreadIdIsPlain(pid: uint64, tid: uint64)
    ensures Plain(EncodeThreadId(pid, tid)) && Lacks(EncodeThreadId(pid, tid), ';')
  {
    HexDigitsDenote(pid);
    HexDigitsDenote(tid);
    HexIsPlain(HexDigits(pid));
    HexIsPlain(HexDigits(tid));
  }

  lemma RegisterIsPlain(s: Bytes)
    requires HexRegister(s)
    ensures Plain(s) && Lacks(s, ';')
  {
    HexIsPlain(s[..2]);
    HexIsPlain(s[3..]);
    assert s == s[..2] + [s[2]] + s[3..];
  }

  lemma ParametersArePlain(r: Reply, i: nat)
    requires FromSetters(r) && i < |r.Parameters()|
    ensures Plain(r.Parameters()[i]) && Lacks(r.Parameters()[i], ';')
  {
    var piece := r.Parameters()[i];
    if i < |r.registerValues| {
      RegisterIsPlain(piece);
    } else if r.tidString != [] && r.kind.ReceivedSignal? && i == |r.registerValues| {
      var pid, tid :| r.tidString == EncodeThreadId(pid, tid);
      ThreadIdIsPlain(pid, tid);
    }
  }

  lemma {:induction false} TerminatedIsPlain(pieces: seq<Bytes>)
    requires forall i :: 0 <= i < |pieces| ==> Plain(pieces[i])
    ensures Plain(Terminated(pieces, ';'))
  {
    if pieces != [] {
      TerminatedIsPlain(pieces[1..]);
    }
  }

  lemma PayloadIsPlain(r: Reply)
    requires FromSetters(r)
    ensures Plain(r.Payload())
  {
    ByteStringRoundTrip(if r.stopReason == [] then r.signo else 5);
    HexIsPlain(EncodeByteString(if r.stopReason == [] then r.signo else 5));
    if r.tidString != [] && r.kind.ThreadExited? {
      var pid, tid :| r.tidString == EncodeThreadId(pid, tid);
      ThreadIdIsPlain(pid, tid);
    } else {
      forall i | 0 <= i < |r.Parameters()| ensures Plain(r.Parameters()[i]) { ParametersArePlain(r, i); }
      TerminatedIsPlain(r.Parameters());
    }
  }

  lemma PayloadIsClean(r: Reply)
    requires FromSetters(r)
    ensures Clean(r.Payload(), '#')
  {
    PayloadIsPlain(r);
    PlainIsClean(r.Payload(), |r.Payload()|);
  }

  /** Every stop reply is delivered: framed, it verifies to the same payload after any noise. */
  lemma StopReplyRoundTrip(r: Reply, noise: Bytes)
    requires FromSetters(r) && Clean(noise, '$')
    ensures Unframe(noise + Frame(false, r.Payload())) == Some(r.Payload())
  {
    PayloadIsClean(r);
    FrameRoundTrip(noise, r.Payload());
  }

  /** The receiver recovers the parameters, in order, by splitting at `;`. */
  lemma StopReplyParametersRecovered(r: Reply)
    requires FromSetters(r) && r.kind.ReceivedSignal?
    ensures r.Payload()[..3] == r.Head()
    ensures Split(r.Payload()[3..], ';') == r.Parameters()
  {
    forall i | 0 <= i < |r.Parameters()| ensures Lacks(r.Parameters()[i], ';') { ParametersArePlain(r, i); }
    assert r.Payload()[3..] == Terminated(r.Parameters(), ';');
    SplitTerminated(r.Parameters(), ';');
  }

  /** The letter and the two digits after it tell the kind of the reply and its signal. */
  lemma StopReplyHeadMeans(r: Reply)
    ensures var s := r.Payload();
            && |s| >= 3
            && (s[0] == 'W' <==> r.kind.ProcessExited?)
            && (s[0] == 'X' <==> r.kind.ProcessTerminatedWithSignal?)
            && (s[0] == 'w' <==> r.kind.ThreadExited?)
            && (s[0] == 'S' <==> r.kind.ReceivedSignal? && r.Parameters() == [])
            && (s[0] == 'T' <==> r.kind.ReceivedSignal? && r.Parameters() != [])
            && DecodeByteString(s[1..3]) == Some(if r.stopReason == [] then r.signo else 5)
  {
    var signo := if r.stopReason == [] then r.signo else 5;
    ByteStringRoundTrip(signo);
    assert r.Payload()[1..3] == EncodeByteString(signo);
  }

  /**
   The parameters of a signal are the registers in the order they were added, then the thread, if it
   was set, which is read back as the ids it was set to when they fit, then the reason, if it was set.
   */
  lemma StopReplyParametersMean(r: Reply, pid: uint64, tid: uint64, unset: uint64)
    requires FromSetters(r) && r.kind.ReceivedSignal? && r.tidString == EncodeThreadId(pid, tid)
    ensures var pieces := Split(r.Payload()[3..], ';');
            var n := |r.registerValues|;
            && |pieces| == n + 1 + (if r.stopReason == [] then 0 else 1)
            && pieces[..n] == r.registerValues
            && "thread:" <= pieces[n]
            && ThreadIdOf(pieces[n][7..], unset) ==
               (if pid < TWO_63 && tid < TWO_63 then Some(ProcessThread(pid, tid)) else None)
            && (r.stopReason != [] ==> pieces[n + 1] == r.stopReason)
  {
    StopReplyParametersRecovered(r);
    ParseInvertsEncode(pid, tid, unset);
    assert ("thread:" + r.tidString)[7..] == r.tidString;
  }

  /** The exit of a thread names it after the `;`. */
  lemma ThreadExitMeans(r: Reply, pid: uint64, tid: uint64, unset: uint64)
    requires r.kind.ThreadExited? && r.tidString == EncodeThreadId(pid, tid)
    ensures var s := r.Payload();
            && |s| >= 4 && s[3] == ';'
            && ThreadIdOf(s[4..], unset) ==
               if pid < TWO_63 && tid < TWO_63 then Some(ProcessThread(pid, tid)) else None
  {
    ParseInvertsEncode(pid, tid, unset);
    assert r.Payload()[4..] == r.tidString;
  }
}
