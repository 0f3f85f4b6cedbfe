/**
 The packet layer of the GDB remote protocol: escape-aware search, verification of an incoming
 buffer, and framing of an outgoing one.
 */
module Packet {
  import opened Common
  import opened Hex

  const ESCAPE: Byte := '}'
  const MAX_BUFFER_SIZE: nat := 4096

  /** Whether position i of s is the second half of an escape sequence. */
  predicate InEscape(s: Bytes, i: nat)
    requires i <= |s|
  {
    i > 0 && s[i - 1] == ESCAPE && !InEscape(s, i - 1)
  }

  /** Whether s holds c at position i outside every escape sequence. */
  predicate UnescapedAt(s: Bytes, i: nat, c: Byte)
    requires i < |s|
  {
    s[i] == c && s[i] != ESCAPE && !InEscape(s, i)
  }

  /** s has no unescaped c and does not end in the middle of an escape sequence. */
  ghost predicate Clean(s: Bytes, c: Byte) {
    && !InEscape(s, |s|)
    && forall i :: 0 <= i < |s| ==> !UnescapedAt(s, i, c)
  }

  lemma {:induction false} InEscapeOfPrefix(s: Bytes, t: Bytes, i: nat)
    requires i <= |s| && i <= |t| && s[..i] == t[..i]
    ensures InEscape(s, i) == InEscape(t, i)
  {
    if i > 0 {
      assert s[i - 1] == s[..i][i - 1] == t[..i][i - 1] == t[i - 1];
      assert s[..i - 1] == s[..i][..i - 1] == t[..i][..i - 1] == t[..i - 1];
      InEscapeOfPrefix(s, t, i - 1);
    }
  }

  /** Scanning from just after a position where no escape is open gives the same answer as from the start. */
  lemma {:induction false} InEscapeOfSuffix(s: Bytes, k: nat, i: nat)
    requires k + i <= |s| && !InEscape(s, k)
    ensures InEscape(s, k + i) == InEscape(s[k..], i)
  {
    if i > 0 {
      InEscapeOfSuffix(s, k, i - 1);
    }
  }

  method FindUnescapedChar(val: Byte, packet: Bytes) returns (r: Option<nat>)
    ensures r.None? ==> forall i :: 0 <= i < |packet| ==> !UnescapedAt(packet, i, val)
    ensures r.Some? ==> r.value < |packet| && UnescapedAt(packet, r.value, val)
    ensures r.Some? ==> forall i :: 0 <= i < r.value ==> !UnescapedAt(packet, i, val)
  {
    var inEscape := false;
    for i := 0 to |packet|
      invariant inEscape == InEscape(packet, i)
      invariant forall j :: 0 <= j < i ==> !UnescapedAt(packet, j, val)
    {
      if inEscape {
        inEscape := false;
        continue;
      }
      if packet[i] == ESCAPE {
        inEscape := true;
        continue;
      }
      if packet[i] == val {
        return Some(i);
      }
    }
    return None;
  }

  /** The sum of the bytes, as an unbounded number. */
  function ByteSum(s: Bytes): (n: nat) {
    if s == [] then 0 else ByteSum(s[..|s| - 1]) + s[|s| - 1] as int
  }

  method Checksum(data: Bytes) returns (checksum: uint8)
    ensures checksum == ByteSum(data) % 256
  {
    checksum := 0;
    for i := 0 to |data|
      invariant checksum == ByteSum(data[..i]) % 256
    {
      assert data[..i + 1][..i] == data[..i];
      checksum := (checksum + data[i] as int) % 256;
    }
    assert data[..|data|] == data;
  }

  /**
   The shape of an acceptable buffer: noise, `$`, payload, `#`, two hexadecimal digits. The noise has
   no unescaped `$`, the payload no unescaped `#`, neither ends inside an escape sequence, and the
   digits denote the sum of the payload bytes modulo 256.
   */
  ghost predicate IsFrame(buffer: Bytes, noise: Bytes, payload: Bytes, digits: Bytes) {
    && buffer == noise + "$" + payload + "#" + digits
    && |digits| == 2
    && Clean(noise, '$')
    && Clean(payload, '#')
    && DecodeByteString(digits) == Some(ByteSum(payload) % 256)
  }

  /** The first unescaped c of s + [c] + t is the one in the middle, when s is clean. */
  lemma FirstUnescaped(s: Bytes, c: Byte, t: Bytes, i: nat)
    requires Clean(s, c) && c != ESCAPE
    requires i < |s + [c] + t|
    requires UnescapedAt(s + [c] + t, i, c)
    requires forall j :: 0 <= j < i ==> !UnescapedAt(s + [c] + t, j, c)
    ensures i == |s|
  {
    var whole := s + [c] + t;
    InEscapeOfPrefix(whole, s, |s|);
    assert UnescapedAt(whole, |s|, c);
    if i < |s| {
      assert whole[..i] == s[..i];
      InEscapeOfPrefix(whole, s, i);
      assert UnescapedAt(s, i, c);
    }
  }

  /** A prefix up to the first unescaped c is clean. */
  lemma PrefixIsClean(s: Bytes, c: Byte, i: nat)
    requires i < |s| && UnescapedAt(s, i, c)
    requires forall j :: 0 <= j < i ==> !UnescapedAt(s, j, c)
    ensures Clean(s[..i], c)
  {
    InEscapeOfPrefix(s, s[..i], i);
    forall j | 0 <= j < i
      ensures !UnescapedAt(s[..i], j, c)
    {
      assert s[..i][..j] == s[..j];
      InEscapeOfPrefix(s, s[..i], j);
      assert !UnescapedAt(s, j, c);
    }
  }

  /** The positions of `$` and `#` in an acceptable buffer are forced. */
  lemma FramePositions(buffer: Bytes, noise: Bytes, payload: Bytes, digits: Bytes)
    requires IsFrame(buffer, noise, payload, digits)
    ensures |noise| < |buffer| && UnescapedAt(buffer, |noise|, '$')
    ensures forall j :: 0 <= j < |noise| ==> !UnescapedAt(buffer, j, '$')
    ensures var rest := buffer[|noise|..];
            && rest == "$" + payload + "#" + digits
            && UnescapedAt(rest, 1 + |payload|, '#')
            && forall j :: 0 <= j < 1 + |payload| ==> !UnescapedAt(rest, j, '#')
  {
    forall j | 0 <= j <= |noise|
      ensures buffer[..j] == noise[..j] && InEscape(buffer, j) == InEscape(noise, j)
    {
      InEscapeOfPrefix(buffer, noise, j);
    }
    forall j | 0 <= j < |noise|
      ensures !UnescapedAt(buffer, j, '$')
    {
      assert !UnescapedAt(noise, j, '$');
    }
    var rest := buffer[|noise|..];
    assert rest == "$" + payload + "#" + digits;
    BodyPositions(payload, digits);
  }

  lemma BodyPositions(payload: Bytes, digits: Bytes)
    requires Clean(payload, '#')
    ensures var rest: Bytes := "$" + payload + "#" + digits;
            && UnescapedAt(rest, 1 + |payload|, '#')
            && forall j :: 0 <= j < 1 + |payload| ==> !UnescapedAt(rest, j, '#')
  {
    var rest: Bytes := "$" + payload + "#" + digits;
    forall j | 0 <= j <= |payload|
      ensures InEscape(rest, 1 + j) == InEscape(payload, j)
    {
      InEscapeOfSuffix(rest, 1, j);
      assert rest[1..][..j] == payload[..j];
      InEscapeOfPrefix(rest[1..], payload, j);
    }
    forall j | 0 <= j < 1 + |payload|
      ensures !UnescapedAt(rest, j, '#')
    {
      if j > 0 {
        assert rest[j] == payload[j - 1];
        assert !UnescapedAt(payload, j - 1, '#');
        assert InEscape(rest, 1 + (j - 1)) == InEscape(payload, j - 1);
      }
    }
  }

  lemma FrameIsUnique(buffer: Bytes, n1: Bytes, p1: Bytes, d1: Bytes, n2: Bytes, p2: Bytes, d2: Bytes)
    requires IsFrame(buffer, n1, p1, d1) && IsFrame(buffer, n2, p2, d2)
    ensures n1 == n2 && p1 == p2 && d1 == d2
  {
    FramePositions(buffer, n1, p1, d1);
    FramePositions(buffer, n2, p2, d2);
    assert |n1| == |n2|;
    assert n1 == buffer[..|n1|] == n2;
    var rest := buffer[|n1|..];
    assert |p1| == |p2|;
    assert p1 == rest[1..1 + |p1|] == p2;
    assert d1 == rest[2 + |p1|..] == d2;
  }

  /** The payload of an acceptable buffer, if it is one. */
  ghost function Unframe(buffer: Bytes): (r: Option<Bytes>)
    ensures forall noise, payload, digits :: IsFrame(buffer, noise, payload, digits) ==> r == Some(payload)
    ensures r.Some? ==> exists noise, digits :: IsFrame(buffer, noise, r.value, digits)
  {
    if exists noise, payload, digits :: IsFrame(buffer, noise, payload, digits) then
      var noise, payload, digits :| IsFrame(buffer, noise, payload, digits);
      assert forall n, p, d :: IsFrame(buffer, n, p, d) ==> p == payload by {
        forall n, p, d | IsFrame(buffer, n, p, d) ensures p == payload {
          FrameIsUnique(buffer, noise, payload, digits, n, p, d);
        }
      }
      Some(payload)
    else None
  }

  /** Accepts a buffer exactly when it has the shape of IsFrame, and then yields its payload. */
  method VerifyPacket(buffer: Bytes) returns (r: Option<Bytes>)
    ensures r == Unframe(buffer)
  {
    if |buffer| == 0 {
      return None;
    }
    var dollar := FindUnescapedChar('$', buffer);
    if dollar.None? {
      NoFrameWithoutDollar(buffer);
      return None;
    }
    var packet := buffer[dollar.value..];
    if |packet| < 4 {
      NoFrameWithoutPound(buffer, dollar.value);
      return None;
    }
    var pound := FindUnescapedChar('#', packet);
    if pound.None? {
      NoFrameWithoutPound(buffer, dollar.value);
      return None;
    }
    Verdict(buffer, dollar.value, pound.value);
    var data := packet[1..pound.value];
    if |packet| - |data| != 4 {
      return None;
    }
    var digits := packet[pound.value + 1..pound.value + 3];
    assert digits == packet[pound.value + 1..];
    var received := DecodeByteString(digits);
    if received.None? {
      return None;
    }
    var local := Checksum(data);
    if local != received.value {
      return None;
    }
    return Some(data);
  }

  /** The converse of FramePositions: the two searches deliver a frame. */
  lemma AcceptedShape(buffer: Bytes, dollar: nat, pound: nat)
    requires dollar < |buffer| && UnescapedAt(buffer, dollar, '$')
    requires forall j :: 0 <= j < dollar ==> !UnescapedAt(buffer, j, '$')
    requires pound + dollar + 3 == |buffer|
    requires UnescapedAt(buffer[dollar..], pound, '#')
    requires forall j :: 0 <= j < pound ==> !UnescapedAt(buffer[dollar..], j, '#')
    requires 0 < pound
    requires var packet := buffer[dollar..];
             DecodeByteString(packet[pound + 1..]) == Some(ByteSum(packet[1..pound]) % 256)
    ensures var packet := buffer[dollar..];
            IsFrame(buffer, buffer[..dollar], packet[1..pound], packet[pound + 1..])
  {
    var packet := buffer[dollar..];
    PrefixIsClean(buffer, '$', dollar);
    var inner := packet[1..];
    forall j | 0 <= j < pound
      ensures InEscape(inner, j) == InEscape(packet, 1 + j)
    {
      InEscapeOfSuffix(packet, 1, j);
    }
    assert UnescapedAt(inner, pound - 1, '#');
    forall j | 0 <= j < pound - 1
      ensures !UnescapedAt(inner, j, '#')
    {
      assert !UnescapedAt(packet, 1 + j, '#');
    }
    PrefixIsClean(inner, '#', pound - 1);
    assert inner[..pound - 1] == packet[1..pound];
    assert buffer == buffer[..dollar] + "$" + packet[1..pound] + "#" + packet[pound + 1..];
  }

  /** i is the first position of an unescaped c. */
  ghost predicate FirstAt(s: Bytes, i: nat, c: Byte) {
    i < |s| && UnescapedAt(s, i, c) && forall j :: 0 <= j < i ==> !UnescapedAt(s, j, c)
  }

  lemma NoFrameWithoutDollar(buffer: Bytes)
    requires forall j :: 0 <= j < |buffer| ==> !UnescapedAt(buffer, j, '$')
    ensures Unframe(buffer) == None
  {
    if n, p, d :| IsFrame(buffer, n, p, d) {
      FramePositions(buffer, n, p, d);
    }
  }

  lemma NoFrameWithoutPound(buffer: Bytes, dollar: nat)
    requires FirstAt(buffer, dollar, '$')
    requires var packet := buffer[dollar..];
             |packet| < 4 || forall j :: 0 <= j < |packet| ==> !UnescapedAt(packet, j, '#')
    ensures Unframe(buffer) == None
  {
    if n, p, d :| IsFrame(buffer, n, p, d) {
      FramePositions(buffer, n, p, d);
    }
  }

  /** The two searches leave no choice of the parts of a frame. */
  lemma FrameParts(buffer: Bytes, dollar: nat, pound: nat)
    requires FirstAt(buffer, dollar, '$') && FirstAt(buffer[dollar..], pound, '#')
    ensures forall n, p, d :: IsFrame(buffer, n, p, d) ==>
              && pound == 1 + |p| && |d| == 2
              && p == buffer[dollar..][1..pound] && d == buffer[dollar..][pound + 1..]
  {
    forall n, p, d | IsFrame(buffer, n, p, d)
      ensures pound == 1 + |p| && p == buffer[dollar..][1..pound] && d == buffer[dollar..][pound + 1..]
    {
      FramePositions(buffer, n, p, d);
      assert |n| == dollar;
      assert FirstAt(buffer[dollar..], 1 + |p|, '#');
    }
  }

  /** What is left to decide once the two searches have succeeded. */
  lemma Verdict(buffer: Bytes, dollar: nat, pound: nat)
    requires FirstAt(buffer, dollar, '$') && FirstAt(buffer[dollar..], pound, '#')
    ensures var packet := buffer[dollar..];
            pound > 0 && Unframe(buffer) ==
            if |packet| == pound + 3 && DecodeByteString(packet[pound + 1..]) == Some(ByteSum(packet[1..pound]) % 256)
            then Some(packet[1..pound]) else None
  {
    var packet := buffer[dollar..];
    assert packet[0] == '$' && packet[pound] == '#';
    FrameParts(buffer, dollar, pound);
    if |packet| == pound + 3 && DecodeByteString(packet[pound + 1..]) == Some(ByteSum(packet[1..pound]) % 256) {
      AcceptedShape(buffer, dollar, pound);
    }
  }

  // ----- framing -----

  /** The bytes put on the wire for a payload: `%` starts a notification, `$` a packet. */
  function Frame(notify: bool, data: Bytes): (frame: Bytes) {
    [if notify then '%' else '$'] + data + "#" + EncodeByteString(ByteSum(data) % 256)
  }

  /** memcpy of data to position `at` of the buffer. */
  method CopyInto(outBuffer: array<Byte>, at: nat, data: Bytes)
    requires at + |data| <= outBuffer.Length
    modifies outBuffer
    ensures outBuffer[..] == old(outBuffer[..at]) + data + old(outBuffer[at + |data|..])
  {
    ghost var before := outBuffer[..];
    for i := 0 to |data|
      invariant outBuffer[..] == before[..at] + data[..i] + before[at + i..]
    {
      outBuffer[at + i] := data[i];
    }
  }

  /** PostWriteTask fills the fixed output buffer in place and sends its first `index` bytes. */
  method WriteFrame(notify: bool, data: Bytes, outBuffer: array<Byte>) returns (index: nat)
    requires outBuffer.Length == MAX_BUFFER_SIZE
    requires |data| + 4 < MAX_BUFFER_SIZE
    modifies outBuffer
    ensures index == |Frame(notify, data)|
    ensures outBuffer[..] == Frame(notify, data) + old(outBuffer[index..])
  {
    ghost var before := outBuffer[..];
    ghost var head: Bytes := [if notify then '%' else '$'];
    index := 0;
    outBuffer[index] := if notify then '%' else '$';
    index := index + 1;
    assert outBuffer[..] == head + before[1..];
    CopyInto(outBuffer, index, data);
    index := index + |data|;
    assert outBuffer[..] == head + data + before[index..];
    outBuffer[index] := '#';
    index := index + 1;
    assert outBuffer[..] == head + data + "#" + before[index..];
    var checksum := Checksum(data);
    CopyInto(outBuffer, index, EncodeByteString(checksum));
    index := index + 2;
  }

  /** Framing then verifying gives the payload back, after any noise, exactly when the payload is clean. */
  lemma FrameRoundTrip(noise: Bytes, payload: Bytes)
    requires Clean(noise, '$')
    ensures Unframe(noise + Frame(false, payload)) == Some(payload) <==> Clean(payload, '#')
  {
    var digits := EncodeByteString(ByteSum(payload) % 256);
    var buffer := noise + Frame(false, payload);
    assert buffer == noise + "$" + payload + "#" + digits;
    ByteStringRoundTrip(ByteSum(payload) % 256);
    if Clean(payload, '#') {
      assert IsFrame(buffer, noise, payload, digits);
    }
  }

  lemma {:induction false} ByteSumUpdate(s: Bytes, k: nat, b: Byte)
    requires k < |s|
    ensures ByteSum(s[k := b]) == ByteSum(s) - s[k] as int + b as int
  {
    var t := s[k := b];
    if k == |s| - 1 {
      assert t[..k] == s[..k];
    } else {
      assert t[..|s| - 1] == s[..|s| - 1][k := b];
      ByteSumUpdate(s[..|s| - 1], k, b);
    }
  }

  /**
   Altering one payload byte of an acceptable buffer always makes it unacceptable: either the `#` the
   search stops at moves, or the checksum no longer matches.
   */
  lemma CorruptedPayloadIsRejected(buffer: Bytes, noise: Bytes, payload: Bytes, digits: Bytes, k: nat, b: Byte)
    requires IsFrame(buffer, noise, payload, digits)
    requires k < |payload| && b != payload[k]
    ensures Unframe(buffer[|noise| + 1 + k := b]) == None
  {
    var altered := buffer[|noise| + 1 + k := b];
    var payload' := payload[k := b];
    assert altered == noise + "$" + payload' + "#" + digits;
    if n, p, d :| IsFrame(altered, n, p, d) {
      AlteredParts(altered, noise, payload', digits, n, p, d);
      ByteSumUpdate(payload, k, b);
      DistinctResidues(ByteSum(payload), payload[k] as int, b as int);
    }
  }

  /** Whatever frame a buffer of known layout holds, after clean noise, has the same parts. */
  lemma AlteredParts(buffer: Bytes, noise: Bytes, payload: Bytes, digits: Bytes, n: Bytes, p: Bytes, d: Bytes)
    requires Clean(noise, '$') && |digits| == 2 && buffer == noise + "$" + payload + "#" + digits
    requires IsFrame(buffer, n, p, d)
    ensures p == payload && d == digits
  {
    FramePositions(buffer, n, p, d);
    NoiseIsForced(buffer, noise, payload + "#" + digits, |n|);
    var rest := buffer[|noise|..];
    assert rest == "$" + payload + "#" + digits;
    assert p == rest[1..1 + |p|] && payload == rest[1..1 + |payload|];
    assert d == rest[2 + |p|..] && digits == rest[2 + |payload|..];
  }

  lemma NoiseIsForced(buffer: Bytes, noise: Bytes, tail: Bytes, i: nat)
    requires Clean(noise, '$') && buffer == noise + "$" + tail
    requires i < |buffer| && UnescapedAt(buffer, i, '$')
    requires forall j :: 0 <= j < i ==> !UnescapedAt(buffer, j, '$')
    ensures i == |noise|
  {
    assert buffer == noise + ['$'] + tail;
    FirstUnescaped(noise, '$', tail, i);
  }

  lemma DistinctResidues(sum: int, x: int, y: int)
    requires 0 <= x < 256 && 0 <= y < 256 && x != y
    ensures (sum - x + y) % 256 != sum % 256
  {
  }
}
