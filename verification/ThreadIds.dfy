/** Thread ids of the remote protocol: `tid`, or `p<pid>.<tid>`, in base 16 with -1 for "all". */
module ThreadIds {
  import opened Common
  import opened Hex
  import opened Text

  datatype ParsedId =
    | Thread(tid: int)
    | ProcessThread(pid: int, tid: int)

  /** StringView::substr. */
  function Substr(s: Bytes, pos: nat, n: nat): (t: Bytes)
    requires pos <= |s|
  {
    s[pos..pos + if n < |s| - pos then n else |s| - pos]
  }

  /**
   What ParseThreadId returns. The form without a dot reads a variable that was never set; its value
   is the argument `unset`, about which nothing is assumed.
   */
  function ThreadIdOf(bytes: Bytes, unset: uint64): (r: Option<ParsedId>)
  {
    if bytes == [] then None
    else if bytes[0] != 'p' then
      match Int64OfString(bytes)
      case None => None
      case Some(tid) => Some(Thread(tid))
    else
      match IndexOf(bytes, '.', 1)
      case None =>
        (match Int64OfString(Substr(bytes, 1, (unset - 1) % TWO_64))
         case None => None
         case Some(pid) => Some(ProcessThread(pid, -1)))
      case Some(dot) =>
        var pid, tid := Int64OfString(bytes[1..dot]), Int64OfString(bytes[dot + 1..]);
        if pid.None? || tid.None? then None else Some(ProcessThread(pid.value, tid.value))
  }

  method ParseThreadId(bytes: Bytes, unset: uint64) returns (r: Option<ParsedId>)
    ensures r == ThreadIdOf(bytes, unset)
  {
    if |bytes| == 0 {
      return None;
    }
    if bytes[0] != 'p' {
      var only := StringToNumberWithError(bytes);
      return if only.None? then None else Some(Thread(only.value));
    }
    var dot: nat := unset;
    var foundDot := false;
    for i := 1 to |bytes|
      invariant !foundDot && dot == unset
      invariant forall j :: 1 <= j < i ==> bytes[j] != '.'
    {
      if bytes[i] == '.' {
        dot, foundDot := i, true;
        break;
      }
    }
    if !foundDot {
      var all := StringToNumberWithError(Substr(bytes, 1, (dot - 1) % TWO_64));
      return if all.None? then None else Some(ProcessThread(all.value, -1));
    }
    var pid := StringToNumberWithError(bytes[1..dot]);
    if pid.None? {
      return None;
    }
    var tid := StringToNumberWithError(bytes[dot + 1..]);
    return if tid.None? then None else Some(ProcessThread(pid.value, tid.value));
  }

  function EncodeThreadId(pid: uint64, tid: uint64): (s: Bytes) {
    "p" + HexDigits(pid) + "." + HexDigits(tid)
  }

  /** A character that can appear in a printed number. */
  predicate IsIdChar(c: Byte) {
    HexCharToByte(c).Some? || c == '-'
  }

  lemma DottedIdParses(left: Bytes, right: Bytes, unset: uint64)
    requires Lacks(left, '.')
    ensures ThreadIdOf("p" + left + "." + right, unset) ==
            var pid, tid := Int64OfString(left), Int64OfString(right);
            if pid.None? || tid.None? then None else Some(ProcessThread(pid.value, tid.value))
  {
    var bytes: Bytes := "p" + left + "." + right;
    var dot := 1 + |left|;
    forall i | 1 <= i < dot
      ensures bytes[i] != '.'
    {
      assert bytes[i] == left[i - 1];
    }
    assert bytes[dot] == '.';
    assert IndexOf(bytes, '.', 1) == Some(dot);
    assert bytes[1..dot] == left && bytes[dot + 1..] == right;
  }

  /** ParseThreadId inverts EncodeThreadId exactly when both ids fit int64; otherwise it refuses. */
  lemma ParseInvertsEncode(pid: uint64, tid: uint64, unset: uint64)
    ensures ThreadIdOf(EncodeThreadId(pid, tid), unset) ==
            if pid < TWO_63 && tid < TWO_63 then Some(ProcessThread(pid, tid)) else None
  {
    HexDigitsDenote(pid);
    HexDigitsDenote(tid);
    DottedIdParses(HexDigits(pid), HexDigits(tid), unset);
  }

  /**
   The form `p<pid>` is documented to mean every thread of that process. It is read that way exactly
   when the unset variable happens to hold zero or a value past the end of the text.
   */
  lemma DotlessIdDependsOnUnsetValue(pid: nat, unset: uint64)
    requires pid < TWO_63
    ensures var bytes: Bytes := "p" + HexDigits(pid);
            ThreadIdOf(bytes, unset) == Some(ProcessThread(pid, -1)) <==> (unset == 0 || unset >= |bytes|)
  {
    var digits := HexDigits(pid);
    var bytes: Bytes := "p" + digits;
    HexDigitsDenote(pid);
    FewDigits(pid);
    DotlessIdReads(digits, unset);
    var n := if unset == 0 then TWO_64 - 1 else unset - 1;
    if n < |digits| {
      PrintedPrefixDiffers(pid, n);
    }
  }

  lemma DotlessIdReads(digits: Bytes, unset: uint64)
    requires IsHex(digits)
    ensures var n := if unset == 0 then TWO_64 - 1 else unset - 1;
            var read := if n < |digits| then digits[..n] else digits;
            ThreadIdOf("p" + digits, unset) ==
            match Int64OfString(read) case None => None case Some(pid) => Some(ProcessThread(pid, -1))
  {
    var bytes: Bytes := "p" + digits;
    var n := if unset == 0 then TWO_64 - 1 else unset - 1;
    assert n == (unset - 1) % TWO_64;
    assert forall i :: 1 <= i < |bytes| ==> bytes[i] == digits[i - 1];
    assert IndexOf(bytes, '.', 1) == None;
    assert Substr(bytes, 1, n) == if n < |digits| then digits[..n] else digits;
  }

  lemma PrintedPrefixDiffers(n: nat, k: nat)
    requires k < |HexDigits(n)|
    ensures Int64OfString(HexDigits(n)[..k]) != Some(n)
  {
    var digits := HexDigits(n);
    HexDigitsDenote(n);
    if k > 0 {
      ProperPrefixIsSmaller(digits, k);
      assert digits[..k][0] == digits[0];
    }
  }

  /** A number below 2^64 has at most 16 digits. */
  lemma FewDigits(n: nat)
    requires n < TWO_64
    ensures |HexDigits(n)| <= 16
  {
    assert Power16(4) == 0x1_0000;
    assert Power16(8) == 0x1_0000_0000;
    assert Power16(12) == 0x1_0000_0000_0000;
    assert Power16(16) == TWO_64;
    DigitsBelowPower(n, 16);
  }

  function Power16(k: nat): (p: nat)
    ensures p >= 1
  {
    if k == 0 then 1 else 16 * Power16(k - 1)
  }

  lemma {:induction false} DigitsBelowPower(n: nat, k: nat)
    requires k >= 1 && n < Power16(k)
    ensures |HexDigits(n)| <= k
  {
    if n >= 16 {
      DigitsBelowPower(n / 16, k - 1);
    }
  }
}
