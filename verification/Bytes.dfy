/** Values shared by every module: options, machine integers and the bytes of a message. */
module Common {

  datatype Option<+T> = None | Some(value: T)

  const TWO_32: int := 0x1_0000_0000
  const TWO_63: int := 0x8000_0000_0000_0000
  const TWO_64: int := 0x1_0000_0000_0000_0000

  type uint8 = x: int | 0 <= x < 256
  type uint32 = x: int | 0 <= x < TWO_32
  type uint64 = x: int | 0 <= x < TWO_64

  /** One byte of a message, written as the character it stands for. */
  type Byte = c: char | c as int < 256 witness 'a'

  type Bytes = seq<Byte>

  // Facts about sequences that the inductive proofs share.

  lemma SplitLast<T>(s: seq<T>)
    requires s != []
    ensures s == s[..|s| - 1] + [s[|s| - 1]]
  {
  }

  lemma Regrouped<T>(a: seq<T>, b: seq<T>, c: seq<T>, d: seq<T>)
    ensures a + b + c + d == a + (b + (c + d))
  {
  }

  lemma TakeOfAppend<T>(s: seq<T>, x: T, k: nat)
    requires k <= |s|
    ensures (s + [x])[..k] == s[..k]
  {
  }

  lemma TakeOneMore<T>(s: seq<T>, i: nat)
    requires i < |s|
    ensures s[..i + 1] == s[..i] + [s[i]]
  {
  }
}

/** The hexadecimal codecs: two-digit byte strings (debugger_utils) and base-16 numbers (fxl). */
module Hex {
  import opened Common

  // ----- two-digit byte strings -----

  function HalfByteToHexChar(n: uint8): (c: Byte)
    requires n < 16
  {
    if n < 10 then ('0' as int + n) as char else ('a' as int + n % 10) as char
  }

  function HexCharToByte(c: Byte): (r: Option<uint8>)
    ensures r.Some? ==> r.value < 16
  {
    if 'a' <= c <= 'f' then Some(c as int - 'a' as int + 10)
    else if '0' <= c <= '9' then Some(c as int - '0' as int)
    else if 'A' <= c <= 'F' then Some(c as int - 'A' as int + 10)
    else None
  }

  function EncodeByteString(b: uint8): (s: Bytes)
    ensures |s| == 2
  {
    [HalfByteToHexChar(b / 16), HalfByteToHexChar(b % 16)]
  }

  function DecodeByteString(s: Bytes): (r: Option<uint8>)
    requires |s| == 2
  {
    var msb, lsb := HexCharToByte(s[0]), HexCharToByte(s[1]);
    if msb.None? || lsb.None? then None else Some(msb.value * 16 + lsb.value)
  }

  lemma ByteStringRoundTrip(b: uint8)
    ensures DecodeByteString(EncodeByteString(b)) == Some(b)
  {
    assert HexCharToByte(HalfByteToHexChar(b / 16)) == Some(b / 16);
    assert HexCharToByte(HalfByteToHexChar(b % 16)) == Some(b % 16);
  }

  // ----- base-16 numbers -----

  predicate IsHex(s: Bytes) {
    forall i :: 0 <= i < |s| ==> HexCharToByte(s[i]).Some?
  }

  /** The number a digit string denotes, with no bound on its size. */
  function HexValue(s: Bytes): (n: int)
    requires IsHex(s)
    ensures n >= 0
  {
    if s == [] then 0 else HexValue(s[..|s| - 1]) * 16 + HexCharToByte(s[|s| - 1]).value
  }

  lemma {:induction false} PrefixValueBound(s: Bytes, k: nat)
    requires IsHex(s) && k <= |s|
    ensures HexValue(s[..k]) <= HexValue(s)
    decreases |s|
  {
    if k == |s| {
      assert s[..k] == s;
    } else {
      PrefixValueBound(s[..|s| - 1], k);
      assert s[..|s| - 1][..k] == s[..k];
    }
  }

  /** A leading non-zero digit makes every proper prefix denote a smaller number. */
  lemma {:induction false} ProperPrefixIsSmaller(s: Bytes, k: nat)
    requires IsHex(s) && k < |s|
    requires HexCharToByte(s[0]).value > 0
    ensures HexValue(s[..k]) < HexValue(s)
    decreases |s|
  {
    var t := s[..|s| - 1];
    if k < |s| - 1 {
      ProperPrefixIsSmaller(t, k);
      assert t[..k] == s[..k];
    } else if |s| > 1 {
      ProperPrefixIsSmaller(t, 0);
      assert s[..k] == t;
    }
  }

  function UpperDigit(v: int): (c: Byte)
    requires 0 <= v < 16
  {
    if v < 10 then ('0' as int + v) as char else ('A' as int + v % 10) as char
  }

  /** The digits of n in base 16, most significant first, without leading zeros; "0" for zero. */
  function HexDigits(n: nat): (s: Bytes)
    ensures |s| >= 1
  {
    if n < 16 then [UpperDigit(n)] else HexDigits(n / 16) + [UpperDigit(n % 16)]
  }

  lemma {:induction false} HexDigitsDenote(n: nat)
    ensures IsHex(HexDigits(n)) && HexValue(HexDigits(n)) == n
    ensures n > 0 ==> HexCharToByte(HexDigits(n)[0]).value > 0
  {
    var s := HexDigits(n);
    if n < 16 {
      assert HexCharToByte(UpperDigit(n)) == Some(n);
      assert s[..0] == [];
    } else {
      HexDigitsDenote(n / 16);
      assert HexCharToByte(UpperDigit(n % 16)) == Some(n % 16);
      assert s[..|s| - 1] == HexDigits(n / 16);
    }
  }

  /** NumberToString<uint64_t> in base 16: the buffer is filled from its end. */
  method NumberToString(number: uint64) returns (s: Bytes)
    ensures s == HexDigits(number)
  {
    if number == 0 {
      return "0";
    }
    s := [];
    var rest: uint64 := number;
    while rest != 0
      invariant rest != 0 ==> HexDigits(rest) + s == HexDigits(number)
      invariant rest == 0 ==> s == HexDigits(number)
      decreases rest
    {
      s := [UpperDigit(rest % 16)] + s;
      if rest >= 16 {
        assert HexDigits(rest / 16) + s == HexDigits(rest) + s[1..];
      }
      rest := rest / 16;
    }
  }

  /** What StringToNumberWithError<int64_t> in base 16 must return. */
  function Int64OfString(s: Bytes): (r: Option<int>)
  {
    if s == [] then None
    else if s[0] == '-' then
      var digits := s[1..];
      if |s| >= 2 && IsHex(digits) && HexValue(digits) <= TWO_63 then Some(-HexValue(digits)) else None
    else if IsHex(s) && HexValue(s) < TWO_63 then Some(HexValue(s))
    else None
  }

  method StringToPositiveNumber(s: Bytes) returns (r: Option<int>)
    ensures r == if IsHex(s) && HexValue(s) < TWO_63 then Some(HexValue(s)) else None
  {
    var number := 0;
    for i := 0 to |s|
      invariant IsHex(s[..i]) && number == HexValue(s[..i]) < TWO_63
    {
      var digit := HexCharToByte(s[i]);
      if digit.None? {
        return None;
      }
      var t := s[..i + 1];
      assert t[..i] == s[..i];
      assert IsHex(t) && HexValue(t) == number * 16 + digit.value;
      if number > (TWO_63 - 1) / 16 || (number == (TWO_63 - 1) / 16 && digit.value > (TWO_63 - 1) % 16) {
        if IsHex(s) {
          PrefixValueBound(s, i + 1);
        }
        return None;
      }
      number := number * 16 + digit.value;
    }
    assert s[..|s|] == s;
    return Some(number);
  }

  method StringToNegativeNumber(s: Bytes) returns (r: Option<int>)
    ensures r == if IsHex(s) && HexValue(s) <= TWO_63 then Some(-HexValue(s)) else None
  {
    var number := 0;
    for i := 0 to |s|
      invariant IsHex(s[..i]) && -number == HexValue(s[..i]) <= TWO_63
    {
      var digit := HexCharToByte(s[i]);
      if digit.None? {
        return None;
      }
      var t := s[..i + 1];
      assert t[..i] == s[..i];
      assert IsHex(t) && HexValue(t) == -number * 16 + digit.value;
      // -2^63 / 16 is exact, so its remainder is zero.
      if number < -(TWO_63 / 16) || (number == -(TWO_63 / 16) && digit.value > 0) {
        if IsHex(s) {
          PrefixValueBound(s, i + 1);
        }
        return None;
      }
      number := number * 16 - digit.value;
    }
    assert s[..|s|] == s;
    return Some(number);
  }

  method StringToNumberWithError(s: Bytes) returns (r: Option<int>)
    ensures r == Int64OfString(s)
  {
    if s == [] {
      return None;
    }
    if s[0] == '-' {
      if |s| < 2 {
        return None;
      }
      r := StringToNegativeNumber(s[1..]);
    } else {
      r := StringToPositiveNumber(s);
    }
  }

  /** A printed id is read back exactly when it fits int64. */
  lemma PrintedNumberParses(n: nat)
    ensures Int64OfString(HexDigits(n)) == if n < TWO_63 then Some(n) else None
  {
    HexDigitsDenote(n);
  }
}
