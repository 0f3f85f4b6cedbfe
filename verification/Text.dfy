/** Searching and splitting message text. */
module Text {
  import opened Common

  predicate Lacks(s: Bytes, c: Byte) {
    forall i :: 0 <= i < |s| ==> s[i] != c
  }

  /** The first position at or after `from` that holds c. */
  function IndexOf(s: Bytes, c: Byte, from: nat): (r: Option<nat>)
    requires from <= |s|
    ensures r.None? ==> forall i :: from <= i < |s| ==> s[i] != c
    ensures r.Some? ==> from <= r.value < |s| && s[r.value] == c
    ensures r.Some? ==> forall i :: from <= i < r.value ==> s[i] != c
    decreases |s| - from
  {
    if from == |s| then None else if s[from] == c then Some(from) else IndexOf(s, c, from + 1)
  }

  /** The pieces of s between occurrences of c; a final c ends the last piece and opens no new one. */
  function Split(s: Bytes, c: Byte): (pieces: seq<Bytes>)
    decreases |s|
  {
    if s == [] then []
    else match IndexOf(s, c, 0)
      case None => [s]
      case Some(k) => [s[..k]] + Split(s[k + 1..], c)
  }

  /** Each piece followed by c. */
  function Terminated(pieces: seq<Bytes>, c: Byte): (s: Bytes) {
    if pieces == [] then [] else pieces[0] + [c] + Terminated(pieces[1..], c)
  }

  /** The pieces with c between them. */
  function Joined(pieces: seq<Bytes>, c: Byte): (s: Bytes) {
    if pieces == [] then [] else if |pieces| == 1 then pieces[0] else pieces[0] + [c] + Joined(pieces[1..], c)
  }

  lemma SplitHead(piece: Bytes, c: Byte, rest: Bytes)
    requires Lacks(piece, c)
    ensures Split(piece + [c] + rest, c) == [piece] + Split(rest, c)
  {
    var s := piece + [c] + rest;
    assert s[|piece|] == c;
    assert forall i :: 0 <= i < |piece| ==> s[i] == piece[i];
    assert IndexOf(s, c, 0) == Some(|piece|);
    assert s[..|piece|] == piece && s[|piece| + 1..] == rest;
  }

  lemma {:induction false} SplitTerminated(pieces: seq<Bytes>, c: Byte)
    requires forall i :: 0 <= i < |pieces| ==> Lacks(pieces[i], c)
    ensures Split(Terminated(pieces, c), c) == pieces
  {
    if pieces != [] {
      SplitHead(pieces[0], c, Terminated(pieces[1..], c));
      SplitTerminated(pieces[1..], c);
    }
  }

  lemma {:induction false} SplitJoined(pieces: seq<Bytes>, c: Byte)
    requires forall i :: 0 <= i < |pieces| ==> pieces[i] != [] && Lacks(pieces[i], c)
    ensures Split(Joined(pieces, c), c) == pieces
  {
    if |pieces| == 1 {
      assert IndexOf(pieces[0], c, 0) == None;
    } else if |pieces| > 1 {
      SplitHead(pieces[0], c, Joined(pieces[1..], c));
      SplitJoined(pieces[1..], c);
    }
  }
}
