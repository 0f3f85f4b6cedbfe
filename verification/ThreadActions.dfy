/** The action list of a vCont packet: `action[:thread-id]` items separated by `;`. */
module ThreadActions {
  import opened Common
  import opened Hex
  import opened Text
  import opened ThreadIds

  datatype Action = NoAction | Continue | Step

  /** The koid that stands for "all processes" or "all threads". */
  const ALL: uint64 := TWO_64 - 1

  datatype Entry = Entry(action: Action, pid: uint64, tid: uint64) {
    predicate Contains(p: uint64, t: uint64) {
      && (p == pid || pid == ALL)
      && (t == tid || tid == ALL)
    }
  }

  /** What one item of the list means. */
  datatype Meaning =
    | Bad
    | Default(action: Action)
    | Applies(entry: Entry)

  function DecodeAction(c: Byte): (r: Option<Action>) {
    if c == 'c' then Some(Continue) else if c == 's' then Some(Step) else None
  }

  // Conversions between zx_koid_t and int64_t keep the bit pattern.

  function ToInt64(x: uint64): (i: int)
    ensures -TWO_63 <= i < TWO_63
  {
    if x < TWO_63 then x else x - TWO_64
  }

  function ToUint64(i: int): (x: uint64)
    requires -TWO_63 <= i < TWO_63
    ensures ToInt64(x) == i
  {
    if i >= 0 then i else i + TWO_64
  }

  /** The checks and conversions applied to a parsed thread id. */
  function Resolve(action: Action, id: ParsedId, curProc: uint64): (m: Meaning)
    requires -TWO_63 <= id.tid < TWO_63
    requires id.ProcessThread? ==> -TWO_63 <= id.pid < TWO_63
  {
    if (id.ProcessThread? && id.pid <= -2) || id.tid <= -2 then Bad
    else
      var pid := if id.Thread? || id.pid == 0 then ToInt64(curProc) else id.pid;
      if pid == -1 && id.tid != -1 then Bad
      else Applies(Entry(action, if pid == -1 then ALL else ToUint64(pid), if id.tid == -1 then ALL else id.tid))
  }

  lemma ParsedIdsFitInt64(bytes: Bytes, unset: uint64)
    ensures var r := ThreadIdOf(bytes, unset);
            r.Some? ==> && -TWO_63 <= r.value.tid < TWO_63
                        && (r.value.ProcessThread? ==> -TWO_63 <= r.value.pid < TWO_63)
  {
  }

  function DecodeItem(item: Bytes, curProc: uint64, unset: uint64): (m: Meaning) {
    if item == [] then Bad
    else
      var action := DecodeAction(item[0]);
      if action.None? then Bad
      else if |item| == 1 then Default(action.value)
      else if item[1] != ':' then Bad
      else
        var id := ThreadIdOf(item[2..], unset);
        ParsedIdsFitInt64(item[2..], unset);
        if id.None? then Bad else Resolve(action.value, id.value, curProc)
  }

  /** The meanings of the items of a list; `unset(i)` is what ParseThreadId's unset variable holds at item i. */
  function Meanings(items: seq<Bytes>, curProc: uint64, unset: nat -> uint64): (ms: seq<Meaning>) {
    seq(|items|, i requires 0 <= i < |items| => DecodeItem(items[i], curProc, unset(i)))
  }

  function Entries(ms: seq<Meaning>): (es: seq<Entry>) {
    if ms == [] then []
    else Entries(ms[..|ms| - 1]) + if ms[|ms| - 1].Applies? then [ms[|ms| - 1].entry] else []
  }

  function Defaults(ms: seq<Meaning>): (actions: seq<Action>) {
    if ms == [] then []
    else Defaults(ms[..|ms| - 1]) + if ms[|ms| - 1].Default? then [ms[|ms| - 1].action] else []
  }

  lemma {:induction false} PartsOfPrefix(ms: seq<Meaning>, k: nat)
    requires k <= |ms|
    ensures Defaults(ms[..k]) <= Defaults(ms) && Entries(ms[..k]) <= Entries(ms)
    decreases |ms|
  {
    if k == |ms| {
      assert ms[..k] == ms;
    } else {
      PartsOfPrefix(ms[..|ms| - 1], k);
      assert ms[..|ms| - 1][..k] == ms[..k];
    }
  }

  /** Which lists are accepted: not empty, every item meaningful, at most one default. */
  predicate Accepted(ms: seq<Meaning>) {
    ms != [] && (forall i :: 0 <= i < |ms| ==> !ms[i].Bad?) && |Defaults(ms)| <= 1
  }

  /** The loop's state after a prefix of the list: no bad item, and dflt is its only default. */
  predicate ParsedSoFar(ms: seq<Meaning>, dflt: Action) {
    && (forall i :: 0 <= i < |ms| ==> !ms[i].Bad? && (ms[i].Default? ==> ms[i].action != NoAction))
    && Defaults(ms) == if dflt == NoAction then [] else [dflt]
  }

  lemma PartsOfStep(ms: seq<Meaning>, m: Meaning)
    ensures Entries(ms + [m]) == Entries(ms) + if m.Applies? then [m.entry] else []
    ensures Defaults(ms + [m]) == Defaults(ms) + if m.Default? then [m.action] else []
  {
    assert (ms + [m])[..|ms|] == ms;
  }

  lemma RejectedPrefix(ms: seq<Meaning>, k: nat)
    requires 0 < k <= |ms|
    requires ms[k - 1].Bad? || |Defaults(ms[..k])| > 1
    ensures !Accepted(ms)
  {
    PartsOfPrefix(ms, k);
  }

  /** The body of the parsing loop for one item. */
  method ParseItem(item: Bytes, curProc: uint64, unset: uint64) returns (m: Meaning)
    ensures m == DecodeItem(item, curProc, unset)
    ensures m.Default? ==> m.action != NoAction
  {
    if |item| == 0 {
      return Bad;
    }
    var action := DecodeAction(item[0]);
    if action.None? {
      return Bad;
    }
    if |item| == 1 {
      return Default(action.value);
    }
    if item[1] != ':' {
      return Bad;
    }
    var id := ParseThreadId(item[2..], unset);
    if id.None? {
      return Bad;
    }
    ParsedIdsFitInt64(item[2..], unset);
    m := Resolve(action.value, id.value, curProc);
  }

  /** Where the item that starts at s ends, and where the next one starts. */
  function ItemBounds(str: Bytes, s: nat): (r: (nat, nat))
    requires s < |str|
    ensures s <= r.0 <= r.1 <= |str| && s < r.1
  {
    match IndexOf(str, ';', s)
    case None => (|str|, |str|)
    case Some(semi) => (semi, semi + 1)
  }

  /** The cursor s into str stands at the start of item k. */
  ghost predicate AtItem(items: seq<Bytes>, k: nat, str: Bytes, s: nat) {
    s <= |str| && k <= |items| && items[k..] == Split(str[s..], ';')
  }

  /** The parsing loop; it stops at the first item that makes the list unacceptable. */
  method ParseActions(str: Bytes, curProc: uint64, unset: nat -> uint64)
    returns (ok: bool, dflt: Action, entries: seq<Entry>)
    ensures var ms := Meanings(Split(str, ';'), curProc, unset);
            && ok == Accepted(ms)
            && (ok ==> entries == Entries(ms) && dflt == if Defaults(ms) == [] then NoAction else Defaults(ms)[0])
            && entries <= Entries(ms)
  {
    ok, dflt, entries := |str| > 0, NoAction, [];
    var s, k := 0, 0;
    ghost var items := Split(str, ';');
    ghost var ms := Meanings(items, curProc, unset);
    assert str[0..] == str;
    while ok && s < |str|
      invariant AtItem(items, k, str, s)
      invariant ok ==> ParsedSoFar(ms[..k], dflt)
      invariant entries == Entries(ms[..k])
      invariant !ok ==> !Accepted(ms)
      decreases |str| - s, ok
    {
      var (end, next) := ItemBounds(str, s);
      NextItem(items, k, str, s);
      var m := ParseItem(str[s..end], curProc, unset(k));
      ItemParsed(ms, k, m, dflt);
      if m.Bad? || (m.Default? && dflt != NoAction) {
        ok := false;
      } else {
        if m.Default? {
          dflt := m.action;
        } else {
          entries := entries + [m.entry];
        }
        s, k := next, k + 1;
      }
    }
    FinishedParsing(ms, k, ok, dflt);
  }

  /** What one more item means for the loop. */
  lemma ItemParsed(ms: seq<Meaning>, k: nat, m: Meaning, dflt: Action)
    requires k < |ms| && ms[k] == m && (m.Default? ==> m.action != NoAction) && ParsedSoFar(ms[..k], dflt)
    ensures if m.Bad? || (m.Default? && dflt != NoAction) then !Accepted(ms)
            else ParsedSoFar(ms[..k + 1], if m.Default? then m.action else dflt)
    ensures Entries(ms[..k + 1]) == Entries(ms[..k]) + if m.Applies? then [m.entry] else []
  {
    assert ms[..k + 1] == ms[..k] + [m];
    PartsOfStep(ms[..k], m);
    if m.Bad? || (m.Default? && dflt != NoAction) {
      RejectedPrefix(ms, k + 1);
    }
  }

  lemma FinishedParsing(ms: seq<Meaning>, k: nat, ok: bool, dflt: Action)
    requires k <= |ms|
    requires if ok then k == |ms| && k > 0 && ParsedSoFar(ms[..k], dflt) else !Accepted(ms)
    ensures ok == Accepted(ms)
    ensures ok ==> Entries(ms[..k]) == Entries(ms) && dflt == if Defaults(ms) == [] then NoAction else Defaults(ms)[0]
    ensures Entries(ms[..k]) <= Entries(ms)
  {
    if ok {
      assert ms[..k] == ms;
    }
    PartsOfPrefix(ms, k);
  }

  /** Entry i is the first that contains the thread. */
  ghost predicate IsFirst(entries: seq<Entry>, i: int, pid: uint64, tid: uint64) {
    && 0 <= i < |entries| && entries[i].Contains(pid, tid)
    && forall j :: 0 <= j < i ==> !entries[j].Contains(pid, tid)
  }

  class ThreadActionList {
    var valid: bool
    var pickOnesResolved: bool
    var defaultAction: Action
    var actions: seq<Entry>

    constructor (str: Bytes, curProc: uint64, unset: nat -> uint64)
      ensures var ms := Meanings(Split(str, ';'), curProc, unset);
              && valid == Accepted(ms)
              && (valid ==> actions == Entries(ms))
              && (valid ==> defaultAction == if Defaults(ms) == [] then NoAction else Defaults(ms)[0])
              && (!valid ==> actions <= Entries(ms) && defaultAction == NoAction)
      ensures !pickOnesResolved
    {
      var ok, dflt, entries := ParseActions(str, curProc, unset);
      valid := ok;
      actions := entries;
      defaultAction := if ok then dflt else NoAction;
      pickOnesResolved := false;
    }

    /** The first entry that contains the thread decides; otherwise the default does. */
    method GetAction(pid: uint64, tid: uint64) returns (a: Action)
      requires pickOnesResolved
      requires pid != 0 && pid != ALL && tid != 0 && tid != ALL
      ensures (forall i :: 0 <= i < |actions| ==> !actions[i].Contains(pid, tid)) ==> a == defaultAction
      ensures forall i :: IsFirst(actions, i, pid, tid) ==> a == actions[i].action
    {
      for i := 0 to |actions|
        invariant forall j :: 0 <= j < i ==> !actions[j].Contains(pid, tid)
      {
        if actions[i].Contains(pid, tid) {
          assert IsFirst(actions, i, pid, tid);
          return actions[i].action;
        }
      }
      return defaultAction;
    }
  }

  /** The constructor's cursor walks the pieces of Split one by one. */
  lemma NextItem(items: seq<Bytes>, k: nat, str: Bytes, s: nat)
    requires s < |str| && AtItem(items, k, str, s)
    ensures var (end, next) := ItemBounds(str, s);
            k < |items| && items[k] == str[s..end] && AtItem(items, k + 1, str, next)
  {
    SplitFrom(str, s);
    assert items[k] == items[k..][0];
    assert items[k + 1..] == items[k..][1..];
  }

  lemma SplitFrom(str: Bytes, s: nat)
    requires s < |str|
    ensures var (end, next) := ItemBounds(str, s);
            Split(str[s..], ';') == [str[s..end]] + Split(str[next..], ';')
  {
    var rest := str[s..];
    var semi, k := IndexOf(str, ';', s), IndexOf(rest, ';', 0);
    if k.Some? {
      assert str[s + k.value] == ';';
      assert semi.Some? && rest[semi.value - s] == ';';
      assert forall i :: 0 <= i < k.value ==> rest[i] == str[s + i];
      assert forall i :: s <= i < semi.value ==> str[i] == rest[i - s];
      assert semi.value == s + k.value;
      assert rest[..k.value] == str[s..semi.value] && rest[k.value + 1..] == str[semi.value + 1..];
    } else {
      assert forall i :: s <= i < |str| ==> str[i] == rest[i - s];
      assert semi.None?;
      assert str[|str|..] == [] && str[s..|str|] == rest;
    }
  }

  // ----- which items are accepted -----

  /** An item is its letter alone, or its letter, a colon and a text. */
  predicate IsItem(item: Bytes, action: Action, target: Option<Bytes>) {
    && (action.Continue? || action.Step?)
    && item == (if action.Continue? then "c" else "s") + if target.Some? then ":" + target.value else []
  }

  /** A thread id that may be acted on: nothing below -1, and not one thread of every process. */
  predicate MayTarget(id: ParsedId, curProc: uint64) {
    && id.tid >= -1 && (id.ProcessThread? ==> id.pid >= -1)
    && (id.tid == -1 || if id.ProcessThread? && id.pid != 0 then id.pid != -1 else curProc != ALL)
  }

  /** A default is exactly a letter alone. */
  lemma DefaultIff(item: Bytes, action: Action, curProc: uint64, unset: uint64)
    ensures DecodeItem(item, curProc, unset) == Default(action) <==> IsItem(item, action, None)
  {
  }

  /**
   An entry is exactly a letter, a colon and a thread id that may be acted on; it acts as the letter
   says, on the threads and the process of that id, or on the current process if the id has none.
   */
  lemma EntryIff(item: Bytes, e: Entry, curProc: uint64, unset: uint64)
    ensures DecodeItem(item, curProc, unset) == Applies(e) <==>
            && |item| >= 2 && IsItem(item, e.action, Some(item[2..]))
            && ThreadIdOf(item[2..], unset).Some?
            && var id := ThreadIdOf(item[2..], unset).value;
               && MayTarget(id, curProc)
               && e.tid == (if id.tid == -1 then ALL else id.tid)
               && e.pid == if id.Thread? || id.pid == 0 then curProc else if id.pid == -1 then ALL else id.pid
  {
    if |item| >= 2 {
      ParsedIdsFitInt64(item[2..], unset);
      var c, s: Bytes := "c:" + item[2..], "s:" + item[2..];
      assert item == [item[0]] + [item[1]] + item[2..];
      assert item[0] == 'c' && item[1] == ':' ==> item == "c" + (":" + item[2..]);
      assert item[0] == 's' && item[1] == ':' ==> item == "s" + (":" + item[2..]);
    }
  }

  // ----- what acceptance guarantees -----

  predicate SoundEntry(e: Entry, curProc: uint64) {
    && (curProc != 0 ==> e.pid != 0)
    && (e.pid == ALL ==> e.tid == ALL)
    && (e.tid == ALL || e.tid < TWO_63) && (e.pid == ALL || e.pid < TWO_63 || e.pid == curProc)
    && e.action != NoAction
  }

  lemma DecodedItemIsSound(item: Bytes, curProc: uint64, unset: uint64)
    ensures var m := DecodeItem(item, curProc, unset);
            m.Applies? ==> SoundEntry(m.entry, curProc)
  {
    if |item| >= 2 {
      ParsedIdsFitInt64(item[2..], unset);
    }
  }

  /**
   An accepted entry never has process zero (unless there is no current process) nor "all processes, one
   thread", and its ids fit.
   */
  lemma {:induction false} AcceptedEntriesAreSound(items: seq<Bytes>, curProc: uint64, unset: nat -> uint64)
    ensures forall e :: e in Entries(Meanings(items, curProc, unset)) ==> SoundEntry(e, curProc)
  {
    if items != [] {
      var k := |items| - 1;
      assert Meanings(items, curProc, unset) ==
             Meanings(items[..k], curProc, unset) + [DecodeItem(items[k], curProc, unset(k))];
      PartsOfStep(Meanings(items[..k], curProc, unset), DecodeItem(items[k], curProc, unset(k)));
      AcceptedEntriesAreSound(items[..k], curProc, unset);
      DecodedItemIsSound(items[k], curProc, unset(k));
    }
  }

  // ----- printing -----

  datatype Id = Every | Number(n: nat)

  datatype Item =
    | DefaultItem(action: Action)
    | ThreadItem(action: Action, tid: Id)
    | ProcessItem(action: Action, pid: Id, tid: Id)

  function PrintAction(a: Action): (c: Byte) {
    if a == Step then 's' else 'c'
  }

  function PrintId(id: Id): (s: Bytes) {
    if id.Every? then "-1" else HexDigits(id.n)
  }

  /** What an identifier is read back as. */
  function ReadBack(id: Id): (n: int) {
    if id.Every? then -1 else id.n
  }

  function PrintDotted(pid: Id, tid: Id): (s: Bytes) {
    "p" + PrintId(pid) + "." + PrintId(tid)
  }

  function PrintItem(item: Item): (s: Bytes) {
    match item
    case DefaultItem(a) => [PrintAction(a)]
    case ThreadItem(a, tid) => [PrintAction(a)] + ":" + PrintId(tid)
    case ProcessItem(a, pid, tid) => [PrintAction(a)] + ":" + PrintDotted(pid, tid)
  }

  function Printed(items: seq<Item>): (pieces: seq<Bytes>)
    ensures |pieces| == |items|
    ensures forall i :: 0 <= i < |items| ==> pieces[i] == PrintItem(items[i])
  {
    seq(|items|, i requires 0 <= i < |items| => PrintItem(items[i]))
  }

  predicate InRange(id: Id) {
    id.Number? ==> id.n < TWO_63
  }

  predicate Printable(item: Item) {
    && item.action != NoAction
    && (!item.DefaultItem? ==> InRange(item.tid))
    && (item.ProcessItem? ==> InRange(item.pid))
  }

  function Koid(id: Id): (k: uint64)
    requires InRange(id)
  {
    if id.Every? then ALL else id.n
  }

  /** The process an item names: its own, or the current one when it names none or zero. */
  function TargetProcess(item: Item, curProc: uint64): (k: uint64)
    requires Printable(item) && !item.DefaultItem?
  {
    if item.ThreadItem? || item.pid == Number(0) then curProc else Koid(item.pid)
  }

  /** What a printed item should mean. */
  function Intended(item: Item, curProc: uint64): (m: Meaning)
    requires Printable(item)
  {
    if item.DefaultItem? then Default(item.action)
    else
      var pid := TargetProcess(item, curProc);
      if pid == ALL && item.tid != Every then Bad else Applies(Entry(item.action, pid, Koid(item.tid)))
  }

  lemma PrintedIdParses(id: Id)
    requires InRange(id)
    ensures Int64OfString(PrintId(id)) == Some(ReadBack(id))
    ensures PrintId(id) != [] && forall i :: 0 <= i < |PrintId(id)| ==> IsIdChar(PrintId(id)[i])
  {
    if id.Every? {
      var one: Bytes := "-1";
      assert one[1..] == "1";
      assert HexValue(one[1..]) == 1 by { assert one[1..][..0] == []; }
    } else {
      HexDigitsDenote(id.n);
    }
  }

  /** An item with an identifier is decoded by decoding the identifier. */
  lemma PrintedTarget(a: Action, target: Bytes, id: ParsedId, curProc: uint64, unset: uint64)
    requires a != NoAction && target != [] && ThreadIdOf(target, unset) == Some(id)
    requires -TWO_63 <= id.tid < TWO_63
    requires id.ProcessThread? ==> -TWO_63 <= id.pid < TWO_63
    ensures DecodeItem([PrintAction(a)] + ":" + target, curProc, unset) == Resolve(a, id, curProc)
  {
    var s := [PrintAction(a)] + ":" + target;
    assert s[0] == PrintAction(a) && s[1] == ':' && s[2..] == target;
  }

  lemma ThreadItemParses(a: Action, tid: Id, curProc: uint64, unset: uint64)
    requires Printable(ThreadItem(a, tid))
    ensures DecodeItem(PrintItem(ThreadItem(a, tid)), curProc, unset) == Intended(ThreadItem(a, tid), curProc)
  {
    PrintedIdParses(tid);
    assert PrintId(tid)[0] != 'p';
    PrintedTarget(a, PrintId(tid), Thread(ReadBack(tid)), curProc, unset);
  }

  lemma ProcessItemParses(a: Action, pid: Id, tid: Id, curProc: uint64, unset: uint64)
    requires Printable(ProcessItem(a, pid, tid))
    ensures DecodeItem(PrintItem(ProcessItem(a, pid, tid)), curProc, unset) ==
            Intended(ProcessItem(a, pid, tid), curProc)
  {
    assert ThreadIdOf(PrintDotted(pid, tid), unset) == Some(ProcessThread(ReadBack(pid), ReadBack(tid))) by {
      PrintedIdParses(pid);
      PrintedIdParses(tid);
      DottedIdParses(PrintId(pid), PrintId(tid), unset);
    }
    PrintedTarget(a, PrintDotted(pid, tid), ProcessThread(ReadBack(pid), ReadBack(tid)), curProc, unset);
    ResolveIntended(a, pid, tid, curProc);
  }

  lemma ResolveIntended(a: Action, pid: Id, tid: Id, curProc: uint64)
    requires Printable(ProcessItem(a, pid, tid))
    ensures Resolve(a, ProcessThread(ReadBack(pid), ReadBack(tid)), curProc) ==
            Intended(ProcessItem(a, pid, tid), curProc)
  {
  }

  lemma PrintedItemLacksSemicolon(item: Item)
    requires Printable(item)
    ensures PrintItem(item) != [] && Lacks(PrintItem(item), ';')
  {
    if !item.DefaultItem? {
      PrintedIdParses(item.tid);
    }
    if item.ProcessItem? {
      PrintedIdParses(item.pid);
    }
  }

  lemma PrintedItemParses(item: Item, curProc: uint64, unset: uint64)
    requires Printable(item)
    ensures DecodeItem(PrintItem(item), curProc, unset) == Intended(item, curProc)
  {
    match item {
      case DefaultItem(a) =>
      case ThreadItem(a, tid) => ThreadItemParses(a, tid, curProc, unset);
      case ProcessItem(a, pid, tid) => ProcessItemParses(a, pid, tid, curProc, unset);
    }
  }

  function IntendedMeanings(items: seq<Item>, curProc: uint64): (ms: seq<Meaning>)
    requires forall i :: 0 <= i < |items| ==> Printable(items[i])
  {
    seq(|items|, i requires 0 <= i < |items| => Intended(items[i], curProc))
  }

  /**
   Reading back a printed list, with or without a final `;`, yields the intended meaning of every
   item in order, whatever the unset variable holds. So the list is accepted exactly when no item
   asks for one thread of all processes and there is at most one default, and then the default and
   the ordered entries are the printed ones.
   */
  lemma PrintedListParses(items: seq<Item>, curProc: uint64, unset: nat -> uint64)
    requires forall i :: 0 <= i < |items| ==> Printable(items[i])
    ensures Meanings(Split(Joined(Printed(items), ';'), ';'), curProc, unset) == IntendedMeanings(items, curProc)
    ensures Meanings(Split(Terminated(Printed(items), ';'), ';'), curProc, unset) == IntendedMeanings(items, curProc)
  {
    var pieces := Printed(items);
    forall i | 0 <= i < |items|
      ensures DecodeItem(pieces[i], curProc, unset(i)) == Intended(items[i], curProc)
      ensures pieces[i] != [] && Lacks(pieces[i], ';')
    {
      PrintedItemParses(items[i], curProc, unset(i));
      PrintedItemLacksSemicolon(items[i]);
    }
    SplitJoined(pieces, ';');
    SplitTerminated(pieces, ';');
  }
}
