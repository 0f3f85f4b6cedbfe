/**
 How many times a component's client is told that the component terminated. The termination callback
 is handed from the request wrapper to a failed controller, an ELF controller or a runner's bridge.
 */
module Lifecycle {
  import opened Common

  datatype Reason =
    | UNKNOWN | URL_INVALID | PACKAGE_NOT_FOUND | INTERNAL_ERROR | RUNNER_FAILED | RUNNER_TERMINATED | EXITED

  const CREATION_FAILED: int := -1

  /** A call of the termination callback of `request`. */
  datatype Report = Report(request: nat, code: int, reason: Reason)

  // ----- ComponentRequestWrapper -----

  /** callback is None once it has been moved out. */
  datatype Wrapper = Wrapper(active: bool, callback: Option<nat>, code: int, reason: Reason) {
    /** The new object of a move: `active` keeps its initial value true, whatever the source's is. */
    function MovedTo(): (w: Wrapper) {
      this.(active := true)
    }

    /** What assigning another wrapper to this one makes of it: whether it is active does not change. */
    function Assigned(other: Wrapper): (w: Wrapper) {
      other.(active := active)
    }

    /** What a move leaves behind. */
    function MovedFrom(): (w: Wrapper) {
      this.(active := false, callback := None)
    }

    function WithReturnValues(code: int, reason: Reason): (w: Wrapper) {
      this.(code := code, reason := reason)
    }

    /** The destructor: an active wrapper reports through a FailedComponentController. */
    function Dies(): (reports: seq<Report>) {
      if active && callback.Some? then [Report(callback.value, code, reason)] else []
    }

    /** The destructor would call a function that was moved out. */
    predicate CallsEmpty() {
      active && callback.None?
    }
  }

  function NewWrapper(request: nat): (w: Wrapper) {
    Wrapper(true, Some(request), CREATION_FAILED, UNKNOWN)
  }

  // ----- any use of wrappers: moves, assignments, extractions and destructions in any order -----

  datatype Slot = Live(w: Wrapper) | Dead

  datatype Op =
    | Move(from: nat)
    | Assign(at: nat, from: nat)
    | SetReturnValues(at: nat, code: int, reason: Reason)
    | Extract(at: nat)
    | Destroy(at: nat)

  /**
   All wrappers ever made for one request, and what became of its callback: called, extracted or
   dropped. emptyUses counts calls and extractions of an empty callback; made and cured count active
   wrappers that came to have none, and that got one or ceased to be active without a use.
   */
  datatype Pool = Pool(slots: seq<Slot>, reports: seq<Report>, extracted: nat, dropped: nat,
                       emptyUses: nat, made: nat, cured: nat)

  function NewPool(request: nat): (p: Pool) {
    Pool([Live(NewWrapper(request))], [], 0, 0, 0, 0, 0)
  }

  function Index(op: Op): (i: nat) {
    match op
    case Move(from) => from
    case Assign(at, _) => at
    case SetReturnValues(at, _, _) => at
    case Extract(at) => at
    case Destroy(at) => at
  }

  predicate IsLive(p: Pool, i: nat) {
    i < |p.slots| && p.slots[i].Live?
  }

  predicate OpEnabled(p: Pool, op: Op) {
    IsLive(p, Index(op)) && (op.Assign? ==> IsLive(p, op.from) && op.from != op.at)
  }

  function One(b: bool): (n: nat) {
    if b then 1 else 0
  }

  function Apply(p: Pool, op: Op): (r: Pool)
    requires OpEnabled(p, op)
  {
    var w := p.slots[Index(op)].w;
    match op
    case Move(from) =>
      p.(slots := p.slots[from := Live(w.MovedFrom())] + [Live(w.MovedTo())],
         made := p.made + One(!w.active && w.callback.None?))
    case Assign(at, from) =>
      var v := p.slots[from].w;
      p.(slots := p.slots[at := Live(w.Assigned(v))][from := Live(v.MovedFrom())],
         dropped := p.dropped + One(w.callback.Some?),
         made := p.made + One(w.active && w.callback.Some? && v.callback.None?),
         cured := p.cured + One(w.active && w.callback.None? && v.callback.Some?) + One(v.CallsEmpty()))
    case SetReturnValues(at, code, reason) =>
      p.(slots := p.slots[at := Live(w.WithReturnValues(code, reason))])
    case Extract(at) =>
      if !w.active then p
      else p.(slots := p.slots[at := Live(w.MovedFrom())],
              extracted := p.extracted + One(w.callback.Some?),
              emptyUses := p.emptyUses + One(w.callback.None?))
    case Destroy(at) =>
      p.(slots := p.slots[at := Dead], reports := p.reports + w.Dies(),
         dropped := p.dropped + One(!w.active && w.callback.Some?),
         emptyUses := p.emptyUses + One(w.CallsEmpty()))
  }

  function ApplyAll(request: nat, ops: seq<Op>): (r: Option<Pool>) {
    if ops == [] then Some(NewPool(request))
    else
      var p := ApplyAll(request, ops[..|ops| - 1]);
      if p.Some? && OpEnabled(p.value, ops[|ops| - 1]) then Some(Apply(p.value, ops[|ops| - 1])) else None
  }

  function Count<T>(s: seq<T>, p: T -> bool): (n: nat) {
    if s == [] then 0 else Count(s[..|s| - 1], p) + if p(s[|s| - 1]) then 1 else 0
  }

  lemma {:induction false} CountUpdate<T>(s: seq<T>, i: nat, x: T, p: T -> bool)
    requires i < |s|
    ensures Count(s[i := x], p) == Count(s, p) - (if p(s[i]) then 1 else 0) + (if p(x) then 1 else 0)
  {
    var t := s[i := x];
    if i == |s| - 1 {
      assert t[..i] == s[..i];
    } else {
      assert t[..|s| - 1] == s[..|s| - 1][i := x];
      CountUpdate(s[..|s| - 1], i, x, p);
    }
  }

  lemma CountAppend<T>(s: seq<T>, x: T, p: T -> bool)
    ensures Count(s + [x], p) == Count(s, p) + if p(x) then 1 else 0
  {
    assert (s + [x])[..|s|] == s;
  }

  const HOLDS: Slot -> bool := (s: Slot) => s.Live? && s.w.callback.Some?
  const PHANTOM: Slot -> bool := (s: Slot) => s.Live? && s.w.CallsEmpty()

  /** The callback is in one wrapper, extracted, called or dropped; and so for the uses of an empty one. */
  ghost predicate Conserved(request: nat, p: Pool) {
    && Count(p.slots, HOLDS) + p.extracted + |p.reports| + p.dropped == 1
    && Count(p.slots, PHANTOM) + p.emptyUses + p.cured == p.made
    && (forall i :: 0 <= i < |p.slots| && p.slots[i].Live? && p.slots[i].w.callback.Some? ==>
          p.slots[i].w.callback.value == request)
    && (forall i :: 0 <= i < |p.reports| ==> p.reports[i].request == request)
  }

  lemma CountsAfterChange(slots: seq<Slot>, i: nat, x: Slot)
    requires i < |slots|
    ensures Count(slots[i := x], HOLDS) ==
            Count(slots, HOLDS) - (if HOLDS(slots[i]) then 1 else 0) + (if HOLDS(x) then 1 else 0)
    ensures Count(slots[i := x], PHANTOM) ==
            Count(slots, PHANTOM) - (if PHANTOM(slots[i]) then 1 else 0) + (if PHANTOM(x) then 1 else 0)
  {
    CountUpdate(slots, i, x, HOLDS);
    CountUpdate(slots, i, x, PHANTOM);
  }

  lemma MoveConserves(request: nat, p: Pool, from: nat)
    requires OpEnabled(p, Move(from)) && Conserved(request, p)
    ensures Conserved(request, Apply(p, Move(from)))
  {
    var w := p.slots[from].w;
    CountsAfterChange(p.slots, from, Live(w.MovedFrom()));
    CountAppend(p.slots[from := Live(w.MovedFrom())], Live(w.MovedTo()), HOLDS);
    CountAppend(p.slots[from := Live(w.MovedFrom())], Live(w.MovedTo()), PHANTOM);
  }

  lemma AssignConserves(request: nat, p: Pool, at: nat, from: nat)
    requires OpEnabled(p, Assign(at, from)) && Conserved(request, p)
    ensures Conserved(request, Apply(p, Assign(at, from)))
  {
    var w, v := p.slots[at].w, p.slots[from].w;
    CountsAfterChange(p.slots, at, Live(w.Assigned(v)));
    CountsAfterChange(p.slots[at := Live(w.Assigned(v))], from, Live(v.MovedFrom()));
  }

  lemma ApplyConserves(request: nat, p: Pool, op: Op)
    requires OpEnabled(p, op) && Conserved(request, p)
    ensures Conserved(request, Apply(p, op))
  {
    var w := p.slots[Index(op)].w;
    match op {
      case Move(from) => MoveConserves(request, p, from);
      case Assign(at, from) => AssignConserves(request, p, at, from);
      case SetReturnValues(at, code, reason) => CountsAfterChange(p.slots, at, Live(w.WithReturnValues(code, reason)));
      case Extract(at) => CountsAfterChange(p.slots, at, Live(w.MovedFrom()));
      case Destroy(at) => CountsAfterChange(p.slots, at, Dead);
    }
  }

  lemma FirstConserved(request: nat)
    ensures Conserved(request, NewPool(request))
  {
    CountAppend([], Live(NewWrapper(request)), HOLDS);
    CountAppend([], Live(NewWrapper(request)), PHANTOM);
    assert [] + [Live(NewWrapper(request))] == [Live(NewWrapper(request))];
  }

  lemma AllDeadConserved(request: nat, p: Pool)
    requires Conserved(request, p) && forall i :: 0 <= i < |p.slots| ==> p.slots[i].Dead?
    ensures |p.reports| + p.extracted + p.dropped == 1 && p.emptyUses + p.cured == p.made
  {
    NoneCounted(p.slots, HOLDS);
    NoneCounted(p.slots, PHANTOM);
  }

  /**
   However a request's wrappers are moved, assigned, extracted and destroyed, the callback is called
   at most once in all, and never by both a wrapper and an extractor. When every wrapper is gone it
   was called, extracted or dropped exactly once, and every active wrapper that came to have no
   callback has used the empty one or was cured.
   */
  lemma {:induction false} WrapperChain(request: nat, ops: seq<Op>)
    requires ApplyAll(request, ops).Some?
    ensures Conserved(request, ApplyAll(request, ops).value)
    ensures var p := ApplyAll(request, ops).value;
            && |p.reports| + p.extracted <= 1
            && ((forall i :: 0 <= i < |p.slots| ==> p.slots[i].Dead?) ==>
                |p.reports| + p.extracted + p.dropped == 1 && p.emptyUses + p.cured == p.made)
  {
    if ops == [] {
      FirstConserved(request);
    } else {
      WrapperChain(request, ops[..|ops| - 1]);
      ApplyConserves(request, ApplyAll(request, ops[..|ops| - 1]).value, ops[|ops| - 1]);
    }
    var p := ApplyAll(request, ops).value;
    if forall i :: 0 <= i < |p.slots| ==> p.slots[i].Dead? {
      AllDeadConserved(request, p);
    }
  }

  /** Without assignments only active wrappers have a callback. */
  ghost predicate OnlyActiveHold(p: Pool) {
    && p.dropped == 0 && p.cured == 0
    && forall i :: 0 <= i < |p.slots| && p.slots[i].Live? && p.slots[i].w.callback.Some? ==> p.slots[i].w.active
  }

  /**
   A callback is dropped, or an empty wrapper cured, only by assignments. So without them, once every
   wrapper is gone, the callback was called or extracted exactly once, and an empty one was used as
   often as a wrapper was moved from after it had lost its callback.
   */
  lemma {:induction false} NothingDroppedWithoutAssignment(request: nat, ops: seq<Op>)
    requires ApplyAll(request, ops).Some? && forall i :: 0 <= i < |ops| ==> !ops[i].Assign?
    ensures OnlyActiveHold(ApplyAll(request, ops).value)
  {
    if ops != [] {
      NothingDroppedWithoutAssignment(request, ops[..|ops| - 1]);
    }
  }

  /** Moving from a wrapper whose callback was extracted makes one that calls an empty callback when it dies. */
  lemma MovedAfterExtraction(request: nat)
    ensures var p := ApplyAll(request, [Extract(0), Move(0), Destroy(1)]);
            p.Some? && p.value.extracted == 1 && p.value.emptyUses == 1 && p.value.made == 1
  {
    var w := NewWrapper(request);
    var p1 := Pool([Live(w.MovedFrom())], [], 1, 0, 0, 0, 0);
    var p2 := Pool([Live(w.MovedFrom().MovedFrom()), Live(w.MovedFrom().MovedTo())], [], 1, 0, 0, 1, 0);
    assert Apply(NewPool(request), Extract(0)).slots == p1.slots && Apply(p1, Move(0)).slots == p2.slots;
    OneMoreOp(request, [], NewPool(request), Extract(0));
    OneMoreOp(request, [] + [Extract(0)], p1, Move(0));
    OneMoreOp(request, [] + [Extract(0)] + [Move(0)], p2, Destroy(1));
    assert [] + [Extract(0)] + [Move(0)] + [Destroy(1)] == [Extract(0), Move(0), Destroy(1)];
  }

  /** Assigning what a move left behind to the wrapper that was moved to drops the callback. */
  lemma AssignedBackIsDropped(request: nat)
    ensures var p := ApplyAll(request, [Move(0), Assign(1, 0)]);
            p.Some? && p.value.dropped == 1 && p.value.reports == [] && p.value.extracted == 0
  {
    var w := NewWrapper(request);
    var p1 := Pool([Live(w.MovedFrom()), Live(w.MovedTo())], [], 0, 0, 0, 0, 0);
    assert Apply(NewPool(request), Move(0)).slots == p1.slots;
    OneMoreOp(request, [], NewPool(request), Move(0));
    OneMoreOp(request, [] + [Move(0)], p1, Assign(1, 0));
    assert [] + [Move(0)] + [Assign(1, 0)] == [Move(0), Assign(1, 0)];
  }

  lemma OneMoreOp(request: nat, ops: seq<Op>, p: Pool, op: Op)
    requires ApplyAll(request, ops) == Some(p) && OpEnabled(p, op)
    ensures ApplyAll(request, ops + [op]) == Some(Apply(p, op))
  {
    assert (ops + [op])[..|ops|] == ops;
  }

  lemma {:induction false} NoneCounted<T>(s: seq<T>, p: T -> bool)
    requires forall i :: 0 <= i < |s| ==> !p(s[i])
    ensures Count(s, p) == 0
  {
    if s != [] {
      NoneCounted(s[..|s| - 1], p);
    }
  }

  // ----- the controllers -----

  /** ComponentControllerImpl: whether job_ is still held, and the callback until it is called. */
  datatype Elf = Elf(job: bool, callback: Option<nat>) {
    function Killed(): (e: Elf) {
      this.(job := false)
    }

    /** SendReturnCodeIfTerminated for a process that exited. */
    function ReportsExit(code: int): (reports: seq<Report>) {
      if callback.Some? then [Report(callback.value, code, EXITED)] else []
    }

    /** The destructor. */
    function Dies(): (reports: seq<Report>) {
      if job && callback.Some? then [Report(callback.value, -1, UNKNOWN)] else []
    }
  }

  /** ComponentBridge: `armed` says whether the remote controller's OnTerminated handler is still set. */
  datatype Bridge = Bridge(callback: nat, armed: bool, reason: Reason) {
    /** The handler of the remote OnTerminated event. */
    function Terminates(code: int, reason: Reason): (reports: seq<Report>) {
      [Report(callback, code, reason)]
    }

    /** The destructor. */
    function Dies(): (reports: seq<Report>) {
      if armed then [Report(callback, -1, reason)] else []
    }
  }

  /** The calls of termination callbacks, in order. */
  class EventLog {
    var reports: seq<Report>

    method Send(r: Report)
      modifies this
      ensures reports == old(reports) + [r]
    {
      reports := reports + [r];
    }
  }

  class ComponentControllerImpl {
    var job: bool
    var terminationCallback: Option<nat>

    function View(): (e: Elf)
      reads this
    {
      Elf(job, terminationCallback)
    }

    constructor (callback: nat)
      ensures View() == Elf(true, Some(callback))
    {
      job, terminationCallback := true, Some(callback);
    }

    method Kill()
      modifies this
      ensures View() == old(View()).Killed()
    {
      if job {
        job := false;
      }
    }

    method SendReturnCodeIfTerminated(exited: bool, code: int, log: EventLog) returns (r: bool)
      modifies this, log
      ensures r == exited && job == old(job)
      ensures exited ==> terminationCallback == None && log.reports == old(log.reports) + old(View()).ReportsExit(code)
      ensures !exited ==> unchanged(this) && unchanged(log)
    {
      if exited && terminationCallback.Some? {
        log.Send(Report(terminationCallback.value, code, EXITED));
        terminationCallback := None;
      }
      return exited;
    }

    /** The process terminated: report its code, then the container lets go of this object. */
    method Handler(code: int, log: EventLog)
      modifies this, log
      ensures log.reports == old(log.reports) + old(View()).ReportsExit(code)
    {
      var _ := SendReturnCodeIfTerminated(true, code, log);
      Destroy(log);
    }

    method Destroy(log: EventLog)
      modifies this, log
      ensures log.reports == old(log.reports) + old(View()).Dies()
    {
      if job && terminationCallback.Some? {
        log.Send(Report(terminationCallback.value, -1, UNKNOWN));
        terminationCallback := None;
      }
    }
  }

  class ComponentBridge {
    const callback: nat
    const container: RunnerHolder
    var onTerminatedSet: bool
    var terminationReason: Reason

    function View(): (b: Bridge)
      reads this
    {
      Bridge(callback, onTerminatedSet, terminationReason)
    }

    constructor (callback: nat, container: RunnerHolder)
      ensures View() == Bridge(callback, true, UNKNOWN) && this.container == container
    {
      this.callback, this.container := callback, container;
      onTerminatedSet, terminationReason := true, UNKNOWN;
    }

    method SetTerminationReason(reason: Reason)
      modifies this
      ensures View() == old(View()).(reason := reason)
    {
      terminationReason := reason;
    }

    /** The remote controller says its component terminated. */
    method OnRemoteTerminated(code: int, reason: Reason, log: EventLog)
      requires onTerminatedSet && container.Valid()
      modifies this, container, log
      ensures log.reports == old(log.reports) + old(View()).Terminates(code, reason)
      ensures !onTerminatedSet && container.components == old(container.components) - {this}
      ensures container.Valid()
    {
      log.Send(Report(callback, code, reason));
      onTerminatedSet := false;
      var owned := container.ExtractComponent(this);
      if owned {
        Destroy(log);
      }
    }

    /** The remote controller's channel closed. */
    method OnRemoteError(log: EventLog)
      requires container.Valid()
      modifies this, container, log
      ensures log.reports == old(log.reports) + if old(onTerminatedSet) then old(View()).Terminates(-1, UNKNOWN) else []
      ensures !onTerminatedSet && container.Valid()
    {
      if onTerminatedSet {
        OnRemoteTerminated(-1, UNKNOWN, log);
      }
    }

    method Destroy(log: EventLog)
      modifies log
      ensures log.reports == old(log.reports) + View().Dies()
    {
      if onTerminatedSet {
        log.Send(Report(callback, -1, terminationReason));
      }
    }
  }

  class RunnerHolder {
    var components: set<ComponentBridge>

    /** Bridges in the map have not been told that their component terminated. */
    ghost predicate Valid()
      reads this, components
    {
      forall b :: b in components ==> b.container == this && b.onTerminatedSet
    }

    constructor ()
      ensures Valid() && components == {}
    {
      components := {};
    }

    method StartComponent(callback: nat) returns (b: ComponentBridge)
      requires Valid()
      modifies this
      ensures Valid() && fresh(b) && components == old(components) + {b}
      ensures b.View() == Bridge(callback, true, UNKNOWN)
    {
      b := new ComponentBridge(callback, this);
      components := components + {b};
    }

    method ExtractComponent(b: ComponentBridge) returns (found: bool)
      modifies this
      ensures found <==> b in old(components)
      ensures components == old(components) - {b}
    {
      found := b in components;
      components := components - {b};
    }

    /**
     The runner itself terminated: every bridge it owns reports once, with RUNNER_TERMINATED. The
     order is the map's and is returned for the specification.
     */
    method Cleanup(log: EventLog) returns (ghost order: seq<ComponentBridge>)
      requires Valid()
      modifies this, components, log
      ensures components == {}
      ensures forall b :: b in old(components) <==> b in order
      ensures forall i, j :: 0 <= i < j < |order| ==> order[i] != order[j]
      ensures |log.reports| == |old(log.reports)| + |order| && log.reports[..|old(log.reports)|] == old(log.reports)
      ensures forall i :: 0 <= i < |order| ==>
                log.reports[|old(log.reports)| + i] == Report(order[i].callback, -1, RUNNER_TERMINATED)
    {
      ghost var before, all := log.reports, components;
      var rest := components;
      while rest != {}
        invariant rest <= all
        invariant log.reports == before && components == all
        invariant forall b :: b in all ==> b.onTerminatedSet
        invariant forall b :: b in all && b !in rest ==> b.terminationReason == RUNNER_TERMINATED
      {
        var b :| b in rest;
        b.SetTerminationReason(RUNNER_TERMINATED);
        rest := rest - {b};
      }
      order := [];
      while components != {}
        invariant components <= all
        invariant forall b :: b in all ==> b.onTerminatedSet && b.terminationReason == RUNNER_TERMINATED
        invariant forall b :: b in all <==> b in components || b in order
        invariant forall b :: b in order ==> b !in components
        invariant forall i, j :: 0 <= i < j < |order| ==> order[i] != order[j]
        invariant |log.reports| == |before| + |order| && log.reports[..|before|] == before
        invariant forall i :: 0 <= i < |order| ==>
                  log.reports[|before| + i] == Report(order[i].callback, -1, RUNNER_TERMINATED)
        decreases components
      {
        var b :| b in components;
        components := components - {b};
        b.Destroy(log);
        order := order + [b];
      }
    }
  }

  // ----- every request of a realm -----

  /** What CreateComponent finds out about a launch. */
  datatype Launch = BadUrl | PackageUrl | SchemeRunner(runner: Option<nat>)

  /** What comes of loading a package. */
  datatype Load = NotFound | BadPackage | ElfFailed | ElfStarted | PackageRunner(runner: Option<nat>)

  datatype Place =
    | Loading(w: Wrapper)
    | Running(e: Elf)
    | Bridged(runner: nat, b: Bridge)
    | Ended

  datatype Request = Request(place: Place, reports: seq<Report>)

  type World = map<nat, Request>

  datatype Input =
    | Create(id: nat, launch: Launch)
    | Loaded(id: nat, load: Load)
    | LoaderGone(id: nat)
    | Kill(id: nat)
    | ProcessExits(id: nat, code: int)
    | OwnerDestroys(id: nat)
    | RemoteTerminated(id: nat, code: int, reason: Reason)
    | RemoteError(id: nat)
    | RunnerTerminated(runner: nat)
    | RunnerDestroyed(runner: nat)

  /** A wrapper whose callback is extracted; what it leaves dies silently. */
  function IntoElf(w: Wrapper): (r: Request)
    requires w.callback.Some?
  {
    Request(Running(Elf(true, w.callback)), w.MovedFrom().Dies())
  }

  function IntoBridge(w: Wrapper, runner: nat): (r: Request)
    requires w.callback.Some?
  {
    Request(Bridged(runner, Bridge(w.callback.value, true, UNKNOWN)), w.MovedFrom().Dies())
  }

  function Fails(w: Wrapper, reason: Reason): (r: Request) {
    Request(Ended, w.WithReturnValues(CREATION_FAILED, reason).Dies())
  }

  /** CreateComponent: the wrapper on its stack, and the one it may have been moved to. */
  function Created(id: nat, launch: Launch): (r: Request) {
    var w := NewWrapper(id);
    match launch
    case BadUrl => Fails(w, URL_INVALID)
    case PackageUrl => Request(Loading(w.MovedTo()), w.MovedFrom().Dies())
    case SchemeRunner(runner) =>
      var param := w.MovedTo();
      var r := if runner.None? then Fails(param, RUNNER_FAILED) else IntoBridge(param, runner.value);
      r.(reports := r.reports + w.MovedFrom().Dies())
  }

  /** CreateComponentFromPackage, with the wrapper it is given and the one it hands on. */
  function FromPackage(param: Wrapper, load: Load): (r: Request)
    requires param.callback.Some? && !load.NotFound?
  {
    var inner, left := param.MovedTo(), param.MovedFrom().Dies();
    match load
    case BadPackage => Fails(param, INTERNAL_ERROR)
    case ElfFailed => Request(Ended, inner.Dies() + left)
    case ElfStarted => IntoElf(inner).(reports := IntoElf(inner).reports + left)
    case PackageRunner(runner) =>
      var r := if runner.None? then Fails(inner, INTERNAL_ERROR) else IntoBridge(inner, runner.value);
      r.(reports := r.reports + left)
  }

  /** The loader's answer, with the wrapper captured by its callback. */
  function AfterLoad(w: Wrapper, load: Load): (r: Request)
    requires w.callback.Some?
  {
    if load.NotFound? then Fails(w, PACKAGE_NOT_FOUND)
    else
      var r := FromPackage(w.MovedTo(), load);
      r.(reports := r.reports + w.MovedFrom().Dies())
  }

  /** What can happen. That a loading request's wrapper has its callback is always so: see EveryRequestAccounted. */
  predicate InputEnabled(w: World, i: Input) {
    match i
    case Create(id, _) => id !in w
    case Loaded(id, _) => id in w && w[id].place.Loading? && w[id].place.w.callback.Some?
    case LoaderGone(id) => id in w && w[id].place.Loading?
    case Kill(id) => id in w && (w[id].place.Running? || w[id].place.Bridged?)
    case ProcessExits(id, _) => id in w && w[id].place.Running?
    case OwnerDestroys(id) => id in w && (w[id].place.Running? || w[id].place.Bridged?)
    case RemoteTerminated(id, _, _) => id in w && w[id].place.Bridged? && w[id].place.b.armed
    case RemoteError(id) => id in w && w[id].place.Bridged?
    case _ => true
  }

  function Ends(r: Request, reports: seq<Report>): (r': Request) {
    Request(Ended, r.reports + reports)
  }

  /** The effect of an input on the request it names. */
  function OnRequest(w: World, i: Input): (r: Request)
    requires InputEnabled(w, i) && !i.RunnerTerminated? && !i.RunnerDestroyed?
  {
    match i
    case Create(id, launch) => Created(id, launch)
    case Loaded(id, load) =>
      var r := AfterLoad(w[id].place.w, load);
      r.(reports := w[id].reports + r.reports)
    case LoaderGone(id) => Ends(w[id], w[id].place.w.Dies())
    case Kill(id) =>
      if w[id].place.Running? then w[id].(place := Running(w[id].place.e.Killed())) else w[id]
    case ProcessExits(id, code) =>
      var e := w[id].place.e;
      Ends(w[id], e.ReportsExit(code) + e.(callback := None).Dies())
    case OwnerDestroys(id) =>
      Ends(w[id], if w[id].place.Running? then w[id].place.e.Dies() else w[id].place.b.Dies())
    case RemoteTerminated(id, code, reason) =>
      var b := w[id].place.b;
      Ends(w[id], b.Terminates(code, reason) + b.(armed := false).Dies())
    case RemoteError(id) =>
      var b := w[id].place.b;
      if b.armed then Ends(w[id], b.Terminates(-1, UNKNOWN) + b.(armed := false).Dies()) else w[id]
  }

  predicate OwnedBy(r: Request, runner: nat) {
    r.place.Bridged? && r.place.runner == runner
  }

  function Step(w: World, i: Input): (w': World)
    requires InputEnabled(w, i)
  {
    match i
    case RunnerTerminated(runner) =>
      map id | id in w ::
        if OwnedBy(w[id], runner) then Ends(w[id], w[id].place.b.(reason := RUNNER_TERMINATED).Dies()) else w[id]
    case RunnerDestroyed(runner) =>
      map id | id in w :: if OwnedBy(w[id], runner) then Ends(w[id], w[id].place.b.Dies()) else w[id]
    case _ => w[i.id := OnRequest(w, i)]
  }

  /** None once an input was impossible. */
  function Run(inputs: seq<Input>): (r: Option<World>) {
    if inputs == [] then Some(map[])
    else
      var w := Run(inputs[..|inputs| - 1]);
      if w.Some? && InputEnabled(w.value, inputs[|inputs| - 1]) then Some(Step(w.value, inputs[|inputs| - 1])) else None
  }

  /** Live holders still have the request's callback and nothing was reported; killed holds for ended ones too. */
  predicate Accounted(id: nat, r: Request, silenced: bool) {
    match r.place
    case Loading(w) => w.active && w.callback == Some(id) && r.reports == [] && !silenced
    case Running(e) => e.callback == Some(id) && r.reports == [] && !silenced
    case Bridged(_, b) => b.armed && b.callback == id && r.reports == [] && !silenced
    case Ended =>
      if silenced then r.reports == [] else |r.reports| == 1 && r.reports[0].request == id
  }

  ghost predicate IsRunning(inputs: seq<Input>, id: nat) {
    Run(inputs).Some? && id in Run(inputs).value && Run(inputs).value[id].place.Running?
  }

  predicate WasKilled(inputs: seq<Input>, id: nat) {
    exists j :: 0 <= j < |inputs| && inputs[j] == Kill(id)
  }

  /** Some input destroys request id's ELF controller after it was killed and before its process exited. */
  ghost predicate Silenced(inputs: seq<Input>, id: nat) {
    exists k :: && 0 <= k < |inputs| && inputs[k] == OwnerDestroys(id)
                && WasKilled(inputs[..k], id) && IsRunning(inputs[..k], id)
  }

  lemma HistoryExtends(inputs: seq<Input>, i: Input, id: nat)
    ensures WasKilled(inputs + [i], id) <==> WasKilled(inputs, id) || i == Kill(id)
    ensures Silenced(inputs + [i], id) <==>
            Silenced(inputs, id) || (i == OwnerDestroys(id) && WasKilled(inputs, id) && IsRunning(inputs, id))
  {
    var all := inputs + [i];
    assert forall k :: 0 <= k < |inputs| ==> all[k] == inputs[k] && all[..k] == inputs[..k];
    assert all[|inputs|] == i && all[..|inputs|] == inputs;
  }

  /** What holds of request id in a world, given whether it was killed and silenced so far. */
  predicate Tracked(w: World, id: nat, killed: bool, silenced: bool) {
    if id in w then
      && Accounted(id, w[id], silenced)
      && (w[id].place.Running? ==> (w[id].place.e.job <==> !killed))
      && (w[id].place.Loading? ==> !killed)
    else !killed && !silenced
  }

  lemma OwnInputTracked(w: World, i: Input, killed: bool, silenced: bool)
    requires InputEnabled(w, i) && !i.RunnerTerminated? && !i.RunnerDestroyed?
    requires Tracked(w, i.id, killed, silenced)
    ensures var silenced' := silenced || (i.OwnerDestroys? && killed && w[i.id].place.Running?);
            Tracked(w[i.id := OnRequest(w, i)], i.id, killed || i.Kill?, silenced')
  {
  }

  lemma StepTracked(w: World, i: Input, id: nat, killed: bool, silenced: bool)
    requires InputEnabled(w, i) && Tracked(w, id, killed, silenced)
    ensures var silenced' := silenced || (i == OwnerDestroys(id) && killed && w[id].place.Running?);
            Tracked(Step(w, i), id, killed || i == Kill(id), silenced')
  {
    if !i.RunnerTerminated? && !i.RunnerDestroyed? && i.id == id {
      OwnInputTracked(w, i, killed, silenced);
    }
  }

  /** Everything known about request id after a run. */
  ghost predicate RequestInv(inputs: seq<Input>, id: nat)
    requires Run(inputs).Some?
  {
    Tracked(Run(inputs).value, id, WasKilled(inputs, id), Silenced(inputs, id))
  }

  lemma {:induction false} EveryRequestAccounted(inputs: seq<Input>, id: nat)
    requires Run(inputs).Some?
    ensures RequestInv(inputs, id)
  {
    if inputs != [] {
      var init, i := inputs[..|inputs| - 1], inputs[|inputs| - 1];
      EveryRequestAccounted(init, id);
      SplitLast(inputs);
      HistoryExtends(init, i, id);
      StepTracked(Run(init).value, i, id, WasKilled(init, id), Silenced(init, id));
    }
  }

  /**
   Over every run no request's callback is called twice, nor with another request's id, nor before the
   component ended.
   */
  lemma AtMostOneTermination(inputs: seq<Input>, id: nat)
    requires Run(inputs).Some? && id in Run(inputs).value
    ensures var r := Run(inputs).value[id];
            |r.reports| <= 1 && (r.reports != [] ==> r.place.Ended? && r.reports[0].request == id)
  {
    EveryRequestAccounted(inputs, id);
  }

  /**
   A component that ended was reported exactly once, unless it was an ELF component that was killed
   and whose controller was then destroyed before its process was seen to exit; then never.
   */
  lemma ExactlyOneTermination(inputs: seq<Input>, id: nat)
    requires Run(inputs).Some? && id in Run(inputs).value && Run(inputs).value[id].place.Ended?
    ensures |Run(inputs).value[id].reports| == if Silenced(inputs, id) then 0 else 1
  {
    EveryRequestAccounted(inputs, id);
  }

  /** A runner's termination ends exactly its own bridges, each reported once as RUNNER_TERMINATED. */
  lemma RunnerTerminationReported(inputs: seq<Input>, runner: nat, id: nat)
    requires Run(inputs).Some? && id in Run(inputs).value
    ensures var before, after := Run(inputs).value[id], Step(Run(inputs).value, RunnerTerminated(runner))[id];
            if OwnedBy(before, runner) then after == Request(Ended, [Report(id, -1, RUNNER_TERMINATED)])
            else after == before
  {
    EveryRequestAccounted(inputs, id);
  }

  // ----- what the client of a request sees -----

  /** A request as its client sees it; told is the code and reason of the one report, if there was one. */
  datatype Life =
    | Unborn
    | BeingLoaded
    | InProcess(killed: bool)
    | OnRunner(runner: nat)
    | Over(told: Option<(int, Reason)>)

  function OverWith(code: int, reason: Reason): (l: Life) {
    Over(Some((code, reason)))
  }

  function AfterLaunch(launch: Launch): (l: Life) {
    match launch
    case BadUrl => OverWith(-1, URL_INVALID)
    case PackageUrl => BeingLoaded
    case SchemeRunner(runner) => if runner.Some? then OnRunner(runner.value) else OverWith(-1, RUNNER_FAILED)
  }

  function AfterLoading(load: Load): (l: Life) {
    match load
    case NotFound => OverWith(-1, PACKAGE_NOT_FOUND)
    case BadPackage => OverWith(-1, INTERNAL_ERROR)
    case ElfFailed => OverWith(-1, UNKNOWN)
    case ElfStarted => InProcess(false)
    case PackageRunner(runner) => if runner.Some? then OnRunner(runner.value) else OverWith(-1, INTERNAL_ERROR)
  }

  /** What an input about the request itself makes of its life. */
  function LivesOn(l: Life, i: Input): (l': Life)
    requires !i.RunnerTerminated? && !i.RunnerDestroyed?
  {
    match i
    case Create(_, launch) => AfterLaunch(launch)
    case Loaded(_, load) => AfterLoading(load)
    case LoaderGone(_) => OverWith(-1, UNKNOWN)
    case Kill(_) => if l.InProcess? then InProcess(true) else l
    case ProcessExits(_, code) => OverWith(code, EXITED)
    case OwnerDestroys(_) => if l == InProcess(true) then Over(None) else OverWith(-1, UNKNOWN)
    case RemoteTerminated(_, code, reason) => OverWith(code, reason)
    case RemoteError(_) => OverWith(-1, UNKNOWN)
  }

  /** The life of request id, told without wrappers, controllers and bridges. */
  function LifeOf(inputs: seq<Input>, id: nat): (l: Life) {
    if inputs == [] then Unborn
    else
      var l, i := LifeOf(inputs[..|inputs| - 1], id), inputs[|inputs| - 1];
      if i.RunnerTerminated? then if l == OnRunner(i.runner) then OverWith(-1, RUNNER_TERMINATED) else l
      else if i.RunnerDestroyed? then if l == OnRunner(i.runner) then OverWith(-1, UNKNOWN) else l
      else if i.id == id then LivesOn(l, i)
      else l
  }

  function Told(id: nat, told: Option<(int, Reason)>): (reports: seq<Report>) {
    if told.Some? then [Report(id, told.value.0, told.value.1)] else []
  }

  /** The world holds for request id exactly what its life says, the reports included. */
  predicate Lives(w: World, id: nat, l: Life) {
    if l.Unborn? then id !in w
    else
      && id in w
      && match l
         case BeingLoaded => w[id] == Request(Loading(NewWrapper(id)), [])
         case InProcess(killed) => w[id] == Request(Running(Elf(!killed, Some(id))), [])
         case OnRunner(runner) => w[id] == Request(Bridged(runner, Bridge(id, true, UNKNOWN)), [])
         case Over(told) => w[id] == Request(Ended, Told(id, told))
  }

  lemma OwnInputLives(w: World, i: Input, l: Life)
    requires InputEnabled(w, i) && !i.RunnerTerminated? && !i.RunnerDestroyed? && Lives(w, i.id, l)
    ensures Lives(w[i.id := OnRequest(w, i)], i.id, LivesOn(l, i))
  {
  }

  /**
   Over every run each request is where its life says, and its callback was called with exactly the
   code and reason of the input that ended it.
   */
  lemma {:induction false} EveryLifeIsTold(inputs: seq<Input>, id: nat)
    requires Run(inputs).Some?
    ensures Lives(Run(inputs).value, id, LifeOf(inputs, id))
  {
    if inputs != [] {
      var init, i := inputs[..|inputs| - 1], inputs[|inputs| - 1];
      EveryLifeIsTold(init, id);
      if !i.RunnerTerminated? && !i.RunnerDestroyed? && i.id == id {
        OwnInputLives(Run(init).value, i, LifeOf(init, id));
      }
    }
  }

  /** A process that exits, in any run: its client is told its code, as EXITED, and nothing else. */
  lemma ExitIsReported(inputs: seq<Input>, id: nat, code: int)
    requires Run(inputs + [ProcessExits(id, code)]).Some?
    ensures var w := Run(inputs + [ProcessExits(id, code)]).value;
            id in w && w[id] == Request(Ended, [Report(id, code, EXITED)])
  {
    EveryLifeIsTold(inputs + [ProcessExits(id, code)], id);
    assert (inputs + [ProcessExits(id, code)])[..|inputs|] == inputs;
  }

  lemma RunOne(inputs: seq<Input>, i: Input, w: World, r: Request)
    requires Run(inputs) == Some(w) && InputEnabled(w, i) && !i.RunnerTerminated? && !i.RunnerDestroyed?
    requires OnRequest(w, i) == r
    ensures Run(inputs + [i]) == Some(w[i.id := r])
  {
    assert (inputs + [i])[..|inputs|] == inputs;
  }

  /** The run in which nothing is reported. */
  lemma KilledThenDestroyedIsSilent(id: nat)
    ensures var inputs := [Create(id, PackageUrl), Loaded(id, ElfStarted), Kill(id), OwnerDestroys(id)];
            Run(inputs).Some? && id in Run(inputs).value && Run(inputs).value[id] == Request(Ended, [])
  {
    var i0, i1, i2, i3 := Create(id, PackageUrl), Loaded(id, ElfStarted), Kill(id), OwnerDestroys(id);
    var r0, r1 := Request(Loading(NewWrapper(id)), []), Request(Running(Elf(true, Some(id))), []);
    var r2, r3 := Request(Running(Elf(false, Some(id))), []), Request(Ended, []);
    var w0: World := map[][id := r0];
    RunOne([], i0, map[], r0);
    RunOne([] + [i0], i1, w0, r1);
    RunOne([] + [i0] + [i1], i2, w0[id := r1], r2);
    RunOne([] + [i0] + [i1] + [i2], i3, w0[id := r1][id := r2], r3);
    assert [] + [i0] + [i1] + [i2] + [i3] == [i0, i1, i2, i3];
  }
}
