/** How the realm hands a request's wrapper on, with the objects themselves. */
module Requests {
  import opened Common
  import opened Lifecycle

  class ComponentRequestWrapper {
    var callback: Option<nat>
    var returnCode: int
    var reason: Reason
    var active: bool

    function View(): (w: Wrapper)
      reads this
    {
      Wrapper(active, callback, returnCode, reason)
    }

    constructor (request: nat)
      ensures View() == NewWrapper(request)
    {
      callback, returnCode, reason, active := Some(request), CREATION_FAILED, UNKNOWN, true;
    }

    constructor Move(other: ComponentRequestWrapper)
      modifies other
      ensures View() == old(other.View()).MovedTo() && other.View() == old(other.View()).MovedFrom()
    {
      callback, returnCode, reason, active := other.callback, other.returnCode, other.reason, true;
      new;
      other.callback, other.active := None, false;
    }

    /** Assignment from another wrapper. */
    method Assign(other: ComponentRequestWrapper)
      requires other != this
      modifies this, other
      ensures View() == old(View()).Assigned(old(other.View())) && other.View() == old(other.View()).MovedFrom()
    {
      callback, returnCode, reason := other.callback, other.returnCode, other.reason;
      other.callback, other.active := None, false;
    }

    method SetReturnValues(code: int, reason: Reason)
      modifies this
      ensures View() == old(View()).WithReturnValues(code, reason)
    {
      this.returnCode, this.reason := code, reason;
    }

    method Extract() returns (ok: bool, out: Option<nat>)
      modifies this
      ensures ok == old(active) && out == if ok then old(callback) else None
      ensures View() == if ok then old(View()).MovedFrom() else old(View())
    {
      if !active {
        return false, None;
      }
      out := callback;
      callback, active := None, false;
      return true, out;
    }

    /** The destructor. Calling a callback that was moved out would abort. */
    method Destroy(log: EventLog)
      requires !View().CallsEmpty()
      modifies log
      ensures log.reports == old(log.reports) + View().Dies()
    {
      if active {
        log.Send(Report(callback.value, returnCode, reason));
      }
    }
  }

  /** Who has the callback when a function of the realm returns. */
  datatype Holder =
    | Nobody
    | Loader(w: ComponentRequestWrapper)
    | Controller(c: ComponentControllerImpl)
    | Runner(b: ComponentBridge)
  {
    ghost function Objects(): (objects: set<object>) {
      match this
      case Nobody => {}
      case Loader(w) => {w}
      case Controller(c) => {c}
      case Runner(b) => {b}
    }

    ghost function PlaceIn(runner: Option<nat>): (p: Place)
      reads Objects()
    {
      match this
      case Nobody => Ended
      case Loader(w) => Loading(w.View())
      case Controller(c) => Running(c.View())
      case Runner(b) => if runner.Some? then Bridged(runner.value, b.View()) else Ended
    }
  }

  function Frame(holder: RunnerHolder?): (objects: set<object>) {
    if holder == null then {} else {holder}
  }

  ghost predicate Ready(w: ComponentRequestWrapper)
    reads w
  {
    w.active && w.callback.Some?
  }

  /** The holder that the model knows by `runner`; null is None. */
  ghost predicate Knows(holder: RunnerHolder?, runner: Option<nat>)
    reads Frame(holder), if holder == null then {} else holder.components
  {
    (holder == null <==> runner == None) && (holder != null ==> holder.Valid())
  }

  // A wrapper passed by value is a new one, moved from the caller's and destroyed on return.

  /** The end of CreateComponentWithRunnerForScheme and of CreateRunnerComponentFromPackage. */
  method StartOnRunner(request: ComponentRequestWrapper, holder: RunnerHolder?, ghost runner: Option<nat>,
                       failure: Reason, log: EventLog)
    returns (h: Holder)
    requires Ready(request) && Knows(holder, runner)
    modifies request, log, Frame(holder)
    ensures var r := if runner == None then Fails(old(request.View()), failure)
            else IntoBridge(old(request.View()), runner.value);
            log.reports == old(log.reports) + r.reports && h.PlaceIn(runner) == r.place
  {
    if holder == null {
      request.SetReturnValues(CREATION_FAILED, failure);
      request.Destroy(log);
      return Nobody;
    }
    var ok, callback := request.Extract();
    var b := holder.StartComponent(callback.value);
    request.Destroy(log);
    return Runner(b);
  }

  /** CreateElfBinaryComponentFromPackage: without a process the wrapper dies as it is. */
  method StartElf(request: ComponentRequestWrapper, started: bool, log: EventLog) returns (h: Holder)
    requires Ready(request)
    modifies request, log
    ensures var w := old(request.View());
            var r := if started then IntoElf(w) else Request(Ended, w.Dies());
            log.reports == old(log.reports) + r.reports && h.PlaceIn(None) == r.place
  {
    h := Nobody;
    if started {
      var ok, callback := request.Extract();
      var c := new ComponentControllerImpl(callback.value);
      h := Controller(c);
    }
    request.Destroy(log);
  }

  ghost function RunnerOf(load: Load): (runner: Option<nat>) {
    if load.PackageRunner? then load.runner else None
  }

  method CreateComponentFromPackage(request: ComponentRequestWrapper, load: Load, holder: RunnerHolder?, log: EventLog)
    returns (h: Holder)
    requires !load.NotFound? && Ready(request) && Knows(holder, RunnerOf(load))
    modifies request, log, Frame(holder)
    ensures var r := FromPackage(old(request.View()), load);
            log.reports == old(log.reports) + r.reports && h.PlaceIn(RunnerOf(load)) == r.place
  {
    if load.BadPackage? {
      request.SetReturnValues(CREATION_FAILED, INTERNAL_ERROR);
      request.Destroy(log);
      return Nobody;
    }
    var param := new ComponentRequestWrapper.Move(request);
    if load.PackageRunner? {
      h := StartOnRunner(param, holder, load.runner, INTERNAL_ERROR, log);
    } else {
      h := StartElf(param, load.ElfStarted?, log);
    }
    request.Destroy(log);
  }

  /** The callback that CreateComponent gives to the package loader. */
  method PackageLoaded(request: ComponentRequestWrapper, load: Load, holder: RunnerHolder?, log: EventLog)
    returns (h: Holder)
    requires Ready(request) && Knows(holder, RunnerOf(load))
    modifies request, log, Frame(holder)
    ensures var r := AfterLoad(old(request.View()), load);
            log.reports == old(log.reports) + r.reports && h.PlaceIn(RunnerOf(load)) == r.place
  {
    if load.NotFound? {
      request.SetReturnValues(CREATION_FAILED, PACKAGE_NOT_FOUND);
      h := Nobody;
    } else {
      var param := new ComponentRequestWrapper.Move(request);
      h := CreateComponentFromPackage(param, load, holder, log);
    }
    request.Destroy(log);
  }

  method CreateComponent(id: nat, launch: Launch, holder: RunnerHolder?, log: EventLog) returns (h: Holder)
    requires Knows(holder, if launch.SchemeRunner? then launch.runner else None)
    modifies log, Frame(holder)
    ensures var r := Created(id, launch);
            && log.reports == old(log.reports) + r.reports
            && h.PlaceIn(if launch.SchemeRunner? then launch.runner else None) == r.place
  {
    var request := new ComponentRequestWrapper(id);
    h := Nobody;
    if launch.BadUrl? {
      request.SetReturnValues(CREATION_FAILED, URL_INVALID);
    } else if launch.PackageUrl? {
      var captured := new ComponentRequestWrapper.Move(request);
      h := Loader(captured);
    } else {
      var param := new ComponentRequestWrapper.Move(request);
      h := StartOnRunner(param, holder, launch.runner, RUNNER_FAILED, log);
    }
    request.Destroy(log);
  }
}
