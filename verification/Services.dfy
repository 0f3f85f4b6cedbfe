/** The services a namespace offers: a directory of services, inherited from namespace to namespace. */
module Services {
  import opened Common

  const NAME_MAX: nat := 255

  /** Who provides a service: which namespace, and what it was registered as. */
  datatype Origin = BuiltIn | Additional(index: nat) | Fallback | Late(serial: nat)
  datatype Service = Service(owner: nat, origin: Origin)

  datatype Handle = Handle(name: string, service: Service)

  /** The names the pseudo-directory behind the services accepts. */
  predicate VfsValidName(name: string) {
    |name| <= NAME_MAX && '/' !in name && name != "." && name != ".."
  }

  /** The fields of ServiceProviderDirImpl: whitelist, service_handles_, root_ and all_service_names_. */
  datatype Dir = Dir(whitelist: Option<set<string>>, handles: seq<Handle>, root: map<string, Service>,
                     names: set<string>) {
    predicate Whitelisted(name: string) {
      whitelist.None? || name in whitelist.value
    }

    /** A pseudo-directory refuses invalid and taken names. */
    function WithEntry(name: string, service: Service): (r: map<string, Service>) {
      if VfsValidName(name) && name !in root then root[name := service] else root
    }

    function AddService(h: Handle): (d: Dir) {
      if h.name in names || !Whitelisted(h.name) then this
      else Dir(whitelist, handles + [h], WithEntry(h.name, h.service), names + {h.name})
    }

    function AddAll(hs: seq<Handle>): (d: Dir) {
      if hs == [] then this else AddAll(hs[..|hs| - 1]).AddService(hs[|hs| - 1])
    }

    function Lookup(name: string): (r: Option<Service>) {
      if name in root then Some(root[name]) else None
    }

    /** ConnectToService checks the whitelist first. */
    function Connect(name: string): (r: Option<Service>) {
      if !Whitelisted(name) then None else Lookup(name)
    }
  }

  function Empty(whitelist: Option<set<string>>): (d: Dir) {
    Dir(whitelist, [], map[], {})
  }

  /** The first service registered under a name. */
  function First(hs: seq<Handle>, name: string): (r: Option<Service>) {
    if hs == [] then None
    else
      var earlier := First(hs[..|hs| - 1], name);
      if earlier.Some? then earlier
      else if hs[|hs| - 1].name == name then Some(hs[|hs| - 1].service) else None
  }

  // ----- the three records agree -----

  /** names and handles record the same services, each name once; root has those of them whose names it accepts. */
  ghost predicate Consistent(d: Dir) {
    && (forall n :: n in d.names <==> First(d.handles, n).Some?)
    && (forall n :: n in d.names ==> d.Whitelisted(n))
    && (forall n :: n in d.root <==> n in d.names && VfsValidName(n))
    && (forall n :: n in d.root ==> First(d.handles, n) == Some(d.root[n]))
    && (forall i, j :: 0 <= i < j < |d.handles| ==> d.handles[i].name != d.handles[j].name)
  }

  lemma {:induction false} FirstIsSomeIff(hs: seq<Handle>, name: string)
    ensures First(hs, name).Some? <==> exists i :: 0 <= i < |hs| && hs[i].name == name
    decreases |hs|
  {
    if hs != [] {
      var init := hs[..|hs| - 1];
      FirstIsSomeIff(init, name);
      assert hs[|hs| - 1].name == name ||
             forall i :: 0 <= i < |hs| && hs[i].name == name ==> i < |init| && init[i].name == name;
      assert forall i :: 0 <= i < |init| ==> init[i] == hs[i];
    }
  }

  lemma FirstAppend(hs: seq<Handle>, h: Handle, name: string)
    ensures First(hs + [h], name) ==
            if First(hs, name).Some? then First(hs, name) else if h.name == name then Some(h.service) else None
  {
    assert (hs + [h])[..|hs|] == hs;
  }

  lemma AddServiceConsistent(d: Dir, h: Handle)
    requires Consistent(d)
    ensures Consistent(d.AddService(h))
  {
    var d' := d.AddService(h);
    if d' != d {
      forall n
        ensures First(d'.handles, n) ==
                if First(d.handles, n).Some? then First(d.handles, n) else if h.name == n then Some(h.service) else None
      {
        FirstAppend(d.handles, h, n);
      }
      FirstIsSomeIff(d.handles, h.name);
    }
  }

  lemma {:induction false} AddAllConsistent(d: Dir, hs: seq<Handle>)
    requires Consistent(d)
    ensures Consistent(d.AddAll(hs)) && d.AddAll(hs).whitelist == d.whitelist
  {
    if hs != [] {
      AddAllConsistent(d, hs[..|hs| - 1]);
      AddServiceConsistent(d.AddAll(hs[..|hs| - 1]), hs[|hs| - 1]);
    }
  }

  /** Looking a service up as a directory entry and connecting to it by name find the same service. */
  lemma LookupAgreesWithConnect(d: Dir, name: string)
    requires Consistent(d)
    ensures d.Lookup(name) == d.Connect(name)
  {
  }

  /** The directory shows every recorded service exactly when every recorded name is a valid entry name. */
  lemma RootShowsAllIffNamesValid(d: Dir)
    requires Consistent(d)
    ensures d.root.Keys == d.names <==> forall n :: n in d.names ==> VfsValidName(n)
  {
  }

  /** A name with a slash is recorded, and shadows later services of that name, but is never found. */
  lemma SlashNameIsHidden(service: Service, later: Service)
    ensures var d := Empty(None).AddService(Handle("a/b", service)).AddService(Handle("a/b", later));
            d.names == {"a/b"} && d.handles == [Handle("a/b", service)] && d.Lookup("a/b") == None
  {
    assert "a/b"[1] == '/';
  }

  // ----- registration order decides -----

  /** After registering hs in order, a whitelisted name means its first registration, any other name nothing. */
  lemma {:induction false} FirstRegistrationWins(whitelist: Option<set<string>>, hs: seq<Handle>, name: string)
    ensures var d := Empty(whitelist).AddAll(hs);
            First(d.handles, name) == if Empty(whitelist).Whitelisted(name) then First(hs, name) else None
  {
    if hs != [] {
      var init, h := hs[..|hs| - 1], hs[|hs| - 1];
      FirstRegistrationWins(whitelist, init, name);
      FirstRegistrationWins(whitelist, init, h.name);
      EmptyConsistent(whitelist);
      AddAllConsistent(Empty(whitelist), init);
      FirstAppend(Empty(whitelist).AddAll(init).handles, h, name);
    }
  }

  lemma EmptyConsistent(whitelist: Option<set<string>>)
    ensures Consistent(Empty(whitelist))
  {
  }

  lemma {:induction false} FirstOfConcat(hs: seq<Handle>, more: seq<Handle>, name: string)
    ensures First(hs + more, name) == if First(hs, name).Some? then First(hs, name) else First(more, name)
    decreases |more|
  {
    if more == [] {
      assert hs + more == hs;
    } else {
      assert (hs + more)[..|hs + more| - 1] == hs + more[..|more| - 1];
      FirstOfConcat(hs, more[..|more| - 1], name);
    }
  }

  // ----- namespaces -----

  const BUILT_IN: seq<string> :=
    ["fuchsia.sys.Environment", "fuchsia.sys.Launcher", "fuchsia.process.Launcher", "fuchsia.process.Resolver"]

  const FALLBACK: seq<string> :=
    ["fuchsia.scheduler.ProfileProvider", "fuchsia.kernel.DebugBroker", "fuchsia.device.manager.DebugDumper",
     "fuchsia.device.manager.Administrator", "fuchsia.virtualconsole.SessionManager"]

  /** What a namespace is made from, and the services added to it before a child attaches. */
  datatype Spec = Spec(owner: nat, additional: seq<string>, whitelist: Option<set<string>>, late: seq<string>)

  function Named(names: seq<string>, owner: nat, origin: nat -> Origin): (hs: seq<Handle>)
    ensures |hs| == |names|
    ensures forall i :: 0 <= i < |hs| ==> hs[i] == Handle(names[i], Service(owner, origin(i)))
  {
    seq(|names|, i requires 0 <= i < |names| => Handle(names[i], Service(owner, origin(i))))
  }

  /** The registrations of the constructor, in order: built-ins, additional services, the parent's, fallbacks. */
  function Offered(s: Spec, parent: seq<Handle>): (hs: seq<Handle>) {
    Named(BUILT_IN, s.owner, (_: nat) => BuiltIn) + Named(s.additional, s.owner, (i: nat) => Additional(i)) + parent +
    Named(FALLBACK, s.owner, (_: nat) => Fallback)
  }

  /** A namespace whose parent offered the given services when it attached. */
  function Built(s: Spec, parent: seq<Handle>): (d: Dir) {
    Empty(s.whitelist).AddAll(Offered(s, parent)).AddAll(Named(s.late, s.owner, (i: nat) => Late(i)))
  }

  /** The innermost namespace of a chain; each attaches to the one before it. */
  function Chain(specs: seq<Spec>): (d: Dir)
    requires specs != []
    decreases |specs|, 1
  {
    Built(specs[|specs| - 1], Inherits(specs))
  }

  /** The services that the innermost namespace of a chain finds in its parent. */
  function Inherits(specs: seq<Spec>): (handles: seq<Handle>)
    requires specs != []
    decreases |specs|, 0
  {
    if |specs| == 1 then [] else Chain(specs[..|specs| - 1]).handles
  }

  /** The first position of a name that is there. */
  function Position(names: seq<string>, name: string): (i: nat)
    requires name in names
    ensures i < |names| && names[i] == name && forall j :: 0 <= j < i ==> names[j] != name
  {
    if names[0] == name then 0 else 1 + Position(names[1..], name)
  }

  /**
   What a name should mean in a namespace: nothing unless it is whitelisted; then a built-in, else
   the earliest additional service, else what it meant in the parent, else a fallback, else a
   service added later.
   */
  function Meaning(s: Spec, inherited: Option<Service>, name: string): (r: Option<Service>) {
    if !Empty(s.whitelist).Whitelisted(name) then None
    else if name in BUILT_IN then Some(Service(s.owner, BuiltIn))
    else if name in s.additional then Some(Service(s.owner, Additional(Position(s.additional, name))))
    else if inherited.Some? then inherited
    else if name in FALLBACK then Some(Service(s.owner, Fallback))
    else if name in s.late then Some(Service(s.owner, Late(Position(s.late, name))))
    else None
  }

  /** The meaning of a name in the innermost namespace of a chain. */
  function Resolution(specs: seq<Spec>, name: string): (r: Option<Service>) {
    if specs == [] then None
    else Meaning(specs[|specs| - 1], Resolution(specs[..|specs| - 1], name), name)
  }

  lemma {:induction false} FirstOfNamed(names: seq<string>, owner: nat, origin: nat -> Origin, name: string, k: nat)
    requires k <= |names|
    ensures First(Named(names, owner, origin)[..k], name) ==
            if name in names[..k] then Some(Service(owner, origin(Position(names, name)))) else None
  {
    var hs := Named(names, owner, origin);
    if k > 0 {
      FirstOfNamed(names, owner, origin, name, k - 1);
      assert hs[..k] == hs[..k - 1] + [hs[k - 1]];
      assert names[..k] == names[..k - 1] + [names[k - 1]];
      FirstAppend(hs[..k - 1], hs[k - 1], name);
      if name !in names[..k - 1] && name == names[k - 1] {
        assert forall j :: 0 <= j < k - 1 ==> names[..k - 1][j] == names[j];
        PositionIs(names, name, k - 1);
      }
    }
  }

  lemma PositionIs(names: seq<string>, name: string, k: nat)
    requires k < |names| && names[k] == name && forall j :: 0 <= j < k ==> names[j] != name
    ensures Position(names, name) == k
  {
  }

  lemma FirstNamed(names: seq<string>, owner: nat, origin: nat -> Origin, name: string)
    ensures First(Named(names, owner, origin), name) ==
            if name in names then Some(Service(owner, origin(Position(names, name)))) else None
  {
    FirstOfNamed(names, owner, origin, name, |names|);
    assert Named(names, owner, origin)[..|names|] == Named(names, owner, origin);
    assert names[..|names|] == names;
  }

  lemma FirstOffered(s: Spec, parent: seq<Handle>, name: string)
    ensures First(Offered(s, parent), name) ==
            if name in BUILT_IN then Some(Service(s.owner, BuiltIn))
            else if name in s.additional then Some(Service(s.owner, Additional(Position(s.additional, name))))
            else if First(parent, name).Some? then First(parent, name)
            else if name in FALLBACK then Some(Service(s.owner, Fallback)) else None
  {
    var b, a := Named(BUILT_IN, s.owner, (_: nat) => BuiltIn), Named(s.additional, s.owner, (i: nat) => Additional(i));
    var f := Named(FALLBACK, s.owner, (_: nat) => Fallback);
    FirstNamed(BUILT_IN, s.owner, (_: nat) => BuiltIn, name);
    FirstNamed(s.additional, s.owner, (i: nat) => Additional(i), name);
    FirstNamed(FALLBACK, s.owner, (_: nat) => Fallback, name);
    FirstOfConcat(b, a, name);
    FirstOfConcat(b + a, parent, name);
    FirstOfConcat(b + a + parent, f, name);
  }

  lemma {:induction false} AddAllTwice(d: Dir, hs: seq<Handle>, more: seq<Handle>)
    ensures d.AddAll(hs).AddAll(more) == d.AddAll(hs + more)
    decreases |more|
  {
    if more == [] {
      assert hs + more == hs;
    } else {
      assert (hs + more)[..|hs + more| - 1] == hs + more[..|more| - 1];
      AddAllTwice(d, hs, more[..|more| - 1]);
    }
  }

  /** The services of a built namespace, from those of its parent at the time it attached. */
  lemma BuiltResolves(s: Spec, parent: seq<Handle>, name: string)
    ensures Consistent(Built(s, parent))
    ensures First(Built(s, parent).handles, name) ==
            if !Empty(s.whitelist).Whitelisted(name) then None
            else if First(Offered(s, parent), name).Some? then First(Offered(s, parent), name)
            else if name in s.late then Some(Service(s.owner, Late(Position(s.late, name)))) else None
  {
    var offered, late := Offered(s, parent), Named(s.late, s.owner, (i: nat) => Late(i));
    AddAllTwice(Empty(s.whitelist), offered, late);
    EmptyConsistent(s.whitelist);
    AddAllConsistent(Empty(s.whitelist), offered + late);
    FirstRegistrationWins(s.whitelist, offered + late, name);
    FirstOfConcat(offered, late, name);
    FirstNamed(s.late, s.owner, (i: nat) => Late(i), name);
  }

  lemma LevelResolves(s: Spec, parent: seq<Handle>, name: string)
    ensures First(Built(s, parent).handles, name) == Meaning(s, First(parent, name), name)
  {
    FirstOffered(s, parent, name);
    BuiltResolves(s, parent, name);
  }

  lemma ConsistentLookup(d: Dir, name: string)
    requires Consistent(d)
    ensures d.Lookup(name) == if VfsValidName(name) then First(d.handles, name) else None
  {
  }

  /** For a chain of any depth, every name resolves as it should; and it can be looked up if its name is valid. */
  lemma {:induction false} ChainResolves(specs: seq<Spec>, name: string)
    requires specs != []
    ensures First(Chain(specs).handles, name) == Resolution(specs, name)
    ensures Chain(specs).Lookup(name) == if VfsValidName(name) then Resolution(specs, name) else None
  {
    var n := |specs| - 1;
    if n > 0 {
      ChainResolves(specs[..n], name);
    }
    LevelLookup(specs[n], Inherits(specs), Resolution(specs[..n], name), name);
  }

  lemma LevelLookup(s: Spec, parent: seq<Handle>, inherited: Option<Service>, name: string)
    requires First(parent, name) == inherited
    ensures First(Built(s, parent).handles, name) == Meaning(s, inherited, name)
    ensures Built(s, parent).Lookup(name) == if VfsValidName(name) then Meaning(s, inherited, name) else None
  {
    LevelResolves(s, parent, name);
    BuiltResolves(s, parent, name);
    ConsistentLookup(Built(s, parent), name);
  }

  // ----- the objects -----

  class ServiceProviderDirImpl {
    const whitelist: Option<set<string>>
    var serviceHandles: seq<Handle>
    var root: map<string, Service>
    var allServiceNames: set<string>
    var parent: ServiceProviderDirImpl?

    function View(): (d: Dir)
      reads this
    {
      Dir(whitelist, serviceHandles, root, allServiceNames)
    }

    constructor (whitelist: Option<set<string>>)
      ensures View() == Empty(whitelist) && parent == null
    {
      this.whitelist := whitelist;
      serviceHandles, root, allServiceNames, parent := [], map[], {}, null;
    }

    method AddService(name: string, service: Service)
      modifies this`serviceHandles, this`root, this`allServiceNames
      ensures View() == old(View()).AddService(Handle(name, service))
    {
      if name in allServiceNames {
        return;
      }
      if whitelist.None? || name in whitelist.value {
        serviceHandles := serviceHandles + [Handle(name, service)];
        if VfsValidName(name) && name !in root {
          root := root[name := service];
        }
        allServiceNames := allServiceNames + {name};
      }
    }

    /** Copies the parent's services as they are now; a second call does nothing. */
    method SetParent(p: ServiceProviderDirImpl)
      requires p != this
      modifies this
      ensures View() == if old(parent) != null then old(View()) else old(View()).AddAll(p.serviceHandles)
      ensures parent == if old(parent) != null then old(parent) else p
    {
      if parent != null {
        return;
      }
      parent := p;
      for i := 0 to |p.serviceHandles|
        invariant View() == old(View()).AddAll(p.serviceHandles[..i])
        invariant parent == p && p.serviceHandles == old(p.serviceHandles)
      {
        AddService(p.serviceHandles[i].name, p.serviceHandles[i].service);
        assert p.serviceHandles[..i + 1][..i] == p.serviceHandles[..i];
      }
      assert p.serviceHandles[..|p.serviceHandles|] == p.serviceHandles;
    }

    method AddNamed(names: seq<string>, owner: nat, origin: nat -> Origin)
      modifies this`serviceHandles, this`root, this`allServiceNames
      ensures View() == old(View()).AddAll(Named(names, owner, origin))
    {
      ghost var hs := Named(names, owner, origin);
      for i := 0 to |names|
        invariant View() == old(View()).AddAll(hs[..i])
      {
        AddService(names[i], Service(owner, origin(i)));
        assert hs[..i + 1][..i] == hs[..i];
      }
      assert hs[..|hs|] == hs;
    }
  }

  /** The constructor of Namespace, as far as its services go. */
  method MakeNamespace(parent: ServiceProviderDirImpl?, owner: nat, additional: seq<string>,
                       whitelist: Option<set<string>>)
    returns (services: ServiceProviderDirImpl)
    ensures fresh(services)
    ensures services.View() ==
            Built(Spec(owner, additional, whitelist, []), if parent == null then [] else parent.serviceHandles)
  {
    ghost var inherited := if parent == null then [] else parent.serviceHandles;
    services := new ServiceProviderDirImpl(whitelist);
    services.AddNamed(BUILT_IN, owner, (_: nat) => BuiltIn);
    services.AddNamed(additional, owner, (i: nat) => Additional(i));
    if parent != null {
      services.SetParent(parent);
    }
    services.AddNamed(FALLBACK, owner, (_: nat) => Fallback);
    ghost var b, a := Named(BUILT_IN, owner, (_: nat) => BuiltIn), Named(additional, owner, (i: nat) => Additional(i));
    ghost var f := Named(FALLBACK, owner, (_: nat) => Fallback);
    AddAllTwice(Empty(whitelist), b, a);
    AddAllTwice(Empty(whitelist), b + a, inherited);
    AddAllTwice(Empty(whitelist), b + a + inherited, f);
  }
}
