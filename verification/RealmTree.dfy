/** The tree of realms, the storage path each is given, and what its death deletes. */
module RealmTree {
  import opened Common
  import opened Storage

  const LABEL_MAX_LENGTH: nat := 32
  const ROOT: nat := 0

  /** A live realm: `requested` is the label it was created with, `stored` the truncated one it keeps. */
  datatype Realm = Realm(parent: Option<nat>, requested: string, stored: string,
                         dataPath: string, cachePath: string, deleteOnDeath: bool)

  type Tree = map<nat, Realm>

  /** The realms by identity, the files that exist, and the next unused identity. */
  datatype System = System(realms: Tree, files: set<string>, next: nat)

  predicate LabelChar(c: char) {
    '0' <= c <= '9' || 'a' <= c <= 'z' || 'A' <= c <= 'Z' || c in ".-_:#"
  }

  predicate IsValidEnvironmentLabel(name: string) {
    && name != ""
    && (forall i :: 0 <= i < |name| ==> LabelChar(name[i]))
    && name != "." && name != ".."
  }

  function Truncated(name: string): (t: string) {
    if |name| <= LABEL_MAX_LENGTH then name else name[..LABEL_MAX_LENGTH]
  }

  /** Parents are live and older than their children; only the root has none. */
  predicate WellFounded(t: Tree) {
    && ROOT in t
    && forall id :: id in t ==>
         if id == ROOT then t[id].parent == None
         else t[id].parent.Some? && t[id].parent.value in t && t[id].parent.value < id
  }

  /** The requested labels from the root down to a realm. */
  function Labels(t: Tree, id: nat): (labels: seq<string>)
    requires WellFounded(t) && id in t
  {
    if id == ROOT then [] else Labels(t, t[id].parent.value) + [t[id].requested]
  }

  predicate IsAncestor(t: Tree, a: nat, d: nat)
    requires WellFounded(t) && a in t && d in t
    decreases d
  {
    a == d || (d != ROOT && IsAncestor(t, a, t[d].parent.value))
  }

  /** A realm's label is acceptable, its stored label truncated, and its paths follow its labels. */
  predicate ValidRealm(t: Tree, id: nat)
    requires WellFounded(t) && id in t
  {
    && (id != ROOT ==> IsValidEnvironmentLabel(t[id].requested))
    && t[id].stored == Truncated(t[id].requested)
    && t[id].dataPath == Render(DATA_ROOT + Nested(Labels(t, id)))
    && t[id].cachePath == Render(CACHE_ROOT + Nested(Labels(t, id)))
  }

  predicate ValidTree(t: Tree) {
    WellFounded(t) && forall id :: id in t ==> ValidRealm(t, id)
  }

  predicate Valid(s: System) {
    ValidTree(s.realms) && forall id :: id in s.realms ==> id < s.next
  }

  function Initial(rootLabel: string): (s: System) {
    System(map[ROOT := Realm(None, rootLabel, Truncated(rootLabel), "/data", "/data/cache", false)], {}, 1)
  }

  // ----- operations -----

  datatype Outcome = Created | InvalidArgs | BadState | NotCreated

  /** How the rest of a creation goes: services without a directory, no job for the realm, or neither. */
  datatype Setup = BadServices | NoJob | Ready

  function NestedRealm(t: Tree, parent: nat, name: string, deleteOnDeath: bool): (r: Realm)
    requires parent in t
  {
    Realm(Some(parent), name, Truncated(name), JoinPath(t[parent].dataPath, "r/" + name),
          JoinPath(t[parent].cachePath, "r/" + name), deleteOnDeath)
  }

  /** A child of the realm is stored under this label. */
  predicate LabelInUse(t: Tree, parent: nat, name: string) {
    exists c :: c in t && t[c].parent == Some(parent) && t[c].stored == name
  }

  /** CreateNestedEnvironment. The new realm's identity is s.next. */
  function Create(s: System, parent: nat, name: string, setup: Setup, deleteOnDeath: bool): (r: (System, Outcome))
    requires parent in s.realms
  {
    if !IsValidEnvironmentLabel(name) then (s, InvalidArgs)
    else if LabelInUse(s.realms, parent, name) then (s, BadState)
    else if setup.BadServices? then (s, InvalidArgs)
    else if setup.NoJob? then (s, NotCreated)
    else
      var child := NestedRealm(s.realms, parent, name, deleteOnDeath);
      (System(s.realms[s.next := child], s.files, s.next + 1), Created)
  }

  function Doomed(t: Tree, id: nat): (ids: set<nat>)
    requires WellFounded(t) && id in t
  {
    set d | d in t && IsAncestor(t, id, d)
  }

  /** The destructor of a realm with delete_storage_on_death removes what is at or below its two paths. */
  predicate Deletes(r: Realm, file: string) {
    r.deleteOnDeath && (Under(file, r.dataPath) || Under(file, r.cachePath))
  }

  function Surviving(files: set<string>, t: Tree, dead: set<nat>): (left: set<string>)
    requires dead <= t.Keys
  {
    set f | f in files && forall d :: d in dead ==> !Deletes(t[d], f)
  }

  /** A realm dies and, with it, every realm nested in it. */
  function Kill(s: System, id: nat): (s': System)
    requires WellFounded(s.realms) && id in s.realms && id != ROOT
  {
    var dead := Doomed(s.realms, id);
    System(s.realms - dead, Surviving(s.files, s.realms, dead), s.next)
  }

  // ----- the tree stays valid -----

  lemma {:induction false} LabelsAgree(t: Tree, u: Tree, id: nat)
    requires WellFounded(t) && WellFounded(u) && id in t && id in u
    requires forall k :: k in t && k in u ==> t[k].parent == u[k].parent && t[k].requested == u[k].requested
    ensures Labels(t, id) == Labels(u, id)
    decreases id
  {
    if id != ROOT {
      LabelsAgree(t, u, t[id].parent.value);
    }
  }

  lemma {:induction false} LabelsAreNames(t: Tree, id: nat)
    requires ValidTree(t) && id in t
    ensures AreNames(Labels(t, id))
    decreases id
  {
    if id != ROOT {
      LabelsAreNames(t, t[id].parent.value);
      assert ValidRealm(t, id);
      ValidLabelIsName(t[id].requested);
    }
  }

  lemma ValidLabelIsName(name: string)
    requires IsValidEnvironmentLabel(name)
    ensures IsName(name)
  {
    assert forall i :: 0 <= i < |name| ==> name[i] != '/';
  }

  lemma InitialIsValid(rootLabel: string)
    ensures Valid(Initial(rootLabel))
  {
    var t := Initial(rootLabel).realms;
    assert Labels(t, ROOT) == [];
    assert DATA_ROOT[..0] == [] && CACHE_ROOT[..1] == DATA_ROOT;
    assert Render(DATA_ROOT) == "/data";
    assert Render(CACHE_ROOT) == "/data/cache";
    assert DATA_ROOT + [] == DATA_ROOT && CACHE_ROOT + [] == CACHE_ROOT;
  }

  lemma RootsAreNames()
    ensures AreNames(DATA_ROOT) && AreNames(CACHE_ROOT)
  {
    assert IsName("data") && IsName("cache");
  }

  lemma NestedRealmPaths(t: Tree, parent: nat, name: string, deleteOnDeath: bool)
    requires ValidTree(t) && parent in t && IsValidEnvironmentLabel(name)
    ensures var r := NestedRealm(t, parent, name, deleteOnDeath);
            && r.dataPath == Render(DATA_ROOT + Nested(Labels(t, parent) + [name]))
            && r.cachePath == Render(CACHE_ROOT + Nested(Labels(t, parent) + [name]))
  {
    RootsAreNames();
    LabelsAreNames(t, parent);
    ValidLabelIsName(name);
    NestedPathIsRendered(DATA_ROOT, Labels(t, parent), name);
    NestedPathIsRendered(CACHE_ROOT, Labels(t, parent), name);
  }

  lemma OldRealmStaysValid(t: Tree, u: Tree, id: nat)
    requires ValidTree(t) && WellFounded(u) && id in t && id in u
    requires forall k :: k in t && k in u ==> t[k] == u[k]
    ensures ValidRealm(u, id)
  {
    assert ValidRealm(t, id);
    LabelsAgree(t, u, id);
  }

  lemma NewRealmIsValid(t: Tree, u: Tree, id: nat, parent: nat, name: string, deleteOnDeath: bool)
    requires ValidTree(t) && WellFounded(u) && parent in t && parent in u && id in u && id != ROOT
    requires IsValidEnvironmentLabel(name) && u[id] == NestedRealm(t, parent, name, deleteOnDeath)
    requires forall k :: k in t && k in u ==> t[k] == u[k]
    ensures ValidRealm(u, id)
  {
    LabelsAgree(t, u, parent);
    NestedRealmPaths(t, parent, name, deleteOnDeath);
  }

  lemma TreeWithChild(t: Tree, id: nat, parent: nat, name: string, deleteOnDeath: bool)
    requires ValidTree(t) && parent in t && IsValidEnvironmentLabel(name)
    requires forall k :: k in t ==> k < id
    ensures ValidTree(t[id := NestedRealm(t, parent, name, deleteOnDeath)])
  {
    var u := t[id := NestedRealm(t, parent, name, deleteOnDeath)];
    assert WellFounded(u);
    NewRealmIsValid(t, u, id, parent, name, deleteOnDeath);
    forall k | k in t ensures ValidRealm(u, k) { OldRealmStaysValid(t, u, k); }
  }

  lemma CreateKeepsValid(s: System, parent: nat, name: string, setup: Setup, deleteOnDeath: bool)
    requires Valid(s) && parent in s.realms
    ensures Valid(Create(s, parent, name, setup, deleteOnDeath).0)
  {
    if IsValidEnvironmentLabel(name) {
      TreeWithChild(s.realms, s.next, parent, name, deleteOnDeath);
    }
  }

  lemma {:induction false} AncestorTransitive(t: Tree, a: nat, b: nat, c: nat)
    requires WellFounded(t) && a in t && b in t && c in t
    requires IsAncestor(t, a, b) && IsAncestor(t, b, c)
    ensures IsAncestor(t, a, c)
    decreases c
  {
    if b != c {
      AncestorTransitive(t, a, b, t[c].parent.value);
    }
  }

  lemma {:induction false} AncestorIsOlder(t: Tree, a: nat, d: nat)
    requires WellFounded(t) && a in t && d in t && IsAncestor(t, a, d)
    ensures a <= d
    decreases d
  {
    if a != d {
      AncestorIsOlder(t, a, t[d].parent.value);
    }
  }

  lemma {:induction false} OnlyRootIsAboveRoot(t: Tree, a: nat)
    requires WellFounded(t) && a in t
    ensures IsAncestor(t, a, ROOT) <==> a == ROOT
  {
  }

  lemma SubtreeRemoved(t: Tree, id: nat)
    requires ValidTree(t) && id in t && id != ROOT
    ensures var u := t - Doomed(t, id);
            ValidTree(u) && forall k :: k in u ==> Labels(u, k) == Labels(t, k)
  {
    var u := t - Doomed(t, id);
    OnlyRootIsAboveRoot(t, id);
    assert WellFounded(u);
    forall k | k in u
      ensures ValidRealm(u, k) && Labels(u, k) == Labels(t, k)
    {
      OldRealmStaysValid(t, u, k);
      LabelsAgree(t, u, k);
    }
  }

  lemma KillKeepsValid(s: System, id: nat)
    requires Valid(s) && id in s.realms && id != ROOT
    ensures Valid(Kill(s, id))
  {
    SubtreeRemoved(s.realms, id);
  }

  // ----- what creating and killing a realm comes to -----

  /** Letters, digits and the characters of `-_.:#` make a label, but for one or two dots alone. */
  lemma PlainLabelIsValid(name: string)
    requires name != "" && name != "." && name != ".."
    requires forall i :: 0 <= i < |name| ==>
               || 'a' <= name[i] <= 'z' || 'A' <= name[i] <= 'Z' || '0' <= name[i] <= '9'
               || name[i] == '-' || name[i] == '_' || name[i] == '.' || name[i] == ':' || name[i] == '#'
    ensures IsValidEnvironmentLabel(name)
  {
  }

  /** Some child was created with this label, or with a longer one of which this is the first 32 characters. */
  predicate IsTaken(t: Tree, parent: nat, name: string) {
    exists c :: c in t && t[c].parent == Some(parent) && FirstPart(t[c].requested, name)
  }

  predicate FirstPart(used: string, name: string) {
    used == name || (|used| > 32 && |name| == 32 && name <= used)
  }

  lemma TakenIff(s: System, parent: nat, name: string)
    requires Valid(s) && |name| <= 32
    ensures LabelInUse(s.realms, parent, name) <==> IsTaken(s.realms, parent, name)
  {
    forall c | c in s.realms
      ensures s.realms[c].stored == name <==> FirstPart(s.realms[c].requested, name)
    {
      assert ValidRealm(s.realms, c);
    }
  }

  /** A name of more than 32 characters is never in use, whatever the children are called. */
  lemma LongIsNeverTaken(s: System, parent: nat, name: string)
    requires Valid(s) && |name| > 32
    ensures !LabelInUse(s.realms, parent, name)
  {
    forall c | c in s.realms
      ensures s.realms[c].stored != name
    {
      assert ValidRealm(s.realms, c);
    }
  }

  /** The outcome of a creation. */
  lemma CreateOutcome(s: System, parent: nat, name: string, setup: Setup, deleteOnDeath: bool)
    requires Valid(s) && parent in s.realms
    ensures var outcome := Create(s, parent, name, setup, deleteOnDeath).1;
            var taken := |name| <= 32 && IsTaken(s.realms, parent, name);
            && (outcome == Created <==> IsValidEnvironmentLabel(name) && !taken && setup.Ready?)
            && (outcome == BadState <==> IsValidEnvironmentLabel(name) && taken)
            && (outcome == NotCreated <==> IsValidEnvironmentLabel(name) && !taken && setup.NoJob?)
            && (outcome == InvalidArgs <==> !IsValidEnvironmentLabel(name) || (!taken && setup.BadServices?))
  {
    if |name| <= 32 {
      TakenIff(s, parent, name);
    } else {
      LongIsNeverTaken(s, parent, name);
    }
  }

  lemma NestedText(root: seq<string>, labels: seq<string>, name: string)
    ensures Render(root + Nested(labels + [name])) == Render(root + Nested(labels)) + "/r/" + name
  {
    assert (labels + [name])[..|labels|] == labels;
    assert root + Nested(labels + [name]) == root + Nested(labels) + ["r", name];
    RenderAppend(root + Nested(labels), ["r", name]);
    assert ["r", name] == ["r"] + [name];
    RenderAppend(["r"], [name]);
    RenderOne("r");
    RenderOne(name);
  }

  lemma ChildPaths(s: System, parent: nat, name: string, deleteOnDeath: bool)
    requires Valid(s) && parent in s.realms && IsValidEnvironmentLabel(name)
    ensures var r := NestedRealm(s.realms, parent, name, deleteOnDeath);
            && r.dataPath == s.realms[parent].dataPath + "/r/" + name
            && r.cachePath == s.realms[parent].cachePath + "/r/" + name
  {
    assert ValidRealm(s.realms, parent);
    NestedRealmPaths(s.realms, parent, name, deleteOnDeath);
    NestedText(DATA_ROOT, Labels(s.realms, parent), name);
    NestedText(CACHE_ROOT, Labels(s.realms, parent), name);
  }

  /** A creation that succeeds adds one realm with the paths below its parent's; any other changes nothing. */
  lemma CreateAdds(s: System, parent: nat, name: string, setup: Setup, deleteOnDeath: bool)
    requires Valid(s) && parent in s.realms
    ensures var (s', outcome) := Create(s, parent, name, setup, deleteOnDeath);
            if outcome != Created then s' == s
            else
              && s'.files == s.files && s'.realms.Keys == s.realms.Keys + {s.next}
              && (forall id :: id in s.realms ==> s'.realms[id] == s.realms[id])
              && var r := s'.realms[s.next];
                 && r.parent == Some(parent) && r.requested == name && r.deleteOnDeath == deleteOnDeath
                 && r.dataPath == s.realms[parent].dataPath + "/r/" + name
                 && r.cachePath == s.realms[parent].cachePath + "/r/" + name
  {
    if IsValidEnvironmentLabel(name) {
      ChildPaths(s, parent, name, deleteOnDeath);
    }
  }

  /** A name that stays within its directory when used in a path. */
  predicate StaysInside(c: string) {
    c != "" && c != "." && c != ".." && '/' !in c
  }

  lemma {:induction false} LabelsStayInside(t: Tree, id: nat)
    requires ValidTree(t) && id in t
    ensures forall l :: l in Labels(t, id) ==> StaysInside(l)
    decreases id
  {
    if id != ROOT {
      LabelsStayInside(t, t[id].parent.value);
      assert ValidRealm(t, id);
      ValidLabelIsName(t[id].requested);
    }
  }

  lemma {:induction false} NestedStayInside(labels: seq<string>)
    requires forall l :: l in labels ==> StaysInside(l)
    ensures forall c :: c in Nested(labels) ==> StaysInside(c)
  {
    if labels != [] {
      NestedStayInside(labels[..|labels| - 1]);
      assert StaysInside("r");
    }
  }

  /** The paths of a realm are their root's, continued by names that stay inside: none is empty, `.` or `..`. */
  lemma PathsStayInside(t: Tree, id: nat)
    requires ValidTree(t) && id in t
    ensures exists cs :: && (forall c :: c in cs ==> StaysInside(c))
                         && t[id].dataPath == Render(DATA_ROOT + cs) && t[id].cachePath == Render(CACHE_ROOT + cs)
  {
    LabelsStayInside(t, id);
    NestedStayInside(Labels(t, id));
    assert ValidRealm(t, id);
  }

  /** p leads from a realm upwards, from parent to parent. */
  ghost predicate IsLineage(t: Tree, p: seq<nat>) {
    && p != [] && (forall i :: 0 <= i < |p| ==> p[i] in t)
    && forall i :: 0 <= i < |p| - 1 ==> t[p[i]].parent == Some(p[i + 1])
  }

  ghost predicate DescendsFrom(t: Tree, d: nat, a: nat) {
    exists p :: IsLineage(t, p) && p[0] == d && p[|p| - 1] == a
  }

  lemma {:induction false} AncestorIff(t: Tree, a: nat, d: nat)
    requires WellFounded(t) && a in t && d in t
    ensures IsAncestor(t, a, d) <==> DescendsFrom(t, d, a)
    decreases d
  {
    if a == d {
      assert IsLineage(t, [d]);
    } else {
      if d != ROOT {
        AncestorIff(t, a, t[d].parent.value);
      }
      if IsAncestor(t, a, d) {
        var p :| IsLineage(t, p) && p[0] == t[d].parent.value && p[|p| - 1] == a;
        assert IsLineage(t, [d] + p);
      }
      if DescendsFrom(t, d, a) {
        var p :| IsLineage(t, p) && p[0] == d && p[|p| - 1] == a;
        assert t[p[0]].parent == Some(p[1]);
        assert IsLineage(t, p[1..]) && p[1..][0] == t[d].parent.value;
      }
    }
  }

  /** A death takes exactly the realms that descend from it, and leaves the others as they are. */
  lemma KilledIff(s: System, id: nat, d: nat)
    requires Valid(s) && id in s.realms && id != ROOT && d in s.realms
    ensures d !in Kill(s, id).realms <==> DescendsFrom(s.realms, d, id)
    ensures d in Kill(s, id).realms ==> Kill(s, id).realms[d] == s.realms[d]
  {
    AncestorIff(s.realms, id, d);
  }

  // ----- paths reflect the tree -----

  /** No two live siblings were created with the same label. */
  predicate SiblingsDistinct(t: Tree) {
    forall a, b :: a in t && b in t && a != b && a != ROOT && b != ROOT && t[a].parent == t[b].parent
                   ==> t[a].requested != t[b].requested
  }

  predicate PathsDistinct(t: Tree) {
    forall a, b :: a in t && b in t && a != b ==> t[a].dataPath != t[b].dataPath && t[a].cachePath != t[b].cachePath
  }

  lemma {:induction false} AncestorLabels(t: Tree, a: nat, d: nat)
    requires WellFounded(t) && a in t && d in t && IsAncestor(t, a, d)
    ensures Labels(t, a) <= Labels(t, d)
    decreases d
  {
    if a != d {
      AncestorLabels(t, a, t[d].parent.value);
    }
  }

  lemma {:induction false} SameLabelsSameRealm(t: Tree, a: nat, b: nat)
    requires WellFounded(t) && SiblingsDistinct(t) && a in t && b in t
    requires Labels(t, a) == Labels(t, b)
    ensures a == b
    decreases a
  {
    if a != ROOT && b != ROOT {
      var pa, pb := t[a].parent.value, t[b].parent.value;
      var la, lb := Labels(t, a), Labels(t, b);
      assert Labels(t, pa) == la[..|la| - 1] == lb[..|lb| - 1] == Labels(t, pb);
      assert t[a].requested == la[|la| - 1] == lb[|lb| - 1] == t[b].requested;
      SameLabelsSameRealm(t, pa, pb);
    }
  }

  lemma {:induction false} PrefixLabelsAncestor(t: Tree, a: nat, d: nat)
    requires WellFounded(t) && SiblingsDistinct(t) && a in t && d in t
    requires Labels(t, a) <= Labels(t, d)
    ensures IsAncestor(t, a, d)
    decreases d
  {
    if |Labels(t, a)| == |Labels(t, d)| {
      assert Labels(t, a) == Labels(t, d);
      SameLabelsSameRealm(t, a, d);
    } else {
      PrefixLabelsAncestor(t, a, t[d].parent.value);
    }
  }

  lemma PathNames(t: Tree, id: nat)
    requires ValidTree(t) && id in t
    ensures AreNames(DATA_ROOT + Nested(Labels(t, id))) && AreNames(CACHE_ROOT + Nested(Labels(t, id)))
  {
    RootsAreNames();
    LabelsAreNames(t, id);
    NestedAreNames(Labels(t, id));
    NamesAppend(DATA_ROOT, Nested(Labels(t, id)));
    NamesAppend(CACHE_ROOT, Nested(Labels(t, id)));
  }

  lemma NamesAppend(cs: seq<string>, ds: seq<string>)
    requires AreNames(cs) && AreNames(ds)
    ensures AreNames(cs + ds)
  {
  }

  lemma RootedPrefix(root: seq<string>, cs: seq<string>, ds: seq<string>)
    ensures root + ds <= root + cs <==> ds <= cs
  {
    if root + ds <= root + cs {
      assert ds == (root + ds)[|root|..] && cs == (root + cs)[|root|..];
    }
  }

  lemma UnderIffLabels(t: Tree, a: nat, b: nat)
    requires ValidTree(t) && a in t && b in t
    ensures Under(t[a].dataPath, t[b].dataPath) <==> Labels(t, b) <= Labels(t, a)
    ensures Under(t[a].cachePath, t[b].cachePath) <==> Labels(t, b) <= Labels(t, a)
  {
    var la, lb := Labels(t, a), Labels(t, b);
    PathNames(t, a);
    PathNames(t, b);
    UnderIffPrefix(DATA_ROOT + Nested(la), DATA_ROOT + Nested(lb));
    UnderIffPrefix(CACHE_ROOT + Nested(la), CACHE_ROOT + Nested(lb));
    RootedPrefix(DATA_ROOT, Nested(la), Nested(lb));
    RootedPrefix(CACHE_ROOT, Nested(la), Nested(lb));
    PrefixOfOwned(lb, la, []);
    assert Nested(la) + [] == Nested(la);
  }

  /**
   With distinct sibling labels, one realm's storage is at or below another's exactly when it is
   nested in it, for data and for cache; so no two realms share a path.
   */
  lemma PathsReflectTree(t: Tree, a: nat, b: nat)
    requires ValidTree(t) && SiblingsDistinct(t) && a in t && b in t
    ensures Under(t[a].dataPath, t[b].dataPath) <==> IsAncestor(t, b, a)
    ensures Under(t[a].cachePath, t[b].cachePath) <==> IsAncestor(t, b, a)
    ensures (t[a].dataPath == t[b].dataPath <==> a == b) && (t[a].cachePath == t[b].cachePath <==> a == b)
  {
    UnderIffLabels(t, a, b);
    UnderIffLabels(t, b, a);
    if Labels(t, b) <= Labels(t, a) {
      PrefixLabelsAncestor(t, b, a);
      if Labels(t, a) <= Labels(t, b) {
        SameLabelsSameRealm(t, a, b);
      }
    }
    if IsAncestor(t, b, a) {
      AncestorLabels(t, b, a);
    }
  }

  /** Nested data and nested cache never overlap. */
  lemma DataAndCacheAreDisjoint(t: Tree, a: nat, b: nat)
    requires ValidTree(t) && a in t && b in t && a != ROOT
    ensures !Under(t[a].dataPath, t[b].cachePath) && !Under(t[b].cachePath, t[a].dataPath)
  {
    var data, cache := DATA_ROOT + Nested(Labels(t, a)), CACHE_ROOT + Nested(Labels(t, b));
    PathNames(t, a);
    PathNames(t, b);
    NestedAt(Labels(t, a), 0);
    assert data[1] == "r" && cache[1] == "cache";
    UnderIffPrefix(data, cache);
    UnderIffPrefix(cache, data);
  }

  /** Paths are distinct exactly when sibling labels are. */
  lemma DistinctPathsIffDistinctSiblings(t: Tree)
    requires ValidTree(t)
    ensures PathsDistinct(t) <==> SiblingsDistinct(t)
  {
    if SiblingsDistinct(t) {
      forall a, b | a in t && b in t && a != b
        ensures t[a].dataPath != t[b].dataPath && t[a].cachePath != t[b].cachePath
      {
        PathsReflectTree(t, a, b);
      }
    }
    if PathsDistinct(t) {
      forall a, b | a in t && b in t && a != b && a != ROOT && b != ROOT && t[a].parent == t[b].parent
        ensures t[a].requested != t[b].requested
      {
        assert t[a].dataPath != t[b].dataPath;
      }
    }
  }

  // ----- when creation keeps paths distinct -----

  /** An overlong label is never equal to a stored one, so a live sibling with the same label goes unnoticed. */
  predicate RepeatsOverlongLabel(s: System, parent: nat, name: string) {
    && |name| > LABEL_MAX_LENGTH
    && exists c :: c in s.realms && c != ROOT && s.realms[c].parent == Some(parent) && s.realms[c].requested == name
  }

  lemma ChildKeepsDistinct(t: Tree, id: nat, parent: nat, child: Realm)
    requires SiblingsDistinct(t) && id !in t && id != ROOT && child.parent == Some(parent)
    ensures SiblingsDistinct(t[id := child]) <==>
            forall c :: c in t && c != ROOT && t[c].parent == Some(parent) ==> t[c].requested != child.requested
  {
    var t' := t[id := child];
    assert forall c :: c in t ==> c in t' && t'[c] == t[c];
    assert id in t';
  }

  lemma CreateKeepsDistinct(s: System, parent: nat, name: string, setup: Setup, deleteOnDeath: bool)
    requires Valid(s) && SiblingsDistinct(s.realms) && parent in s.realms
    ensures var r := Create(s, parent, name, setup, deleteOnDeath);
            SiblingsDistinct(r.0.realms) <==> !(r.1 == Created && RepeatsOverlongLabel(s, parent, name))
  {
    var t := s.realms;
    if Create(s, parent, name, setup, deleteOnDeath).1 == Created {
      ChildKeepsDistinct(t, s.next, parent, NestedRealm(t, parent, name, deleteOnDeath));
      RepeatsOnlyOverlong(s, parent, name);
    }
  }

  /** The check against the stored labels misses exactly the overlong ones. */
  lemma RepeatsOnlyOverlong(s: System, parent: nat, name: string)
    requires Valid(s) && !LabelInUse(s.realms, parent, name)
    ensures RepeatsOverlongLabel(s, parent, name) <==>
            exists c :: c in s.realms && c != ROOT && s.realms[c].parent == Some(parent)
              && s.realms[c].requested == name
  {
    forall c | c in s.realms && c != ROOT && s.realms[c].parent == Some(parent) && s.realms[c].requested == name
      ensures |name| > LABEL_MAX_LENGTH
    {
      assert ValidRealm(s.realms, c);
      assert s.realms[c].stored != name;
    }
  }

  // ----- what a death deletes -----

  /** file is in a component's directory of the realm, in its data or its cache. */
  ghost predicate Owns(t: Tree, id: nat, file: string)
    requires WellFounded(t) && id in t
  {
    exists root, c, rest :: && (root == DATA_ROOT || root == CACHE_ROOT)
                            && IsName(c) && ':' in c && AreNames(rest)
                            && file == OwnedFile(t, id, root, c, rest)
  }

  function OwnedFile(t: Tree, id: nat, root: seq<string>, c: string, rest: seq<string>): (file: string)
    requires WellFounded(t) && id in t
  {
    Render(root + (Nested(Labels(t, id)) + ([c] + rest)))
  }

  /** A component's file is under a realm's path for the same root exactly if the labels continue that realm's. */
  lemma OwnedUnderSameRoot(t: Tree, id: nat, root: seq<string>, c: string, rest: seq<string>, d: nat)
    requires ValidTree(t) && id in t && d in t
    requires AreNames(root) && IsName(c) && ':' in c && AreNames(rest)
    ensures Under(OwnedFile(t, id, root, c, rest), Render(root + Nested(Labels(t, d)))) <==>
            Labels(t, d) <= Labels(t, id)
  {
    var tail := [c] + rest;
    var mine, theirs := Nested(Labels(t, id)), Nested(Labels(t, d));
    LabelsAreNames(t, id);
    LabelsAreNames(t, d);
    NestedAreNames(Labels(t, id));
    NestedAreNames(Labels(t, d));
    NamesAppend([c], rest);
    NamesAppend(mine, tail);
    NamesAppend(root, mine + tail);
    NamesAppend(root, theirs);
    UnderIffPrefix(root + (mine + tail), root + theirs);
    RootedPrefix(root, mine + tail, theirs);
    PrefixOfOwned(Labels(t, d), Labels(t, id), tail);
  }

  lemma SecondComponentsDiffer(cs: seq<string>, ds: seq<string>)
    requires AreNames(cs) && AreNames(ds) && |cs| >= 2 && |ds| >= 2 && cs[1] != ds[1]
    ensures !Under(Render(cs), Render(ds))
  {
    UnderIffPrefix(cs, ds);
  }

  lemma OwnedNames(t: Tree, id: nat, root: seq<string>, c: string, rest: seq<string>)
    requires ValidTree(t) && id in t && AreNames(root) && IsName(c) && AreNames(rest)
    ensures AreNames(root + (Nested(Labels(t, id)) + ([c] + rest)))
  {
    LabelsAreNames(t, id);
    NestedAreNames(Labels(t, id));
    NamesAppend([c], rest);
    NamesAppend(Nested(Labels(t, id)), [c] + rest);
    NamesAppend(root, Nested(Labels(t, id)) + ([c] + rest));
  }

  /** A component's file is never below the other root's path of a nested realm. */
  lemma OwnedNotUnderOtherRoot(t: Tree, id: nat, c: string, rest: seq<string>, d: nat)
    requires ValidTree(t) && id in t && d in t && d != ROOT
    requires IsName(c) && ':' in c && AreNames(rest)
    ensures !Under(OwnedFile(t, id, DATA_ROOT, c, rest), t[d].cachePath)
    ensures !Under(OwnedFile(t, id, CACHE_ROOT, c, rest), t[d].dataPath)
  {
    assert ValidRealm(t, d);
    PathNames(t, d);
    RootsAreNames();
    DataNotUnderCache(t, id, c, rest, Nested(Labels(t, d)));
    NestedAt(Labels(t, d), 0);
    CacheNotUnderData(t, id, c, rest, Nested(Labels(t, d)));
  }

  lemma DataNotUnderCache(t: Tree, id: nat, c: string, rest: seq<string>, realm: seq<string>)
    requires ValidTree(t) && id in t && IsName(c) && ':' in c && AreNames(rest) && AreNames(CACHE_ROOT + realm)
    ensures !Under(OwnedFile(t, id, DATA_ROOT, c, rest), Render(CACHE_ROOT + realm))
  {
    var tail := Nested(Labels(t, id)) + ([c] + rest);
    RootsAreNames();
    OwnedNames(t, id, DATA_ROOT, c, rest);
    assert tail[0] == "r" || tail[0] == c by {
      if id != ROOT {
        NestedAt(Labels(t, id), 0);
      }
    }
    NotCache(c);
    assert (DATA_ROOT + tail)[1] == tail[0] && (CACHE_ROOT + realm)[1] == "cache";
    SecondComponentsDiffer(DATA_ROOT + tail, CACHE_ROOT + realm);
  }

  lemma NotCache(c: string)
    requires ':' in c
    ensures c != "cache" && "r" != "cache"
  {
    assert ':' !in "cache" && |"r"| != |"cache"|;
  }

  lemma CacheNotUnderData(t: Tree, id: nat, c: string, rest: seq<string>, realm: seq<string>)
    requires ValidTree(t) && id in t && IsName(c) && AreNames(rest) && AreNames(DATA_ROOT + realm)
    requires realm != [] && realm[0] == "r"
    ensures !Under(OwnedFile(t, id, CACHE_ROOT, c, rest), Render(DATA_ROOT + realm))
  {
    var tail := Nested(Labels(t, id)) + ([c] + rest);
    RootsAreNames();
    OwnedNames(t, id, CACHE_ROOT, c, rest);
    assert (DATA_ROOT + realm)[1] == "r";
    SecondComponentsDiffer(CACHE_ROOT + tail, DATA_ROOT + realm);
  }

  /** A realm whose storage is deleted takes a component's file along exactly if the labels continue its own. */
  lemma DeletesOwnedIff(t: Tree, d: nat, owner: nat, file: string)
    requires ValidTree(t) && d in t && d != ROOT && owner in t && Owns(t, owner, file)
    ensures Deletes(t[d], file) <==> t[d].deleteOnDeath && Labels(t, d) <= Labels(t, owner)
  {
    var root, c, rest :| && (root == DATA_ROOT || root == CACHE_ROOT)
                         && IsName(c) && ':' in c && AreNames(rest)
                         && file == OwnedFile(t, owner, root, c, rest);
    RootsAreNames();
    assert ValidRealm(t, d);
    OwnedUnderSameRoot(t, owner, root, c, rest, d);
    OwnedNotUnderOtherRoot(t, owner, c, rest, d);
  }

  /** Realm d dies with id, has its storage deleted, and the owner's labels continue its own. */
  predicate Endangers(t: Tree, id: nat, d: nat, owner: nat)
    requires WellFounded(t) && id in t && owner in t
  {
    d in Doomed(t, id) && t[d].deleteOnDeath && Labels(t, d) <= Labels(t, owner)
  }

  /**
   Exactly when a death removes a file that a component of some realm owns, whether that realm dies
   or not: one of the realms that die has its storage deleted, and its labels are an initial part of
   the owner's.
   */
  lemma FileLostIff(s: System, id: nat, owner: nat, file: string)
    requires Valid(s) && id in s.realms && id != ROOT && owner in s.realms
    requires file in s.files && Owns(s.realms, owner, file)
    ensures file !in Kill(s, id).files <==> exists d :: Endangers(s.realms, id, d, owner)
  {
    var t := s.realms;
    forall d | d in Doomed(t, id)
      ensures Deletes(t[d], file) <==> Endangers(t, id, d, owner)
    {
      OnlyRootIsAboveRoot(t, id);
      DeletesOwnedIff(t, d, owner, file);
    }
  }

  /** With distinct sibling labels, only the owner's own death, with some realm around it, endangers its files. */
  lemma DistinctEndangersOnlyDoomed(t: Tree, id: nat, d: nat, owner: nat)
    requires ValidTree(t) && SiblingsDistinct(t) && id in t && owner in t && Endangers(t, id, d, owner)
    ensures owner in Doomed(t, id)
  {
    PrefixLabelsAncestor(t, d, owner);
    AncestorTransitive(t, id, d, owner);
  }

  /** So with distinct sibling labels a death never touches the files of a realm that survives it. */
  lemma SurvivorsKeepStorage(s: System, id: nat, survivor: nat, file: string)
    requires Valid(s) && SiblingsDistinct(s.realms) && id in s.realms && id != ROOT
    requires survivor in Kill(s, id).realms && file in s.files && Owns(s.realms, survivor, file)
    ensures file in Kill(s, id).files
  {
    FileLostIff(s, id, survivor, file);
    if d :| Endangers(s.realms, id, d, survivor) {
      DistinctEndangersOnlyDoomed(s.realms, id, d, survivor);
    }
  }

  lemma OwnedFileIsOwned(t: Tree, id: nat, root: seq<string>, c: string, rest: seq<string>)
    requires WellFounded(t) && id in t && (root == DATA_ROOT || root == CACHE_ROOT)
    requires IsName(c) && ':' in c && AreNames(rest)
    ensures Owns(t, id, OwnedFile(t, id, root, c, rest))
  {
  }

  lemma ComponentFileIsOwned(t: Tree, id: nat, root: seq<string>, url: PkgUrl, rest: seq<string>)
    requires ValidTree(t) && id in t && (root == DATA_ROOT || root == CACHE_ROOT) && url.Parsed() && AreNames(rest)
    ensures Owns(t, id, IsolatedPathForPackage(Render(root + Nested(Labels(t, id))), url) + Render(rest))
  {
    assert root != [] && AreNames(root) by { RootsAreNames(); }
    LabelsAreNames(t, id);
    ComponentIdIsAName(url);
    OwnedFileIsOwned(t, id, root, StableComponentID(url), rest);
    ComponentFileIsRendered(root, Labels(t, id), url, rest);
  }

  /** What is at or below the directory that IsolatedPathForPackage gives a component is owned by the realm. */
  lemma ComponentFilesAreOwned(t: Tree, id: nat, url: PkgUrl, rest: seq<string>)
    requires ValidTree(t) && id in t && url.Parsed() && AreNames(rest)
    ensures Owns(t, id, IsolatedPathForPackage(t[id].dataPath, url) + Render(rest))
    ensures Owns(t, id, IsolatedPathForPackage(t[id].cachePath, url) + Render(rest))
  {
    assert ValidRealm(t, id);
    ComponentFileIsOwned(t, id, DATA_ROOT, url, rest);
    ComponentFileIsOwned(t, id, CACHE_ROOT, url, rest);
  }

  /** A death removes what is at or below a component's directory, in data or cache, exactly in that case. */
  lemma ComponentFileLostIff(s: System, id: nat, owner: nat, url: PkgUrl, rest: seq<string>)
    requires Valid(s) && id in s.realms && id != ROOT && owner in s.realms && url.Parsed() && AreNames(rest)
    ensures var r := s.realms[owner];
            var data := IsolatedPathForPackage(r.dataPath, url) + Render(rest);
            var cache := IsolatedPathForPackage(r.cachePath, url) + Render(rest);
            var lost := exists d :: Endangers(s.realms, id, d, owner);
            && (data in s.files ==> (data !in Kill(s, id).files <==> lost))
            && (cache in s.files ==> (cache !in Kill(s, id).files <==> lost))
  {
    var r := s.realms[owner];
    var data := IsolatedPathForPackage(r.dataPath, url) + Render(rest);
    var cache := IsolatedPathForPackage(r.cachePath, url) + Render(rest);
    ComponentFilesAreOwned(s.realms, owner, url, rest);
    if data in s.files {
      FileLostIff(s, id, owner, data);
    }
    if cache in s.files {
      FileLostIff(s, id, owner, cache);
    }
  }

  /** So, with distinct sibling labels, no component of a surviving realm loses anything. */
  lemma SurvivorsKeepComponentFiles(s: System, id: nat, survivor: nat, url: PkgUrl, rest: seq<string>)
    requires Valid(s) && SiblingsDistinct(s.realms) && id in s.realms && id != ROOT
    requires survivor in Kill(s, id).realms && url.Parsed() && AreNames(rest)
    ensures var r := s.realms[survivor];
            var data := IsolatedPathForPackage(r.dataPath, url) + Render(rest);
            var cache := IsolatedPathForPackage(r.cachePath, url) + Render(rest);
            && (data in s.files ==> data in Kill(s, id).files)
            && (cache in s.files ==> cache in Kill(s, id).files)
  {
    ComponentFileLostIff(s, id, survivor, url, rest);
    if d :| Endangers(s.realms, id, d, survivor) {
      DistinctEndangersOnlyDoomed(s.realms, id, d, survivor);
    }
  }

  /** With an overlong label repeated, it does: the twin that survives loses its files. */
  lemma TwinLosesStorage(s: System, a: nat, b: nat, file: string)
    requires Valid(s) && a in s.realms && b in s.realms && a != b && a != ROOT && b != ROOT
    requires s.realms[a].parent == s.realms[b].parent && s.realms[a].requested == s.realms[b].requested
    requires s.realms[a].deleteOnDeath && file in s.files && Under(file, s.realms[b].dataPath)
    ensures b in Kill(s, a).realms && file !in Kill(s, a).files
  {
    var t := s.realms;
    if IsAncestor(t, a, b) {
      AncestorIsOlder(t, a, t[b].parent.value);
    }
    assert ValidRealm(t, a) && ValidRealm(t, b);
    assert Labels(t, a) == Labels(t, b);
    assert t[a].dataPath == t[b].dataPath;
    assert Deletes(t[a], file) && a in Doomed(t, a);
  }

  // ----- runs -----

  datatype Input =
    | CreateRealm(parent: nat, name: string, setup: Setup, deleteOnDeath: bool)
    | KillRealm(id: nat)
    | WriteFile(file: string)

  predicate Enabled(s: System, i: Input) {
    match i
    case CreateRealm(parent, _, _, _) => parent in s.realms
    case KillRealm(id) => id in s.realms && id != ROOT
    case WriteFile(_) => true
  }

  function Step(s: System, i: Input): (s': System)
    requires Valid(s) && Enabled(s, i)
  {
    match i
    case CreateRealm(parent, name, setup, deleteOnDeath) => Create(s, parent, name, setup, deleteOnDeath).0
    case KillRealm(id) => Kill(s, id)
    case WriteFile(file) => s.(files := s.files + {file})
  }

  lemma StepKeepsValid(s: System, i: Input)
    requires Valid(s) && Enabled(s, i)
    ensures Valid(Step(s, i))
  {
    match i {
      case CreateRealm(parent, name, setup, deleteOnDeath) => CreateKeepsValid(s, parent, name, setup, deleteOnDeath);
      case KillRealm(id) => KillKeepsValid(s, id);
      case WriteFile(_) =>
    }
  }

  /** The state after a run from the root realm alone; None once an input was impossible. */
  function Run(rootLabel: string, inputs: seq<Input>): (r: Option<System>)
    ensures r.Some? ==> Valid(r.value)
  {
    if inputs == [] then InitialIsValid(rootLabel); Some(Initial(rootLabel))
    else
      var s := Run(rootLabel, inputs[..|inputs| - 1]);
      var i := inputs[|inputs| - 1];
      if s.Some? && Enabled(s.value, i) then
        StepKeepsValid(s.value, i);
        Some(Step(s.value, i))
      else None
  }

  /** The run's input creates a realm with an overlong label that a live sibling was created with. */
  predicate Repeats(s: System, i: Input)
    requires Enabled(s, i)
  {
    && i.CreateRealm?
    && Create(s, i.parent, i.name, i.setup, i.deleteOnDeath).1 == Created
    && RepeatsOverlongLabel(s, i.parent, i.name)
  }

  lemma StepDistinct(s: System, i: Input)
    requires Valid(s) && Enabled(s, i) && SiblingsDistinct(s.realms)
    ensures SiblingsDistinct(Step(s, i).realms) <==> !Repeats(s, i)
  {
    if i.CreateRealm? {
      CreateKeepsDistinct(s, i.parent, i.name, i.setup, i.deleteOnDeath);
    }
  }

  /** Storage paths stayed pairwise distinct after every prefix of the run. */
  ghost predicate AlwaysDistinct(rootLabel: string, inputs: seq<Input>)
    requires Run(rootLabel, inputs).Some?
  {
    PathsDistinct(Run(rootLabel, inputs).value.realms)
      && (inputs == [] || AlwaysDistinct(rootLabel, inputs[..|inputs| - 1]))
  }

  ghost predicate NeverRepeats(rootLabel: string, inputs: seq<Input>)
    requires Run(rootLabel, inputs).Some?
  {
    inputs == [] ||
    var init := inputs[..|inputs| - 1];
    NeverRepeats(rootLabel, init) && !Repeats(Run(rootLabel, init).value, inputs[|inputs| - 1])
  }

  /**
   Over every run, live realms have pairwise distinct storage paths at all times if and only if no
   realm was ever created with a label longer than the limit that a live sibling already had.
   */
  lemma {:induction false} DistinctPathsIffNoRepeat(rootLabel: string, inputs: seq<Input>)
    requires Run(rootLabel, inputs).Some?
    ensures AlwaysDistinct(rootLabel, inputs) <==> NeverRepeats(rootLabel, inputs)
  {
    var s := Run(rootLabel, inputs).value;
    DistinctPathsIffDistinctSiblings(s.realms);
    if inputs != [] {
      var init, i := inputs[..|inputs| - 1], inputs[|inputs| - 1];
      var before := Run(rootLabel, init).value;
      DistinctPathsIffNoRepeat(rootLabel, init);
      DistinctPathsIffDistinctSiblings(before.realms);
      if SiblingsDistinct(before.realms) {
        StepDistinct(before, i);
      }
    }
  }

  /** In particular labels within the limit always give distinct paths that mirror the tree. */
  lemma {:induction false} ShortLabelsAreSafe(rootLabel: string, inputs: seq<Input>)
    requires Run(rootLabel, inputs).Some?
    requires forall k :: 0 <= k < |inputs| && inputs[k].CreateRealm? ==> |inputs[k].name| <= LABEL_MAX_LENGTH
    ensures NeverRepeats(rootLabel, inputs) && SiblingsDistinct(Run(rootLabel, inputs).value.realms)
  {
    if inputs != [] {
      ShortLabelsAreSafe(rootLabel, inputs[..|inputs| - 1]);
      StepDistinct(Run(rootLabel, inputs[..|inputs| - 1]).value, inputs[|inputs| - 1]);
    }
  }

  lemma RunOne(rootLabel: string, inputs: seq<Input>, i: Input)
    requires Run(rootLabel, inputs).Some? && Enabled(Run(rootLabel, inputs).value, i)
    ensures Run(rootLabel, inputs + [i]) == Some(Step(Run(rootLabel, inputs).value, i))
  {
    assert (inputs + [i])[..|inputs|] == inputs;
  }

  predicate StoredShort(t: Tree) {
    forall c :: c in t ==> |t[c].stored| <= LABEL_MAX_LENGTH
  }

  lemma ValidStoredShort(t: Tree)
    requires ValidTree(t)
    ensures StoredShort(t)
  {
    forall c | c in t
      ensures |t[c].stored| <= LABEL_MAX_LENGTH
    {
      assert ValidRealm(t, c);
    }
  }

  /** An overlong label is accepted however often it is used. */
  lemma OverlongLabelIsAccepted(s: System, name: string)
    requires ROOT in s.realms && StoredShort(s.realms) && IsValidEnvironmentLabel(name) && |name| > LABEL_MAX_LENGTH
    ensures Create(s, ROOT, name, Ready, true).1 == Created
  {
  }

  /** A run that ends with two realms at one path. */
  lemma OverlongLabelsCollide(rootLabel: string, name: string)
    requires IsValidEnvironmentLabel(name) && |name| > LABEL_MAX_LENGTH
    ensures var i := CreateRealm(ROOT, name, Ready, true);
            var r := Run(rootLabel, [] + [i] + [i]);
            r.Some? && 1 in r.value.realms && 2 in r.value.realms
              && r.value.realms[1].dataPath == r.value.realms[2].dataPath
  {
    var i := CreateRealm(ROOT, name, Ready, true);
    var s0 := Initial(rootLabel);
    InitialIsValid(rootLabel);
    OverlongLabelIsAdded(s0, name);
    RunOne(rootLabel, [], i);
    OverlongLabelIsAdded(Step(s0, i), name);
    RunOne(rootLabel, [] + [i], i);
  }

  lemma OverlongLabelIsAdded(s: System, name: string)
    requires Valid(s) && IsValidEnvironmentLabel(name) && |name| > LABEL_MAX_LENGTH
    ensures var r := Step(s, CreateRealm(ROOT, name, Ready, true));
            && r.next == s.next + 1 && r.realms == s.realms[s.next := NestedRealm(s.realms, ROOT, name, true)]
            && Valid(r) && r.realms[ROOT] == s.realms[ROOT]
  {
    ValidStoredShort(s.realms);
    OverlongLabelIsAccepted(s, name);
    StepKeepsValid(s, CreateRealm(ROOT, name, Ready, true));
  }
}
