/** Emptying the cache directories of every component in a tree of realms. */
module CachePurge {
  import opened Storage

  type Path = seq<string>
  datatype Kind = File | Directory
  type Nodes = map<Path, Kind>

  /** Every entry is in a directory, and only directories themselves are called `.`. */
  predicate WellFormed(nodes: Nodes) {
    forall p :: p in nodes && p != [] ==> p[..|p| - 1] in nodes && nodes[p[..|p| - 1]] == Directory && p[|p| - 1] != "."
  }

  /** What readdir returns: the directory itself and its entries. */
  function Entries(nodes: Nodes, dir: Path): (names: set<string>) {
    {"."} + set q | q in nodes && |q| == |dir| + 1 && dir <= q :: q[|dir|]
  }

  /** The tree without p and everything below it. */
  function Except(nodes: Nodes, p: Path): (left: Nodes) {
    map q | q in nodes && !(p <= q) :: nodes[q]
  }

  /** The tree without what is strictly below p. */
  function Emptied(nodes: Nodes, p: Path): (left: Nodes) {
    map q | q in nodes && !(p < q) :: nodes[q]
  }

  /** The tree without the given entries of p and everything below them. */
  function ExceptEntries(nodes: Nodes, p: Path, names: set<string>): (left: Nodes) {
    map q | q in nodes && !(p < q && q[|p|] in names) :: nodes[q]
  }

  /**
   Whether a path, given relative to a realm's cache directory, is strictly below a component's
   directory: the component is the entry other than `r` of that realm or of one nested in it.
   */
  predicate BelowComponent(rel: Path) {
    |rel| >= 2 && (rel[0] != "r" || BelowComponent(rel[2..]))
  }

  /** A path relative to a realm's cache directory that leads to a nested realm, or to that realm itself. */
  predicate IsRealm(rel: Path) {
    |rel| % 2 == 0 && forall i :: 0 <= i < |rel| && i % 2 == 0 ==> rel[i] == "r"
  }

  /** Below a component means: beyond some entry, not called `r`, of a realm's directory. */
  lemma {:induction false} BelowComponentMeans(rel: Path)
    ensures BelowComponent(rel) <==> exists k :: 0 <= k < |rel| - 1 && IsRealm(rel[..k]) && rel[k] != "r"
  {
    if |rel| >= 2 {
      if rel[0] != "r" {
        assert IsRealm(rel[..0]);
      } else {
        BelowComponentMeans(rel[2..]);
        if BelowComponent(rel[2..]) {
          var k :| 0 <= k < |rel[2..]| - 1 && IsRealm(rel[2..][..k]) && rel[2..][k] != "r";
          RealmInside(rel, k);
          assert rel[k + 2] != "r";
        }
        if k :| 0 <= k < |rel| - 1 && IsRealm(rel[..k]) && rel[k] != "r" {
          assert |rel[..k]| % 2 == 0 && k != 0;
          RealmOutside(rel, k);
          assert rel[2..][k - 2] == rel[k];
        }
      }
    }
  }

  lemma RealmInside(rel: Path, k: nat)
    requires |rel| >= 2 && rel[0] == "r" && k <= |rel| - 2 && IsRealm(rel[2..][..k])
    ensures IsRealm(rel[..k + 2])
  {
    forall i | 0 <= i < k + 2 && i % 2 == 0
      ensures rel[..k + 2][i] == "r"
    {
      if i >= 2 {
        assert rel[..k + 2][i] == rel[2..][..k][i - 2];
      }
    }
  }

  lemma RealmOutside(rel: Path, k: nat)
    requires 2 <= k <= |rel| && IsRealm(rel[..k])
    ensures IsRealm(rel[2..][..k - 2])
  {
    forall i | 0 <= i < k - 2 && i % 2 == 0
      ensures rel[2..][..k - 2][i] == "r"
    {
      assert rel[2..][..k - 2][i] == rel[..k][i + 2];
    }
  }

  /** The tree after purging below dir. */
  function Purged(nodes: Nodes, dir: Path): (left: Nodes) {
    map q | q in nodes && !(dir <= q && BelowComponent(q[|dir|..])) :: nodes[q]
  }

  class FileSystem {
    var nodes: Nodes
    /** An upper bound on the length of paths. */
    ghost var height: nat

    ghost predicate Valid()
      reads this
    {
      WellFormed(nodes) && forall q :: q in nodes ==> |q| <= height
    }

    /** openat with O_DIRECTORY succeeds. */
    predicate IsDirectory(p: Path)
      reads this
    {
      p in nodes && nodes[p] == Directory
    }

    /** unlinkat: a directory must be empty. */
    method Unlink(p: Path)
      requires Valid() && p in nodes && forall q :: q in nodes && p <= q ==> q == p
      modifies this`nodes
      ensures Valid() && nodes == old(nodes) - {p}
    {
      LeafRemoved(nodes, p);
      nodes := nodes - {p};
    }

    /** Deletes an entry and everything below it. */
    method DeleteDirentInFd(dir: Path, name: string)
      requires Valid() && dir + [name] in nodes
      modifies this`nodes
      ensures Valid() && nodes == Except(old(nodes), dir + [name])
      decreases height - |dir|, 0
    {
      var p := dir + [name];
      assert |p| <= height;
      EmptiedThenUnlinked(nodes, p);
      if nodes[p] == Directory {
        DeleteEntries(p);
      }
      Unlink(p);
    }

    /** The loop over a directory that deletes each of its entries. */
    method DeleteEntries(p: Path)
      requires Valid() && IsDirectory(p)
      modifies this`nodes
      ensures Valid() && IsDirectory(p)
      ensures nodes == Emptied(old(nodes), p)
      decreases height - |p|, 1
    {
      ghost var before := nodes;
      var entries := Entries(nodes, p);
      ghost var all, done: set<string> := entries, {};
      assert ExceptEntries(before, p, done) == before;
      while entries != {}
        invariant Valid() && done <= all && entries == all - done
        invariant nodes == ExceptEntries(before, p, done)
        decreases entries
      {
        var child :| child in entries;
        OneMoreEntry(before, p, done, child);
        if child != "." {
          DeleteDirentInFd(p, child);
        }
        entries, done := entries - {child}, done + {child};
      }
      assert done == all;
      AllEntriesGone(before, p);
    }

    /** Empties every component's directory in a realm's cache directory and in the realms nested in it. */
    method PurgeCacheIn(dir: Path)
      requires Valid() && IsDirectory(dir)
      modifies this`nodes
      ensures Valid() && nodes == Purged(old(nodes), dir)
      decreases height - |dir|, 1
    {
      ghost var before := nodes;
      var entries := Entries(nodes, dir);
      ghost var all, done: set<string> := entries, {};
      assert PurgedEntries(before, dir, done) == before;
      while entries != {}
        invariant Valid() && done <= all && entries == all - done
        invariant nodes == PurgedEntries(before, dir, done)
        decreases entries
      {
        var name :| name in entries;
        PurgeEntry(dir, name, before, done);
        entries, done := entries - {name}, done + {name};
      }
      assert done == all;
      AllEntriesPurged(before, dir);
    }

    /** The body of that loop: `r` holds the nested realms, anything else is a component. */
    method PurgeEntry(dir: Path, name: string, ghost before: Nodes, ghost done: set<string>)
      requires Valid() && WellFormed(before) && name !in done && nodes == PurgedEntries(before, dir, done)
      modifies this`nodes
      ensures Valid() && nodes == PurgedEntries(before, dir, done + {name})
      decreases height - |dir|, 0
    {
      var entry := dir + [name];
      if name == "r" {
        RealmEntry(before, dir, done);
        if IsDirectory(entry) {
          PurgeRealmsIn(entry);
        }
      } else {
        OneMoreComponent(before, dir, done, name);
        if name != "." && IsDirectory(entry) {
          DeleteEntries(entry);
        }
      }
    }

    /** The loop over the `r` directory. */
    method PurgeRealmsIn(r: Path)
      requires Valid() && IsDirectory(r)
      modifies this`nodes
      ensures Valid() && nodes == PurgedRealms(old(nodes), r, Entries(old(nodes), r))
      decreases height - |r|, 1
    {
      ghost var before := nodes;
      var entries := Entries(nodes, r);
      ghost var all, done: set<string> := entries, {};
      assert PurgedRealms(before, r, done) == before;
      while entries != {}
        invariant Valid() && done <= all && entries == all - done
        invariant nodes == PurgedRealms(before, r, done)
        decreases entries
      {
        var name :| name in entries;
        OneMoreRealm(before, r, done, name);
        if name != "." && IsDirectory(r + [name]) {
          PurgeCacheIn(r + [name]);
        }
        entries, done := entries - {name}, done + {name};
      }
      assert done == all;
    }
  }

  lemma LeafRemoved(nodes: Nodes, p: Path)
    requires WellFormed(nodes) && p in nodes && forall q :: q in nodes && p <= q ==> q == p
    ensures WellFormed(nodes - {p})
  {
    forall q | q in nodes - {p} && q != []
      ensures q[..|q| - 1] != p
    {
      assert q[..|q| - 1] <= q;
    }
  }

  lemma AllEntriesPurged(nodes: Nodes, dir: Path)
    requires WellFormed(nodes)
    ensures PurgedEntries(nodes, dir, Entries(nodes, dir)) == Purged(nodes, dir)
  {
    forall q | q in nodes && dir <= q && BelowComponent(q[|dir|..])
      ensures dir < q && q[|dir|] in Entries(nodes, dir)
    {
      assert q != dir;
      EntryOfPath(nodes, dir, q);
    }
  }

  /** The tree with the given entries of a realm's directory purged. */
  function PurgedEntries(nodes: Nodes, dir: Path, names: set<string>): (left: Nodes) {
    map q | q in nodes && !(dir < q && q[|dir|] in names && BelowComponent(q[|dir|..])) :: nodes[q]
  }

  /** The tree with the given realms of an `r` directory purged. */
  function PurgedRealms(nodes: Nodes, r: Path, names: set<string>): (left: Nodes) {
    map q | q in nodes && !(r < q && q[|r|] in names && BelowComponent(q[|r| + 1..])) :: nodes[q]
  }

  lemma OneMoreRealm(nodes: Nodes, r: Path, done: set<string>, name: string)
    requires WellFormed(nodes) && name !in done
    ensures var now := PurgedRealms(nodes, r, done);
            PurgedRealms(nodes, r, done + {name}) ==
            if name != "." && r + [name] in now && now[r + [name]] == Directory then Purged(now, r + [name]) else now
  {
    forall q | q in nodes
      ensures r + [name] <= q <==> r < q && q[|r|] == name
      ensures r + [name] <= q ==> q[|r + [name]|..] == q[|r| + 1..]
      ensures r + [name] < q ==> name != "." && r + [name] in nodes && nodes[r + [name]] == Directory
    {
      PrefixChild(r, name, q);
      if r + [name] < q {
        EntryOfPath(nodes, r + [name], q);
      }
    }
    assert (r + [name])[|r| + 1..] == [];
  }

  lemma OneMoreComponent(nodes: Nodes, dir: Path, done: set<string>, name: string)
    requires WellFormed(nodes) && name !in done && name != "r"
    ensures PurgedEntries(nodes, dir, done + {name}) == ComponentStep(PurgedEntries(nodes, dir, done), dir, name)
  {
    forall q | q in nodes
      ensures q in PurgedEntries(nodes, dir, done + {name}) <==>
              q in ComponentStep(PurgedEntries(nodes, dir, done), dir, name)
    {
      OneMoreComponentAt(nodes, dir, done, name, q);
    }
  }

  /** What the loop does with an entry other than `r`. */
  function ComponentStep(now: Nodes, dir: Path, name: string): (left: Nodes) {
    if name != "." && dir + [name] in now && now[dir + [name]] == Directory then Emptied(now, dir + [name]) else now
  }

  lemma OneMoreComponentAt(nodes: Nodes, dir: Path, done: set<string>, name: string, q: Path)
    requires WellFormed(nodes) && name !in done && name != "r" && q in nodes
    ensures q in PurgedEntries(nodes, dir, done + {name}) <==>
            q in ComponentStep(PurgedEntries(nodes, dir, done), dir, name)
  {
    PrefixChild(dir, name, q);
    var child := dir + [name];
    if child <= q {
      assert q[|dir|..][0] == name;
      assert |child[|dir|..]| == 1;
    }
    if child < q {
      EntryOfPath(nodes, child, q);
    }
  }

  lemma RealmEntry(nodes: Nodes, dir: Path, done: set<string>)
    requires WellFormed(nodes) && "r" !in done
    ensures PurgedEntries(nodes, dir, done + {"r"}) == RealmStep(PurgedEntries(nodes, dir, done), dir)
  {
    forall q | q in nodes
      ensures q in PurgedEntries(nodes, dir, done + {"r"}) <==> q in RealmStep(PurgedEntries(nodes, dir, done), dir)
    {
      RealmEntryAt(nodes, dir, done, q);
    }
  }

  /** What the loop does with the entry `r`. */
  function RealmStep(now: Nodes, dir: Path): (left: Nodes) {
    var r := dir + ["r"];
    if r in now && now[r] == Directory then PurgedRealms(now, r, Entries(now, r)) else now
  }

  lemma RealmEntryAt(nodes: Nodes, dir: Path, done: set<string>, q: Path)
    requires WellFormed(nodes) && "r" !in done && q in nodes
    ensures q in PurgedEntries(nodes, dir, done + {"r"}) <==> q in RealmStep(PurgedEntries(nodes, dir, done), dir)
  {
    PrefixChild(dir, "r", q);
    var r := dir + ["r"];
    if r <= q {
      RealmPath(dir, q);
    }
    if r < q {
      EntryOfPath(nodes, r, q);
      EntryKept(nodes, dir, done, q);
    }
  }

  lemma RealmPath(dir: Path, q: Path)
    requires dir + ["r"] <= q
    ensures BelowComponent(q[|dir|..]) <==> dir + ["r"] < q && BelowComponent(q[|dir| + 2..])
  {
    assert q[|dir|] == (dir + ["r"])[|dir|];
    assert q[|dir|..][0] == "r";
    if dir + ["r"] < q {
      assert q[|dir|..][2..] == q[|dir| + 2..];
    }
  }

  lemma EntryKept(nodes: Nodes, dir: Path, done: set<string>, q: Path)
    requires WellFormed(nodes) && "r" !in done && q in nodes && dir + ["r"] < q
    ensures var now := PurgedEntries(nodes, dir, done);
            q[|dir| + 1] in Entries(now, dir + ["r"])
  {
    var now, r := PurgedEntries(nodes, dir, done), dir + ["r"];
    EntryOfPath(nodes, r, q);
    var e := r + [q[|r|]];
    assert e in nodes && e[|dir|] == "r";
    assert e in now && |e| == |r| + 1 && r <= e && e[|r|] == q[|r|];
  }

  lemma EmptiedThenUnlinked(nodes: Nodes, p: Path)
    requires WellFormed(nodes) && p in nodes
    ensures Emptied(nodes, p) - {p} == Except(nodes, p)
    ensures forall q :: q in Emptied(nodes, p) && p <= q ==> q == p
    ensures nodes[p] == File ==> Emptied(nodes, p) == nodes
  {
    forall q | q in nodes && p <= q && q != p
      ensures p < q && nodes[p] == Directory
    {
      EntryOfPath(nodes, p, q);
    }
  }

  lemma PrefixChild(p: Path, name: string, q: Path)
    ensures p + [name] <= q <==> p < q && q[|p|] == name
  {
    if p < q && q[|p|] == name {
      assert q[..|p| + 1] == p + [name];
    }
    if p + [name] <= q {
      assert q[..|p| + 1] == p + [name];
      assert q[..|p|] == p;
    }
  }

  lemma OneMoreEntry(nodes: Nodes, p: Path, done: set<string>, name: string)
    requires WellFormed(nodes) && p in nodes && name in Entries(nodes, p) && name !in done
    ensures name != "." ==> p + [name] in ExceptEntries(nodes, p, done) && |p + [name]| == |p| + 1
    ensures ExceptEntries(nodes, p, done + {name}) ==
            if name == "." then ExceptEntries(nodes, p, done) else Except(ExceptEntries(nodes, p, done), p + [name])
  {
    if name != "." {
      ChildExists(nodes, p, name);
    }
    forall q | q in nodes
      ensures p + [name] <= q <==> p < q && q[|p|] == name
      ensures p < q ==> q[|p|] != "."
    {
      PrefixChild(p, name, q);
      if p < q {
        EntryOfPath(nodes, p, q);
        assert (p + [q[|p|]])[|p|] != ".";
      }
    }
  }

  lemma AllEntriesGone(nodes: Nodes, p: Path)
    requires WellFormed(nodes)
    ensures ExceptEntries(nodes, p, Entries(nodes, p)) == Emptied(nodes, p)
  {
    forall q | q in nodes && p < q
      ensures q[|p|] in Entries(nodes, p)
    {
      EntryOfPath(nodes, p, q);
    }
  }

  lemma ChildExists(nodes: Nodes, p: Path, name: string)
    requires name in Entries(nodes, p) && name != "."
    ensures p + [name] in nodes
  {
    var q :| q in nodes && |q| == |p| + 1 && p <= q && q[|p|] == name;
    assert q == p + [name];
  }

  /** Something strictly below a path shows up as an entry of it, so the path is a directory. */
  lemma {:induction false} EntryOfPath(nodes: Nodes, p: Path, q: Path)
    requires WellFormed(nodes) && q in nodes && p < q
    ensures p in nodes && nodes[p] == Directory && q[|p|] in Entries(nodes, p) && p + [q[|p|]] in nodes
    decreases |q|
  {
    if |q| == |p| + 1 {
      assert q[..|q| - 1] == p;
      assert q == p + [q[|p|]];
    } else {
      EntryOfPath(nodes, p, q[..|q| - 1]);
    }
  }

  // ----- what a purge does -----

  lemma {:induction false} RealmThenRest(rel: Path, rest: Path)
    requires IsRealm(rel)
    ensures BelowComponent(rel + rest) <==> BelowComponent(rest)
    decreases |rel|
  {
    if rel == [] {
      assert rel + rest == rest;
    } else {
      assert rel[..|rel|] == rel;
      RealmOutside(rel, |rel|);
      assert rel[2..][..|rel| - 2] == rel[2..];
      RealmThenRest(rel[2..], rest);
      assert (rel + rest)[2..] == rel[2..] + rest;
    }
  }

  /**
   Realm directories, `r` directories, component directories and stray files of a realm survive; what is
   in a component directory does not.
   */
  lemma PurgeKeepsExactly(nodes: Nodes, dir: Path, realm: Path, name: string, rest: Path)
    requires IsRealm(realm) && dir + realm + [name] + rest in nodes
    ensures dir + realm + [name] + rest in Purged(nodes, dir) <==>
            rest == [] || (name == "r" && (|rest| == 1 || !BelowComponent(rest[1..])))
  {
    var q := dir + realm + [name] + rest;
    assert q[|dir|..] == realm + ([name] + rest);
    RealmThenRest(realm, [name] + rest);
    if rest != [] {
      assert ([name] + rest)[2..] == rest[1..];
    }
  }

  /** A component's directory ends empty but present. */
  lemma ComponentEndsEmpty(nodes: Nodes, dir: Path, realm: Path, name: string)
    requires IsRealm(realm) && name != "r" && dir + realm + [name] in nodes
    ensures dir + realm + [name] in Purged(nodes, dir)
    ensures forall q :: q in Purged(nodes, dir) ==> !(dir + realm + [name] < q)
  {
    var d := dir + realm + [name];
    assert d + [] == d;
    PurgeKeepsExactly(nodes, dir, realm, name, []);
    forall q | q in nodes && d < q
      ensures q !in Purged(nodes, dir)
    {
      var rest := q[|d|..];
      assert q == dir + realm + [name] + rest;
      PurgeKeepsExactly(nodes, dir, realm, name, rest);
    }
  }

  lemma PurgeIsIdempotent(nodes: Nodes, dir: Path)
    ensures Purged(Purged(nodes, dir), dir) == Purged(nodes, dir)
  {
  }

  lemma NestedIsRealm(labels: seq<string>)
    ensures IsRealm(Nested(labels))
  {
    forall i | 0 <= i < |Nested(labels)| && i % 2 == 0
      ensures Nested(labels)[i] == "r"
    {
      NestedAt(labels, i / 2);
    }
  }

  /**
   The purge and the path naming agree: the directory that IsolatedPathForPackage names, in the cache
   of a realm nested at any depth, survives and loses exactly its contents, and a realm's own
   directory is never taken for one.
   */
  lemma IsolatedPathIsAComponent(nodes: Nodes, labels: seq<string>, url: PkgUrl, dir: Path, rest: Path)
    requires url.Parsed() && AreNames(labels) && AreNames(dir)
    requires Render(dir) == IsolatedPathForPackage(Render(CACHE_ROOT + Nested(labels)), url)
    ensures dir + rest in nodes ==> (dir + rest in Purged(nodes, CACHE_ROOT) <==> rest == [])
    ensures CACHE_ROOT + Nested(labels) in nodes ==> CACHE_ROOT + Nested(labels) in Purged(nodes, CACHE_ROOT)
  {
    var id := StableComponentID(url);
    ComponentIdIsAName(url);
    NestedIsRealm(labels);
    IsolatedPathIsRendered(CACHE_ROOT, labels, url);
    RenderIsInjective(dir, CACHE_ROOT + Nested(labels) + [id]);
    if dir + rest in nodes {
      PurgeKeepsExactly(nodes, CACHE_ROOT, Nested(labels), id, rest);
    }
    RealmThenRest(Nested(labels), []);
    assert (CACHE_ROOT + Nested(labels))[|CACHE_ROOT|..] == Nested(labels) + [];
  }
}
