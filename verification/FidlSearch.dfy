/** When the search for .fidl.json files ends. */
module FidlSearch {
  import opened Common
  import opened FidlPaths

  /** Finitely many directory paths are reachable. */
  ghost predicate FinitelyMany(fs: FileSystem, cli: seq<string>) {
    exists u: set<string> :: Holds(fs, cli, u)
  }

  ghost predicate Holds(fs: FileSystem, cli: seq<string>, u: set<string>) {
    forall p :: fs.Reachable(cli, p) && fs.IsDirectory(p) ==> p in u
  }

  // ----- finitely many paths: the search ends -----

  lemma CheckedInside(fs: FileSystem, cli: seq<string>, u: set<string>, s: Search)
    requires Holds(fs, cli, u) && Searching(fs, cli, s)
    ensures s.checked <= u
  {
    forall c | c in s.checked
      ensures c in u
    {
      FoundIsReachable(fs, cli, c);
    }
  }

  /** An iteration meets a new directory path, or shortens the queue. */
  lemma StepProgresses(fs: FileSystem, cli: seq<string>, u: set<string>, s: Search)
    requires Holds(fs, cli, u) && Searching(fs, cli, s) && s.queue != []
    ensures var r := Step(fs, s);
            u - r.checked < u - s.checked || (r.checked == s.checked && |r.queue| < |s.queue|)
  {
    var r, current := Step(fs, s), s.queue[|s.queue| - 1];
    if fs.IsDirectory(current) {
      ScanAdds(fs, s.(queue := s.queue[..|s.queue| - 1], popped := s.popped + [current]), fs.Children(current));
      if r.checked != s.checked {
        StepKeepsSearching(fs, cli, s);
        CheckedInside(fs, cli, u, r);
        var c :| c in r.checked && c !in s.checked;
        assert c in u - s.checked && c !in u - r.checked;
      }
    }
  }

  lemma {:induction false} EndsEventually(fs: FileSystem, cli: seq<string>, u: set<string>, n: nat)
    requires Holds(fs, cli, u)
    ensures Ends(fs, cli)
    decreases u - After(fs, cli, n).checked, |After(fs, cli, n).queue|
  {
    if After(fs, cli, n).queue != [] {
      AfterKeepsSearching(fs, cli, n);
      StepProgresses(fs, cli, u, After(fs, cli, n));
      assert After(fs, cli, n + 1) == Step(fs, After(fs, cli, n));
      EndsEventually(fs, cli, u, n + 1);
    }
  }

  /** The search ends if and only if finitely many directory paths are reachable. */
  lemma EndsIffFinitelyMany(fs: FileSystem, cli: seq<string>)
    ensures Ends(fs, cli) <==> FinitelyMany(fs, cli)
  {
    if n :| After(fs, cli, n).queue == [] {
      var s := After(fs, cli, n);
      AfterKeepsSearching(fs, cli, n);
      forall p | fs.Reachable(cli, p) && fs.IsDirectory(p)
        ensures p in set q | q in s.popped
      {
        ReachableIsPopped(fs, cli, s, p);
      }
      assert Holds(fs, cli, set q | q in s.popped);
    }
    if u: set<string> :| Holds(fs, cli, u) {
      EndsEventually(fs, cli, u, 0);
    }
  }

  // ----- no cycle: finitely many paths -----

  /** The directory paths of chains of at most k + 1 paths. */
  ghost function Within(fs: FileSystem, cli: seq<string>, k: nat): (u: set<string>) {
    if k == 0 then set p | p in cli && fs.IsDirectory(p)
    else
      var u := Within(fs, cli, k - 1);
      u + set p, q | p in u && fs.IsDirectory(p) && q in fs.Children(p) && fs.IsDirectory(q) :: q
  }

  lemma {:induction false} WithinGrows(fs: FileSystem, cli: seq<string>, j: nat, k: nat)
    requires j <= k
    ensures Within(fs, cli, j) <= Within(fs, cli, k)
    decreases k
  {
    if j < k {
      WithinGrows(fs, cli, j, k - 1);
    }
  }

  lemma {:induction false} ChainEndsWithin(fs: FileSystem, cli: seq<string>, c: seq<string>)
    requires fs.Chain(cli, c) && fs.IsDirectory(c[|c| - 1])
    ensures c[|c| - 1] in Within(fs, cli, |c| - 1)
    decreases |c|
  {
    if |c| > 1 {
      ChainInit(fs, cli, c);
      ChainEndsWithin(fs, cli, c[..|c| - 1]);
    }
  }

  /** The directories along a chain of directory paths. */
  function Nodes(fs: FileSystem, c: seq<string>): (w: seq<nat>)
    requires forall i :: 0 <= i < |c| ==> fs.IsDirectory(c[i])
    ensures |w| == |c| && forall i :: 0 <= i < |c| ==> w[i] == fs.Node(c[i])
  {
    seq(|c|, i requires 0 <= i < |c| => fs.Node(c[i]))
  }

  lemma ChildIsEntry(fs: FileSystem, p: string, q: string)
    requires fs.WellFormed() && fs.IsDirectory(p) && q in fs.Children(p) && fs.IsDirectory(q)
    ensures fs.HasEntry(fs.Node(p), fs.Node(q))
  {
    var i :| 0 <= i < |fs.Children(p)| && fs.Children(p)[i] == q;
    assert fs.Leads(p, fs.directories[fs.Node(p)][i]);
  }

  lemma ChainIsWalk(fs: FileSystem, cli: seq<string>, c: seq<string>)
    requires fs.WellFormed() && fs.Chain(cli, c) && fs.IsDirectory(c[|c| - 1])
    ensures forall i :: 0 <= i < |c| ==> fs.IsDirectory(c[i])
    ensures fs.Walk(cli, Nodes(fs, c))
  {
    forall i | 0 <= i < |c|
      ensures fs.IsDirectory(c[i])
    {
      if i < |c| - 1 {
        assert fs.IsDirectory(c[i]) && c[i + 1] in fs.Children(c[i]);
      }
    }
    var w := Nodes(fs, c);
    forall i | 0 <= i < |w| - 1
      ensures fs.HasEntry(w[i], w[i + 1])
    {
      assert fs.IsDirectory(c[i]) && c[i + 1] in fs.Children(c[i]);
      ChildIsEntry(fs, c[i], c[i + 1]);
    }
  }

  lemma {:induction false} DistinctFit(w: seq<nat>, s: set<nat>)
    requires forall i :: 0 <= i < |w| ==> w[i] in s
    requires forall i, j :: 0 <= i < j < |w| ==> w[i] != w[j]
    ensures |w| <= |s|
    decreases |w|
  {
    if w != [] {
      var init, x := w[..|w| - 1], w[|w| - 1];
      DistinctFit(init, s - {x});
    }
  }

  /** Without a cycle no chain of directory paths is longer than there are directories. */
  lemma AcyclicChainsAreShort(fs: FileSystem, cli: seq<string>, c: seq<string>)
    requires fs.WellFormed() && !fs.CycleReachable(cli) && fs.Chain(cli, c) && fs.IsDirectory(c[|c| - 1])
    ensures |c| <= |fs.directories|
  {
    ChainIsWalk(fs, cli, c);
    var w := Nodes(fs, c);
    forall i, j | 0 <= i < j < |w|
      ensures w[i] != w[j]
    {
      assert fs.Walk(cli, w);
    }
    DistinctFit(w, fs.directories.Keys);
  }

  lemma AcyclicHolds(fs: FileSystem, cli: seq<string>)
    requires fs.WellFormed() && !fs.CycleReachable(cli)
    ensures Holds(fs, cli, Within(fs, cli, |fs.directories|))
  {
    forall p | fs.Reachable(cli, p) && fs.IsDirectory(p)
      ensures p in Within(fs, cli, |fs.directories|)
    {
      var c :| fs.Chain(cli, c) && c[|c| - 1] == p;
      AcyclicChainsAreShort(fs, cli, c);
      ChainEndsWithin(fs, cli, c);
      WithinGrows(fs, cli, |c| - 1, |fs.directories|);
    }
  }

  // ----- a cycle: paths of any length -----

  lemma WalkExtends(fs: FileSystem, cli: seq<string>, w: seq<nat>, d: nat)
    requires fs.Walk(cli, w) && fs.HasEntry(w[|w| - 1], d) && d in fs.directories
    ensures fs.Walk(cli, w + [d])
  {
    var v := w + [d];
    forall i | 0 <= i < |v| - 1
      ensures fs.HasEntry(v[i], v[i + 1])
    {
      if i < |w| - 1 {
        assert fs.HasEntry(w[i], w[i + 1]);
      }
    }
  }

  /** Going round a cycle gives walks of every length. */
  lemma {:induction false} LongWalk(fs: FileSystem, cli: seq<string>, w: seq<nat>, i: nat, j: nat, n: nat)
    returns (v: seq<nat>, k: nat)
    requires fs.Walk(cli, w) && i < j < |w| && w[i] == w[j]
    ensures fs.Walk(cli, v) && |v| > n && i <= k < j && v[|v| - 1] == w[k]
    decreases n
  {
    if n == 0 {
      v, k := w[..i + 1], i;
      forall l | 0 <= l < |v| - 1
        ensures fs.HasEntry(v[l], v[l + 1])
      {
        assert fs.HasEntry(w[l], w[l + 1]);
      }
    } else {
      v, k := LongWalk(fs, cli, w, i, j, n - 1);
      assert fs.HasEntry(w[k], w[k + 1]);
      WalkExtends(fs, cli, v, w[k + 1]);
      v := v + [w[k + 1]];
      k := if k + 1 == j then i else k + 1;
    }
  }

  /** Every walk is followed by some chain of paths, and each path is longer than the one before. */
  lemma {:induction false} WalkIsFollowed(fs: FileSystem, cli: seq<string>, w: seq<nat>) returns (c: seq<string>)
    requires fs.WellFormed() && fs.Walk(cli, w)
    ensures fs.Chain(cli, c) && |c| == |w| && fs.IsDirectory(c[|c| - 1]) && fs.Node(c[|c| - 1]) == w[|w| - 1]
    ensures |c[|c| - 1]| >= |w| - 1
    decreases |w|
  {
    if |w| == 1 {
      var p :| p in cli && fs.IsDirectory(p) && fs.Node(p) == w[0];
      c := [p];
    } else {
      var init := w[..|w| - 1];
      WalkInit(fs, cli, w);
      c := WalkIsFollowed(fs, cli, init);
      var p := c[|c| - 1];
      var l :| 0 <= l < |fs.directories[w[|w| - 2]]| && fs.directories[w[|w| - 2]][l].target == w[|w| - 1];
      assert fs.Leads(p, fs.directories[fs.Node(p)][l]);
      var q := fs.Children(p)[l];
      ChainExtends(fs, cli, c, q);
      c := c + [q];
    }
  }

  lemma WalkInit(fs: FileSystem, cli: seq<string>, w: seq<nat>)
    requires fs.Walk(cli, w) && |w| > 1
    ensures fs.Walk(cli, w[..|w| - 1]) && fs.HasEntry(w[|w| - 2], w[|w| - 1])
  {
    var init := w[..|w| - 1];
    forall i | 0 <= i < |init| - 1
      ensures fs.HasEntry(init[i], init[i + 1])
    {
      assert fs.HasEntry(w[i], w[i + 1]);
    }
    assert fs.HasEntry(w[|w| - 2], w[|w| - 2 + 1]);
  }

  lemma {:induction false} LongestOf(u: set<string>) returns (n: nat)
    ensures forall p :: p in u ==> |p| <= n
    decreases u
  {
    if u == {} {
      n := 0;
    } else {
      var p :| p in u;
      var m := LongestOf(u - {p});
      n := if m < |p| then |p| else m;
    }
  }

  lemma CycleMeansInfinitelyMany(fs: FileSystem, cli: seq<string>)
    requires fs.WellFormed() && fs.CycleReachable(cli)
    ensures !FinitelyMany(fs, cli)
  {
    if u: set<string> :| Holds(fs, cli, u) {
      var w, i, j :| fs.Walk(cli, w) && 0 <= i < j < |w| && w[i] == w[j];
      var n := LongestOf(u);
      var v, k := LongWalk(fs, cli, w, i, j, n + 1);
      var c := WalkIsFollowed(fs, cli, v);
      assert fs.Reachable(cli, c[|c| - 1]);
    }
  }

  /**
   Exactly when the search ends: if and only if no cycle of directories, links followed, can be
   reached from the command line.
   */
  lemma SearchEndsIffNoCycle(fs: FileSystem, cli: seq<string>)
    requires fs.WellFormed()
    ensures Ends(fs, cli) <==> !fs.CycleReachable(cli)
    ensures FinitelyMany(fs, cli) <==> !fs.CycleReachable(cli)
  {
    EndsIffFinitelyMany(fs, cli);
    if fs.CycleReachable(cli) {
      CycleMeansInfinitelyMany(fs, cli);
    } else {
      AcyclicHolds(fs, cli);
    }
  }

  // ----- the program -----

  /**
   ExpandFidlPathsFromOptions. It requires what SearchEndsIffNoCycle shows to be needed for it to end.
   It takes from its queue the command line, and each directory path found as an entry once; and it
   collects exactly the files reachable, in the order of the visits.
   */
  method ExpandFidlPaths(fs: FileSystem, cli: seq<string>) returns (paths: seq<string>)
    requires fs.WellFormed() && !fs.CycleReachable(cli)
    ensures exists n :: && After(fs, cli, n).queue == [] && paths == After(fs, cli, n).paths
                        && Complete(fs, cli, After(fs, cli, n))
    ensures forall f :: f in paths <==> (f in cli && fs.IsFidlFile(f)) || (fs.Found(cli, f) && fs.IsFidlEntry(f))
  {
    ghost var u := Within(fs, cli, |fs.directories|);
    AcyclicHolds(fs, cli);
    var workqueue := cli;
    var checkedDirs: set<string> := {};
    ghost var popped: seq<string>, n: nat := [], 0;
    paths := [];
    while workqueue != []
      invariant Search(workqueue, checkedDirs, paths, popped) == After(fs, cli, n)
      decreases u - checkedDirs, |workqueue|
    {
      AfterKeepsSearching(fs, cli, n);
      StepProgresses(fs, cli, u, After(fs, cli, n));
      ghost var current := workqueue[|workqueue| - 1];
      workqueue, checkedDirs, paths := Visit(fs, workqueue, checkedDirs, paths, popped);
      popped, n := popped + [current], n + 1;
    }
    AfterKeepsSearching(fs, cli, n);
    SearchDone(fs, cli, After(fs, cli, n));
  }

  // ----- the smallest cycle: a directory d with a link `loop` to itself -----

  predicate IsLoopPath(p: string) {
    p == "d" || (|p| > 5 && p[|p| - 5..] == "/loop" && IsLoopPath(p[..|p| - 5]))
  }

  const LOOP := FileSystem(map[0 := [Entry("loop", 0)]], {}, (p: string) => if IsLoopPath(p) then Some(0) else None)

  function LoopPath(n: nat): (p: string) {
    if n == 0 then "d" else LoopPath(n - 1) + "/loop"
  }

  lemma LoopChild(p: string)
    requires IsLoopPath(p)
    ensures Child(p, "loop") == p + "/loop" && IsLoopPath(p + "/loop")
    ensures LOOP.IsDirectory(p) && LOOP.Children(p) == [p + "/loop"]
  {
    assert p[|p| - 1] != '/' by {
      if p != "d" {
        assert p[|p| - 1] == p[|p| - 5..][4];
      }
    }
    assert (p + "/loop")[..|p + "/loop"| - 5] == p;
    assert (p + "/loop")[|p + "/loop"| - 5..] == "/loop";
  }

  lemma LoopIsWellFormed()
    ensures LOOP.WellFormed()
  {
    forall p, i | LOOP.IsDirectory(p) && 0 <= i < |LOOP.directories[LOOP.Node(p)]|
      ensures LOOP.Leads(p, LOOP.directories[LOOP.Node(p)][i])
    {
      LoopChild(p);
    }
  }

  lemma LoopIsACycle()
    ensures LOOP.WellFormed() && LOOP.CycleReachable(["d"])
  {
    LoopIsWellFormed();
    LoopChild("d");
    assert LOOP.HasEntry(0, 0) by {
      assert LOOP.directories[0][0].target == 0;
    }
    var w := [0, 0];
    assert "d" in ["d"] && LOOP.Node("d") == w[0];
    assert LOOP.Walk(["d"], w) && w[0] == w[1];
  }

  /** After n iterations: one path is queued, longer than any met before, and one directory was expanded n times. */
  ghost predicate LoopedOnce(s: Search, p: string, n: nat) {
    && IsLoopPath(p) && s.queue == [p] && |s.popped| == n
    && (forall q :: q in s.popped ==> LOOP.resolve(q) == Some(0))
    && (forall c :: c in s.checked ==> |c| <= |p|)
  }

  /**
   Given d, the search never ends: every iteration expands the one directory again, under a path that
   was never met before.
   */
  lemma {:induction false} LoopNeverEnds(n: nat)
    ensures LoopedOnce(After(LOOP, ["d"], n), LoopPath(n), n)
  {
    if n == 0 {
      LoopStarts();
    } else {
      LoopNeverEnds(n - 1);
      LoopGoesOn(n);
    }
  }

  lemma LoopGoesOn(n: nat)
    requires n > 0 && LoopedOnce(After(LOOP, ["d"], n - 1), LoopPath(n - 1), n - 1)
    ensures LoopedOnce(After(LOOP, ["d"], n), LoopPath(n), n)
  {
    var s, p := After(LOOP, ["d"], n - 1), LoopPath(n - 1);
    assert LoopedOnce(Step(LOOP, s), p + "/loop", n) by {
      LoopedOnceMore(s, p, n - 1);
    }
    assert After(LOOP, ["d"], n) == Step(LOOP, s) by {
      AfterOneMore(LOOP, ["d"], n);
    }
    assert LoopPath(n) == p + "/loop";
  }

  lemma LoopStarts()
    ensures LoopedOnce(Search(["d"], {}, [], []), "d", 0)
  {
  }

  lemma AfterOneMore(fs: FileSystem, cli: seq<string>, n: nat)
    requires n > 0 && After(fs, cli, n - 1).queue != []
    ensures After(fs, cli, n) == Step(fs, After(fs, cli, n - 1))
  {
  }

  lemma LoopedOnceMore(s: Search, p: string, n: nat)
    requires LoopedOnce(s, p, n)
    ensures LoopedOnce(Step(LOOP, s), p + "/loop", n + 1)
  {
    LoopStep(s, p);
  }

  lemma LoopStep(s: Search, p: string)
    requires IsLoopPath(p) && s.queue == [p] && forall c :: c in s.checked ==> |c| <= |p|
    ensures IsLoopPath(p + "/loop")
    ensures Step(LOOP, s) == s.(queue := [p + "/loop"], checked := s.checked + {p + "/loop"}, popped := s.popped + [p])
    ensures LOOP.IsDirectory(p) && LOOP.Node(p) == 0
  {
    LoopChild(p);
    var s' := s.(queue := [], popped := s.popped + [p]);
    assert s.queue[..0] == [];
    assert [p + "/loop"][..0] == [];
    assert Scan(LOOP, s', []) == s';
    assert Scan(LOOP, s', [p + "/loop"]) == Enter(LOOP, s', p + "/loop");
    assert [] + [p + "/loop"] == [p + "/loop"];
  }
}
