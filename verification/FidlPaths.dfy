/** Collecting the .fidl.json files below the paths given on the command line. */
module FidlPaths {
  import opened Common

  const SUFFIX: string := ".fidl.json"

  predicate EndsWith(value: string, suffix: string) {
    |suffix| <= |value| && value[|value| - |suffix|..] == suffix
  }

  lemma EndsWithIff(value: string, suffix: string)
    ensures EndsWith(value, suffix) <==> exists stem: string :: value == stem + suffix
  {
    if EndsWith(value, suffix) {
      assert value == value[..|value| - |suffix|] + suffix;
    }
    if stem: string :| value == stem + suffix {
      assert value[|stem|..] == suffix;
    }
  }

  /** The path of an entry: the directory's path with the name appended. */
  function Child(p: string, name: string): (q: string) {
    if p != "" && p[|p| - 1] == '/' then p + name else p + "/" + name
  }

  /** An entry of a directory: its name, and the node it is once links are followed. */
  datatype Entry = Entry(name: string, target: nat)

  /**
   Directories and files are nodes, finitely many; several paths may lead to one node. `resolve` says
   which node, if any, a path leads to.
   */
  datatype FileSystem = FileSystem(directories: map<nat, seq<Entry>>, regular: set<nat>,
                                   resolve: string -> Option<nat>) {
    predicate IsDirectory(p: string) {
      resolve(p).Some? && resolve(p).value in directories
    }

    predicate IsRegular(p: string) {
      resolve(p).Some? && resolve(p).value in regular
    }

    function Node(p: string): (d: nat)
      requires IsDirectory(p)
    {
      resolve(p).value
    }

    /** What iterating over a directory yields. */
    function Children(p: string): (paths: seq<string>)
      requires IsDirectory(p)
      ensures |paths| == |directories[Node(p)]|
      ensures forall i :: 0 <= i < |paths| ==> paths[i] == Child(p, directories[Node(p)][i].name)
    {
      var entries := directories[Node(p)];
      seq(|entries|, i requires 0 <= i < |entries| => Child(p, entries[i].name))
    }

    /** Entries have names, and their paths lead to them. */
    ghost predicate WellFormed() {
      forall p, i :: IsDirectory(p) && 0 <= i < |directories[Node(p)]| ==> Leads(p, directories[Node(p)][i])
    }

    predicate Leads(p: string, e: Entry) {
      e.name != "" && resolve(Child(p, e.name)) == Some(e.target)
    }

    /** A directory entry that is collected: anything but a directory with the right suffix. */
    predicate IsFidlEntry(p: string) {
      !IsDirectory(p) && EndsWith(p, SUFFIX)
    }

    /** A path from the queue that is collected itself. */
    predicate IsFidlFile(p: string) {
      !IsDirectory(p) && IsRegular(p) && EndsWith(p, SUFFIX)
    }

    // ----- reachable paths -----

    /** c leads from a path of the command line through directories, entry by entry. */
    ghost predicate Chain(cli: seq<string>, c: seq<string>) {
      && c != [] && c[0] in cli
      && forall i :: 0 <= i < |c| - 1 ==> IsDirectory(c[i]) && c[i + 1] in Children(c[i])
    }

    ghost predicate Reachable(cli: seq<string>, p: string) {
      exists c :: Chain(cli, c) && c[|c| - 1] == p
    }

    /** p is the path of an entry of some reachable directory. */
    ghost predicate Found(cli: seq<string>, p: string) {
      exists d :: Reachable(cli, d) && IsDirectory(d) && p in Children(d)
    }

    // ----- reachable directories -----

    ghost predicate HasEntry(d: nat, e: nat) {
      d in directories && exists i :: 0 <= i < |directories[d]| && directories[d][i].target == e
    }

    /** w leads from a directory of the command line from directory to directory. */
    ghost predicate Walk(cli: seq<string>, w: seq<nat>) {
      && w != [] && (exists p :: p in cli && IsDirectory(p) && Node(p) == w[0])
      && (forall i :: 0 <= i < |w| ==> w[i] in directories)
      && forall i :: 0 <= i < |w| - 1 ==> HasEntry(w[i], w[i + 1])
    }

    ghost predicate CycleReachable(cli: seq<string>) {
      exists w, i, j :: Walk(cli, w) && 0 <= i < j < |w| && w[i] == w[j]
    }
  }

  // ----- the search -----

  /** The variables of the search. `popped` records, for statements only, the paths taken from the queue. */
  datatype Search = Search(queue: seq<string>, checked: set<string>, paths: seq<string>, popped: seq<string>)

  /** One entry of a directory. */
  function Enter(fs: FileSystem, s: Search, name: string): (r: Search) {
    if fs.IsDirectory(name) then
      if name in s.checked then s else s.(checked := s.checked + {name}, queue := s.queue + [name])
    else if EndsWith(name, SUFFIX) then s.(paths := s.paths + [name])
    else s
  }

  function Scan(fs: FileSystem, s: Search, names: seq<string>): (r: Search) {
    if names == [] then s else Enter(fs, Scan(fs, s, names[..|names| - 1]), names[|names| - 1])
  }

  /** One iteration of the loop. */
  function Step(fs: FileSystem, s: Search): (r: Search)
    requires s.queue != []
  {
    var current := s.queue[|s.queue| - 1];
    var s' := s.(queue := s.queue[..|s.queue| - 1], popped := s.popped + [current]);
    if fs.IsDirectory(current) then Scan(fs, s', fs.Children(current))
    else if fs.IsRegular(current) && EndsWith(current, SUFFIX) then s'.(paths := s'.paths + [current])
    else s'
  }

  /** The search after n iterations, or when it ended if that was earlier. */
  function After(fs: FileSystem, cli: seq<string>, n: nat): (s: Search) {
    if n == 0 then Search(cli, {}, [], [])
    else
      var s := After(fs, cli, n - 1);
      if s.queue == [] then s else Step(fs, s)
  }

  ghost predicate Ends(fs: FileSystem, cli: seq<string>) {
    exists n :: After(fs, cli, n).queue == []
  }

  /** The loop over the entries of a directory. */
  method VisitDirectory(fs: FileSystem, queue: seq<string>, checked: set<string>, paths: seq<string>,
                        names: seq<string>, ghost popped: seq<string>)
    returns (queue': seq<string>, checked': set<string>, paths': seq<string>)
    ensures Search(queue', checked', paths', popped) == Scan(fs, Search(queue, checked, paths, popped), names)
  {
    queue', checked', paths' := queue, checked, paths;
    for i := 0 to |names|
      invariant Search(queue', checked', paths', popped) == Scan(fs, Search(queue, checked, paths, popped), names[..i])
    {
      var name := names[i];
      TakeOneMore(names, i);
      if fs.IsDirectory(name) {
        if name !in checked' {
          checked' := checked' + {name};
          queue' := queue' + [name];
        }
      } else if EndsWith(name, SUFFIX) {
        paths' := paths' + [name];
      }
    }
    assert names[..|names|] == names;
  }

  /** The body of the loop. */
  method Visit(fs: FileSystem, queue: seq<string>, checked: set<string>, paths: seq<string>, ghost popped: seq<string>)
    returns (queue': seq<string>, checked': set<string>, paths': seq<string>)
    requires queue != []
    ensures Search(queue', checked', paths', popped + [queue[|queue| - 1]]) ==
            Step(fs, Search(queue, checked, paths, popped))
  {
    var current := queue[|queue| - 1];
    queue', checked', paths' := queue[..|queue| - 1], checked, paths;
    if fs.IsDirectory(current) {
      queue', checked', paths' := VisitDirectory(fs, queue', checked, paths, fs.Children(current), popped + [current]);
    } else if fs.IsRegular(current) && EndsWith(current, SUFFIX) {
      paths' := paths' + [current];
    }
  }

  // ----- what every iteration keeps -----

  /** What one path taken from the queue contributes. */
  function Contributes(fs: FileSystem, p: string): (files: seq<string>) {
    if fs.IsDirectory(p) then Collected(fs, fs.Children(p)) else if fs.IsFidlFile(p) then [p] else []
  }

  /** The entries that are collected. */
  function Collected(fs: FileSystem, names: seq<string>): (files: seq<string>) {
    if names == [] then []
    else
      var files, name := Collected(fs, names[..|names| - 1]), names[|names| - 1];
      if fs.IsFidlEntry(name) then files + [name] else files
  }

  function ContributesAll(fs: FileSystem, ps: seq<string>): (files: seq<string>) {
    if ps == [] then [] else ContributesAll(fs, ps[..|ps| - 1]) + Contributes(fs, ps[|ps| - 1])
  }

  /** What scanning adds: the directories among the names not met before, each once, and the files. */
  ghost predicate Scanned(fs: FileSystem, s: Search, names: seq<string>, r: Search) {
    && s.checked <= r.checked && r.popped == s.popped
    && (forall p :: p in r.checked <==> p in s.checked || (p in names && fs.IsDirectory(p)))
    && multiset(r.queue) + multiset(s.checked) == multiset(s.queue) + multiset(r.checked)
    && (forall p :: p in r.queue ==> p in s.queue || p in r.checked)
    && (r.checked == s.checked ==> r.queue == s.queue)
    && r.paths == s.paths + Collected(fs, names)
  }

  lemma {:induction false} ScanAdds(fs: FileSystem, s: Search, names: seq<string>)
    ensures Scanned(fs, s, names, Scan(fs, s, names))
    decreases |names|
  {
    if names != [] {
      ScanAdds(fs, s, names[..|names| - 1]);
      EnterAdds(fs, s, names[..|names| - 1], Scan(fs, s, names[..|names| - 1]), names[|names| - 1]);
      SplitLast(names);
    }
  }

  lemma EnterAdds(fs: FileSystem, s: Search, names: seq<string>, r: Search, name: string)
    requires Scanned(fs, s, names, r)
    ensures Scanned(fs, s, names + [name], Enter(fs, r, name))
  {
    assert (names + [name])[..|names|] == names;
    if fs.IsDirectory(name) && name !in r.checked {
      assert multiset(r.checked + {name}) == multiset(r.checked) + multiset{name};
      assert multiset(r.queue + [name]) == multiset(r.queue) + multiset{name};
      Shifted(multiset(r.queue), multiset(s.checked), multiset(s.queue), multiset(r.checked), name);
    }
  }

  lemma Shifted(a: multiset<string>, b: multiset<string>, c: multiset<string>, d: multiset<string>, x: string)
    requires a + b == c + d
    ensures (a + multiset{x}) + b == c + (d + multiset{x})
  {
    assert (a + multiset{x}) + b == (a + b) + multiset{x};
  }

  /** What holds between iterations. */
  ghost predicate Searching(fs: FileSystem, cli: seq<string>, s: Search) {
    && multiset(s.popped) + multiset(s.queue) == multiset(cli) + multiset(s.checked)
    && (forall p :: p in s.popped || p in s.queue ==> fs.Reachable(cli, p))
    && (forall c :: c in s.checked ==> fs.IsDirectory(c) && fs.Found(cli, c))
    && (forall d, p :: d in s.popped && fs.IsDirectory(d) && p in fs.Children(d) && fs.IsDirectory(p) ==>
        p in s.checked)
    && s.paths == ContributesAll(fs, s.popped)
  }

  lemma EntryIsReachable(fs: FileSystem, cli: seq<string>, d: string, p: string)
    requires fs.Reachable(cli, d) && fs.IsDirectory(d) && p in fs.Children(d)
    ensures fs.Reachable(cli, p) && fs.Found(cli, p)
  {
    var c :| fs.Chain(cli, c) && c[|c| - 1] == d;
    ChainExtends(fs, cli, c, p);
    assert (c + [p])[|c + [p]| - 1] == p;
  }

  lemma ChainExtends(fs: FileSystem, cli: seq<string>, c: seq<string>, p: string)
    requires fs.Chain(cli, c) && fs.IsDirectory(c[|c| - 1]) && p in fs.Children(c[|c| - 1])
    ensures fs.Chain(cli, c + [p])
  {
    var c' := c + [p];
    forall i | 0 <= i < |c'| - 1
      ensures fs.IsDirectory(c'[i]) && c'[i + 1] in fs.Children(c'[i])
    {
      if i < |c| - 1 {
        assert fs.IsDirectory(c[i]) && c[i + 1] in fs.Children(c[i]);
      }
    }
  }

  lemma GivenIsReachable(fs: FileSystem, cli: seq<string>, p: string)
    requires p in cli
    ensures fs.Reachable(cli, p)
  {
    assert fs.Chain(cli, [p]) && [p][0] == p;
  }

  lemma FoundIsReachable(fs: FileSystem, cli: seq<string>, p: string)
    requires fs.Found(cli, p)
    ensures fs.Reachable(cli, p)
  {
    var d :| fs.Reachable(cli, d) && fs.IsDirectory(d) && p in fs.Children(d);
    EntryIsReachable(fs, cli, d, p);
  }

  lemma Rebalance(popped: multiset<string>, queue: multiset<string>, cli: multiset<string>, checked: multiset<string>,
                  queue': multiset<string>, checked': multiset<string>)
    requires popped + queue == cli + checked
    requires queue' + checked == queue + checked'
    ensures popped + queue' == cli + checked'
  {
    forall p: string
      ensures (popped + queue')[p] == (cli + checked')[p]
    {
      assert (popped + queue)[p] == (cli + checked)[p];
      assert (queue' + checked)[p] == (queue + checked')[p];
    }
  }

  /** Taking a path from the queue, before its entries are looked at. */
  lemma PopBalances(fs: FileSystem, cli: seq<string>, s: Search)
    requires Searching(fs, cli, s) && s.queue != []
    ensures var current := s.queue[|s.queue| - 1];
            && fs.Reachable(cli, current)
            && multiset(s.popped + [current]) + multiset(s.queue[..|s.queue| - 1]) ==
               multiset(cli) + multiset(s.checked)
  {
    var rest, current := s.queue[..|s.queue| - 1], s.queue[|s.queue| - 1];
    SplitLast(s.queue);
    assert current in s.queue;
    assert multiset(s.popped + [current]) == multiset(s.popped) + multiset{current};
    assert multiset(rest + [current]) == multiset(rest) + multiset{current};
    assert multiset(s.popped) + multiset{current} + multiset(rest) ==
           multiset(s.popped) + (multiset(rest) + multiset{current});
  }

  lemma CheckedAreFound(fs: FileSystem, cli: seq<string>, current: string, checked: set<string>, checked': set<string>)
    requires fs.Reachable(cli, current) && fs.IsDirectory(current)
    requires forall c :: c in checked ==> fs.IsDirectory(c) && fs.Found(cli, c)
    requires forall p :: p in checked' <==> p in checked || (p in fs.Children(current) && fs.IsDirectory(p))
    ensures forall c :: c in checked' ==> fs.IsDirectory(c) && fs.Found(cli, c) && fs.Reachable(cli, c)
  {
    forall c | c in checked'
      ensures fs.IsDirectory(c) && fs.Found(cli, c) && fs.Reachable(cli, c)
    {
      if c in checked {
        FoundIsReachable(fs, cli, c);
      } else {
        EntryIsReachable(fs, cli, current, c);
      }
    }
  }

  /** The closure of the expanded directories, after one more is expanded. */
  lemma ExpandedAreClosed(fs: FileSystem, popped: seq<string>, current: string, checked: set<string>,
                          checked': set<string>)
    requires forall d, p :: d in popped && fs.IsDirectory(d) && p in fs.Children(d) && fs.IsDirectory(p) ==>
             p in checked
    requires checked <= checked'
    requires fs.IsDirectory(current) ==> forall p :: p in fs.Children(current) && fs.IsDirectory(p) ==> p in checked'
    ensures forall d, p ::
              d in popped + [current] && fs.IsDirectory(d) && p in fs.Children(d) && fs.IsDirectory(p) ==> p in checked'
  {
  }

  lemma ContributesOneMore(fs: FileSystem, popped: seq<string>, current: string)
    ensures ContributesAll(fs, popped + [current]) == ContributesAll(fs, popped) + Contributes(fs, current)
  {
    assert (popped + [current])[..|popped|] == popped;
  }

  lemma DirectoryStepKeepsSearching(fs: FileSystem, cli: seq<string>, s: Search, rest: seq<string>, current: string,
                                    r: Search)
    requires Searching(fs, cli, s) && fs.IsDirectory(current) && fs.Reachable(cli, current)
    requires forall p :: p in rest ==> p in s.queue
    requires multiset(s.popped + [current]) + multiset(rest) == multiset(cli) + multiset(s.checked)
    requires Scanned(fs, s.(queue := rest, popped := s.popped + [current]), fs.Children(current), r)
    ensures Searching(fs, cli, r)
  {
    CheckedAreFound(fs, cli, current, s.checked, r.checked);
    ExpandedAreClosed(fs, s.popped, current, s.checked, r.checked);
    ContributesOneMore(fs, s.popped, current);
    Rebalance(multiset(r.popped), multiset(rest), multiset(cli), multiset(s.checked), multiset(r.queue),
              multiset(r.checked));
  }

  lemma FileStepKeepsSearching(fs: FileSystem, cli: seq<string>, s: Search, rest: seq<string>, current: string,
                               paths: seq<string>)
    requires Searching(fs, cli, s) && !fs.IsDirectory(current) && fs.Reachable(cli, current)
    requires forall p :: p in rest ==> p in s.queue
    requires multiset(s.popped + [current]) + multiset(rest) == multiset(cli) + multiset(s.checked)
    requires paths == s.paths + Contributes(fs, current)
    ensures Searching(fs, cli, Search(rest, s.checked, paths, s.popped + [current]))
  {
    ExpandedAreClosed(fs, s.popped, current, s.checked, s.checked);
    ContributesOneMore(fs, s.popped, current);
  }

  lemma StepKeepsSearching(fs: FileSystem, cli: seq<string>, s: Search)
    requires Searching(fs, cli, s) && s.queue != []
    ensures Searching(fs, cli, Step(fs, s))
  {
    var rest, current := s.queue[..|s.queue| - 1], s.queue[|s.queue| - 1];
    PopBalances(fs, cli, s);
    if fs.IsDirectory(current) {
      var s' := s.(queue := rest, popped := s.popped + [current]);
      ScanAdds(fs, s', fs.Children(current));
      DirectoryStepKeepsSearching(fs, cli, s, rest, current, Scan(fs, s', fs.Children(current)));
    } else {
      FileStepKeepsSearching(fs, cli, s, rest, current, Step(fs, s).paths);
    }
  }

  lemma StartKeepsSearching(fs: FileSystem, cli: seq<string>)
    ensures Searching(fs, cli, Search(cli, {}, [], []))
  {
    forall p | p in cli
      ensures fs.Reachable(cli, p)
    {
      GivenIsReachable(fs, cli, p);
    }
  }

  lemma {:induction false} AfterKeepsSearching(fs: FileSystem, cli: seq<string>, n: nat)
    ensures Searching(fs, cli, After(fs, cli, n))
  {
    if n == 0 {
      StartKeepsSearching(fs, cli);
    } else {
      AfterKeepsSearching(fs, cli, n - 1);
      if After(fs, cli, n - 1).queue != [] {
        StepKeepsSearching(fs, cli, After(fs, cli, n - 1));
      }
    }
  }

  // ----- what a search that ended has done -----

  lemma ChainInit(fs: FileSystem, cli: seq<string>, c: seq<string>)
    requires fs.Chain(cli, c) && |c| > 1
    ensures fs.Chain(cli, c[..|c| - 1]) && fs.IsDirectory(c[|c| - 2]) && c[|c| - 1] in fs.Children(c[|c| - 2])
  {
    var init := c[..|c| - 1];
    forall i | 0 <= i < |init| - 1
      ensures fs.IsDirectory(init[i]) && init[i + 1] in fs.Children(init[i])
    {
      assert fs.IsDirectory(c[i]) && c[i + 1] in fs.Children(c[i]);
    }
    assert c[|c| - 2 + 1] in fs.Children(c[|c| - 2]);
  }

  /**
   What holds the given paths and, with a directory, the directories among its entries, holds every
   reachable directory.
   */
  lemma {:induction false} ClosedHoldsChain(fs: FileSystem, cli: seq<string>, c: seq<string>, seen: seq<string>)
    requires fs.Chain(cli, c)
    requires forall p :: p in cli ==> p in seen
    requires forall d, p :: d in seen && fs.IsDirectory(d) && p in fs.Children(d) && fs.IsDirectory(p) ==> p in seen
    ensures fs.IsDirectory(c[|c| - 1]) ==> c[|c| - 1] in seen
    decreases |c|
  {
    if |c| > 1 {
      ChainInit(fs, cli, c);
      ClosedHoldsChain(fs, cli, c[..|c| - 1], seen);
    }
  }

  lemma PoppedHolds(fs: FileSystem, cli: seq<string>, s: Search)
    requires Searching(fs, cli, s) && s.queue == []
    ensures multiset(s.popped) == multiset(cli) + multiset(s.checked)
    ensures forall p :: p in s.popped <==> p in cli || p in s.checked
  {
    assert multiset(s.queue) == multiset{};
    forall p: string
      ensures p in s.popped <==> p in cli || p in s.checked
    {
      InSumIff(s.popped, cli, s.checked, p);
    }
  }

  lemma InSumIff(all: seq<string>, some: seq<string>, others: set<string>, p: string)
    requires multiset(all) == multiset(some) + multiset(others)
    ensures p in all <==> p in some || p in others
  {
    assert p in all <==> p in multiset(all);
    assert p in some <==> p in multiset(some);
  }

  /** Every reachable directory path has been taken from the queue. */
  lemma ReachableIsPopped(fs: FileSystem, cli: seq<string>, s: Search, d: string)
    requires Searching(fs, cli, s) && s.queue == [] && fs.Reachable(cli, d) && fs.IsDirectory(d)
    ensures d in s.popped
  {
    PoppedHolds(fs, cli, s);
    var c :| fs.Chain(cli, c) && c[|c| - 1] == d;
    ClosedHoldsChain(fs, cli, c, s.popped);
  }

  lemma {:induction false} CollectedMeans(fs: FileSystem, names: seq<string>, p: string)
    ensures p in Collected(fs, names) <==> p in names && fs.IsFidlEntry(p)
    decreases |names|
  {
    if names != [] {
      CollectedMeans(fs, names[..|names| - 1], p);
      SplitLast(names);
    }
  }

  lemma {:induction false} ContributesAllMeans(fs: FileSystem, ps: seq<string>, f: string)
    ensures f in ContributesAll(fs, ps) <==> exists p :: p in ps && f in Contributes(fs, p)
    decreases |ps|
  {
    if ps != [] {
      ContributesAllMeans(fs, ps[..|ps| - 1], f);
      SplitLast(ps);
    }
  }

  lemma CollectedIsReachable(fs: FileSystem, cli: seq<string>, s: Search, f: string)
    requires Searching(fs, cli, s) && s.queue == [] && f in s.paths
    ensures (f in cli && fs.IsFidlFile(f)) || (fs.Found(cli, f) && fs.IsFidlEntry(f))
  {
    ContributesAllMeans(fs, s.popped, f);
    var p :| p in s.popped && f in Contributes(fs, p);
    if fs.IsDirectory(p) {
      CollectedMeans(fs, fs.Children(p), f);
    } else {
      PoppedHolds(fs, cli, s);
    }
  }

  lemma FoundIsCollected(fs: FileSystem, cli: seq<string>, s: Search, f: string)
    requires Searching(fs, cli, s) && s.queue == [] && fs.Found(cli, f) && fs.IsFidlEntry(f)
    ensures f in s.paths
  {
    var d :| fs.Reachable(cli, d) && fs.IsDirectory(d) && f in fs.Children(d);
    ReachableIsPopped(fs, cli, s, d);
    CollectedMeans(fs, fs.Children(d), f);
    assert f in Contributes(fs, d);
    ContributesAllMeans(fs, s.popped, f);
  }

  lemma GivenIsCollected(fs: FileSystem, cli: seq<string>, s: Search, f: string)
    requires Searching(fs, cli, s) && s.queue == [] && f in cli && fs.IsFidlFile(f)
    ensures f in s.paths
  {
    PoppedHolds(fs, cli, s);
    assert f in Contributes(fs, f);
    ContributesAllMeans(fs, s.popped, f);
  }

  /** What the queue gave in all, the directories met, and the files collected. */
  ghost predicate Complete(fs: FileSystem, cli: seq<string>, s: Search) {
    && multiset(s.popped) == multiset(cli) + multiset(s.checked)
    && (forall d :: d in s.checked <==> fs.IsDirectory(d) && fs.Found(cli, d))
    && s.paths == ContributesAll(fs, s.popped)
    && forall f :: f in s.paths <==> (f in cli && fs.IsFidlFile(f)) || (fs.Found(cli, f) && fs.IsFidlEntry(f))
  }

  lemma SearchDone(fs: FileSystem, cli: seq<string>, s: Search)
    requires Searching(fs, cli, s) && s.queue == []
    ensures Complete(fs, cli, s)
  {
    PoppedHolds(fs, cli, s);
    forall d | fs.IsDirectory(d) && fs.Found(cli, d)
      ensures d in s.checked
    {
      var parent :| fs.Reachable(cli, parent) && fs.IsDirectory(parent) && d in fs.Children(parent);
      ReachableIsPopped(fs, cli, s, parent);
    }
    forall f
      ensures f in s.paths <==> (f in cli && fs.IsFidlFile(f)) || (fs.Found(cli, f) && fs.IsFidlEntry(f))
    {
      if f in s.paths {
        CollectedIsReachable(fs, cli, s, f);
      } else if fs.Found(cli, f) && fs.IsFidlEntry(f) {
        FoundIsCollected(fs, cli, s, f);
      } else if f in cli && fs.IsFidlFile(f) {
        GivenIsCollected(fs, cli, s, f);
      }
    }
  }

  /**
   How often the directory at a path is expanded under that path: once for every time the command
   line gives the path, and once more exactly if it is the path of an entry of a reachable directory.
   So a path is expanded twice only if it was also given on the command line.
   */
  lemma ExpansionCount(fs: FileSystem, cli: seq<string>, n: nat, p: string)
    requires After(fs, cli, n).queue == [] && fs.IsDirectory(p)
    ensures var popped := After(fs, cli, n).popped;
            && multiset(popped)[p] == multiset(cli)[p] + (if fs.Found(cli, p) then 1 else 0)
            && (multiset(popped)[p] > 1 ==> p in cli)
            && (fs.Reachable(cli, p) <==> p in popped)
  {
    var s := After(fs, cli, n);
    AfterKeepsSearching(fs, cli, n);
    SearchDone(fs, cli, s);
    if fs.Reachable(cli, p) {
      ReachableIsPopped(fs, cli, s, p);
    }
  }

  /** A directory is expanded anew under each of the paths that reach it. */
  lemma EveryNameExpands(fs: FileSystem, cli: seq<string>, n: nat, p: string, q: string)
    requires After(fs, cli, n).queue == [] && fs.IsDirectory(p) && fs.IsDirectory(q) && fs.Node(p) == fs.Node(q)
             && p != q
    requires fs.Reachable(cli, p) && fs.Reachable(cli, q)
    ensures p in After(fs, cli, n).popped && q in After(fs, cli, n).popped
  {
    ExpansionCount(fs, cli, n, p);
    ExpansionCount(fs, cli, n, q);
  }
}
