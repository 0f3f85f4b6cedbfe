/**
 Creating runners. A runner is itself a component, so creating one may need another runner first;
 a null entry in the map of runners marks those under construction and detects cycles.
 */
module Runners {
  import opened Common

  // ----- from a URL to what launches it -----

  function ToLowerASCII(c: char): (r: char) {
    if 'A' <= c <= 'Z' then (c as int - 'A' as int + 'a' as int) as char else c
  }

  function FindColon(s: string, from: nat): (i: nat)
    requires from <= |s|
    ensures from <= i <= |s| && (i < |s| ==> s[i] == ':') && forall j :: from <= j < i ==> s[j] != ':'
    decreases |s| - from
  {
    if from == |s| || s[from] == ':' then from else FindColon(s, from + 1)
  }

  function CanonicalizeURL(url: string): (r: string) {
    if url != "" && FindColon(url, 0) == |url| then "file://" + url else url
  }

  function GetSchemeFromURL(url: string): (scheme: string) {
    var len := FindColon(url, 0);
    if len == |url| then "" else seq(len, i requires 0 <= i < len => ToLowerASCII(url[i]))
  }

  datatype Launcher = Nothing | Package | Runner(url: string)

  /** Scheme lookup: no entry fails, "package" is built in, anything else names a runner. */
  function LauncherOf(schemeMap: map<string, string>, url: string): (l: Launcher)
    ensures l.Runner? ==> l.url in schemeMap.Values
  {
    if url == "" then Nothing
    else
      var scheme := GetSchemeFromURL(CanonicalizeURL(url));
      if scheme !in schemeMap || schemeMap[scheme] == "" then Nothing
      else if schemeMap[scheme] == "package" then Package
      else Runner(schemeMap[scheme])
  }

  /** key is the scheme with its capital letters made small. */
  predicate IsLowerCaseOf(key: string, scheme: string) {
    && |key| == |scheme|
    && forall i :: 0 <= i < |scheme| ==>
         if 'A' <= scheme[i] <= 'Z' then 'a' <= key[i] <= 'z' && key[i] - 'a' == scheme[i] - 'A'
         else key[i] == scheme[i]
  }

  /** What an entry of the scheme map says, if there is one. */
  predicate Means(schemeMap: map<string, string>, key: string, l: Launcher) {
    && (l.Nothing? <==> key !in schemeMap || schemeMap[key] == "")
    && (l.Package? <==> key in schemeMap && schemeMap[key] == "package")
    && (l.Runner? ==> key in schemeMap && l.url == schemeMap[key])
  }

  lemma FirstColon(scheme: string, rest: string, from: nat)
    requires ':' !in scheme && from <= |scheme|
    ensures FindColon(scheme + ":" + rest, from) == |scheme|
  {
    assert (scheme + ":" + rest)[|scheme|] == ':';
  }

  lemma SchemeOf(scheme: string, rest: string, key: string)
    requires ':' !in scheme && IsLowerCaseOf(key, scheme)
    ensures GetSchemeFromURL(scheme + ":" + rest) == key
  {
    FirstColon(scheme, rest, 0);
    var url := scheme + ":" + rest;
    forall i | 0 <= i < |scheme|
      ensures GetSchemeFromURL(url)[i] == key[i]
    {
      assert url[i] == scheme[i];
    }
  }

  /**
   On the text of a URL: the part before the first colon decides, in small letters. Its entry is what
   launches the component: nothing, if it is missing or empty; the package loader, if it is "package";
   else the runner it names.
   */
  lemma SchemeDecides(schemeMap: map<string, string>, scheme: string, rest: string, key: string)
    requires ':' !in scheme && IsLowerCaseOf(key, scheme)
    ensures Means(schemeMap, key, LauncherOf(schemeMap, scheme + ":" + rest))
  {
    FirstColon(scheme, rest, 0);
    SchemeOf(scheme, rest, key);
  }

  /** A text without a colon is a file; the empty one is nothing. */
  lemma FileWithoutScheme(schemeMap: map<string, string>, path: string)
    requires ':' !in path
    ensures if path == "" then LauncherOf(schemeMap, path) == Nothing
            else Means(schemeMap, "file", LauncherOf(schemeMap, path))
  {
    if path != "" {
      assert "file" + ":" + ("//" + path) == "file://" + path;
      SchemeOf("file", "//" + path, "file");
    }
  }

  // ----- which runners a request creates -----

  /** The runners created, outermost first, to get a runner for url: each is launched by the next. */
  function NewRunners(schemeMap: map<string, string>, inherited: set<string>, own: set<string>,
                      url: string): (urls: seq<string>)
    decreases schemeMap.Values - own, url !in schemeMap.Values
  {
    if url in own || url in inherited then []
    else
      match LauncherOf(schemeMap, url)
      case Runner(next) => [url] + NewRunners(schemeMap, inherited, own + {url}, next)
      case _ => [url]
  }

  /**
   What stops the chain: a launch that needs no runner, a runner that is there already, or one of the
   chain itself.
   */
  predicate ChainEnds(schemeMap: map<string, string>, inherited: set<string>, own: set<string>, urls: seq<string>,
                      last: string) {
    var l := LauncherOf(schemeMap, last);
    l.Runner? ==> l.url in own || l.url in inherited || l.url in urls
  }

  /** The chain follows the scheme map, never repeats a runner, and is as long as it can be. */
  lemma {:induction false} NewRunnersFollowSchemes(schemeMap: map<string, string>, inherited: set<string>,
                                                   own: set<string>, url: string)
    ensures var urls := NewRunners(schemeMap, inherited, own, url);
            && (urls == [] <==> url in own || url in inherited)
            && (urls != [] ==> urls[0] == url && ChainEnds(schemeMap, inherited, own, urls, urls[|urls| - 1]))
            && (forall i :: 0 <= i < |urls| ==> urls[i] !in own && urls[i] !in inherited)
            && (forall i :: 0 <= i < |urls| - 1 ==> LauncherOf(schemeMap, urls[i]) == Runner(urls[i + 1]))
            && (forall i, j :: 0 <= i < j < |urls| ==> urls[i] != urls[j])
    decreases schemeMap.Values - own, url !in schemeMap.Values
  {
    if url !in own && url !in inherited {
      var l := LauncherOf(schemeMap, url);
      if l.Runner? {
        NewRunnersFollowSchemes(schemeMap, inherited, own + {url}, l.url);
        var rest := NewRunners(schemeMap, inherited, own + {url}, l.url);
        assert NewRunners(schemeMap, inherited, own, url) == [url] + rest;
      }
    }
  }

  /** What happens to a component that is launched. */
  datatype Event =
    | UrlInvalid(url: string)
    | LoadsPackage(url: string)
    | RunnerFailed(url: string, runner: string)
    | StartsOn(url: string, runner: string)

  /** The events of launching url, when `own` has entries and those in `nulls` are under construction. */
  function Launch(schemeMap: map<string, string>, inherited: set<string>, own: set<string>, nulls: set<string>,
                  url: string): (events: seq<Event>)
    decreases schemeMap.Values - own
  {
    match LauncherOf(schemeMap, url)
    case Nothing => [UrlInvalid(url)]
    case Package => [LoadsPackage(url)]
    case Runner(next) =>
      if next in nulls then [RunnerFailed(url, next)]
      else if next in own || next in inherited then [StartsOn(url, next)]
      else Launch(schemeMap, inherited, own + {next}, nulls + {next}, next) + [StartsOn(url, next)]
  }

  /** The last runner of the chain needs one that is under construction. */
  predicate ChainCloses(schemeMap: map<string, string>, nulls: set<string>, urls: seq<string>) {
    urls != [] &&
    var l := LauncherOf(schemeMap, urls[|urls| - 1]);
    l.Runner? && (l.url in nulls || l.url in urls)
  }

  lemma ChainClosesStep(schemeMap: map<string, string>, nulls: set<string>, url: string, urls: seq<string>)
    ensures urls != [] ==> (ChainCloses(schemeMap, nulls, [url] + urls) <==>
                            ChainCloses(schemeMap, nulls + {url}, urls))
  {
    if urls != [] {
      assert ([url] + urls)[|urls|] == urls[|urls| - 1];
    }
  }

  /**
   A launch reports a runner failure only as its first event, and exactly when its runner is under
   construction or the chain of runners it creates comes back to one that is, itself included.
   */
  lemma {:induction false} FailureIffCycle(schemeMap: map<string, string>, inherited: set<string>, own: set<string>,
                                           nulls: set<string>, url: string)
    requires nulls <= own
    ensures var events := Launch(schemeMap, inherited, own, nulls, url);
            var l := LauncherOf(schemeMap, url);
            && events != []
            && (forall i :: 1 <= i < |events| ==> events[i].StartsOn?)
            && (events[0].RunnerFailed? <==>
                l.Runner? && (l.url in nulls
                              || ChainCloses(schemeMap, nulls, NewRunners(schemeMap, inherited, own, l.url))))
    decreases schemeMap.Values - own
  {
    var l := LauncherOf(schemeMap, url);
    if l.Runner? && l.url !in own && l.url !in inherited {
      var own', nulls' := own + {l.url}, nulls + {l.url};
      FailureIffCycle(schemeMap, inherited, own', nulls', l.url);
      var l' := LauncherOf(schemeMap, l.url);
      var urls := NewRunners(schemeMap, inherited, own, l.url);
      if l'.Runner? {
        assert urls == [l.url] + NewRunners(schemeMap, inherited, own', l'.url);
        ChainClosesStep(schemeMap, nulls, l.url, NewRunners(schemeMap, inherited, own', l'.url));
      }
    }
  }

  /** The runners that launching url creates. */
  function RunnersFor(schemeMap: map<string, string>, inherited: set<string>, own: set<string>,
                      url: string): (urls: seq<string>) {
    var l := LauncherOf(schemeMap, url);
    if l.Runner? then NewRunners(schemeMap, inherited, own, l.url) else []
  }

  /** The first event of a launch is that of the last of the components launched for it. */
  function FirstEvent(schemeMap: map<string, string>, nulls: set<string>, urls: seq<string>): (e: Event)
    requires urls != []
  {
    var last := urls[|urls| - 1];
    match LauncherOf(schemeMap, last)
    case Nothing => UrlInvalid(last)
    case Package => LoadsPackage(last)
    case Runner(next) =>
      if next in nulls || next in urls[1..] then RunnerFailed(last, next) else StartsOn(last, next)
  }

  /**
   Launching url launches the runners it creates, each before the one that needs it: the last is
   refused, loaded, started or left without its runner; then each of the others starts on the next.
   */
  lemma {:induction false} LaunchMeans(schemeMap: map<string, string>, inherited: set<string>, own: set<string>,
                                       nulls: set<string>, url: string)
    requires nulls <= own
    ensures var urls := [url] + RunnersFor(schemeMap, inherited, own, url);
            var events := Launch(schemeMap, inherited, own, nulls, url);
            && |events| == |urls| && events[0] == FirstEvent(schemeMap, nulls, urls)
            && forall i :: 1 <= i < |urls| ==> events[i] == StartsOn(urls[|urls| - 1 - i], urls[|urls| - i])
    decreases schemeMap.Values - own
  {
    var l := LauncherOf(schemeMap, url);
    if l.Runner? && l.url !in own && l.url !in inherited {
      LaunchMeans(schemeMap, inherited, own + {l.url}, nulls + {l.url}, l.url);
      var inner := [l.url] + RunnersFor(schemeMap, inherited, own + {l.url}, l.url);
      assert RunnersFor(schemeMap, inherited, own, url) == inner;
      FirstEventOutside(schemeMap, nulls, url, inner);
    }
  }

  lemma FirstEventOutside(schemeMap: map<string, string>, nulls: set<string>, url: string, urls: seq<string>)
    requires urls != []
    ensures FirstEvent(schemeMap, nulls, [url] + urls) == FirstEvent(schemeMap, nulls + {urls[0]}, urls)
  {
    assert ([url] + urls)[1..] == urls == [urls[0]] + urls[1..];
    assert ([url] + urls)[|urls|] == urls[|urls| - 1];
  }

  /** The runners of one realm, by URL; None is a runner under construction. */
  type RunnerMap = map<string, Option<nat>>

  datatype Level = Level(runners: RunnerMap, allowParentRunners: bool)

  /** Looks in a realm and, where allowed, in the realms around it; levels[0] is the innermost. */
  function GetRunnerRecursive(levels: seq<Level>, runner: string): (r: Option<nat>) {
    if levels == [] then None
    else if runner in levels[0].runners then levels[0].runners[runner]
    else if levels[0].allowParentRunners then GetRunnerRecursive(levels[1..], runner)
    else None
  }

  /** The runners found in some levels. */
  function Found(levels: seq<Level>): (urls: set<string>) {
    if levels == [] then {}
    else
      (set u | u in levels[0].runners && levels[0].runners[u].Some?) +
      if levels[0].allowParentRunners then Found(levels[1..]) - levels[0].runners.Keys else {}
  }

  /** Level k has the runner completed, and every level nearer has no entry for it and allows its parent's. */
  predicate FoundAt(levels: seq<Level>, runner: string, k: nat) {
    && k < |levels| && runner in levels[k].runners && levels[k].runners[runner].Some?
    && forall j :: 0 <= j < k ==> runner !in levels[j].runners && levels[j].allowParentRunners
  }

  lemma FoundAtNext(levels: seq<Level>, runner: string, k: nat)
    requires levels != []
    ensures FoundAt(levels, runner, k + 1) <==>
            FoundAt(levels[1..], runner, k) && runner !in levels[0].runners && levels[0].allowParentRunners
  {
    assert forall j :: 1 <= j < |levels| ==> levels[j] == levels[1..][j - 1];
    assert forall j :: 0 <= j < |levels| - 1 ==> levels[1..][j] == levels[j + 1];
  }

  /** A runner is found if and only if there is such a level, and the one found is that level's. */
  lemma {:induction false} FoundIffPresent(levels: seq<Level>, runner: string)
    ensures GetRunnerRecursive(levels, runner).Some? <==> exists k: nat :: FoundAt(levels, runner, k)
    ensures forall k: nat :: FoundAt(levels, runner, k) ==>
      GetRunnerRecursive(levels, runner) == levels[k].runners[runner]
    ensures GetRunnerRecursive(levels, runner).Some? <==> runner in Found(levels)
  {
    if levels != [] {
      FoundIffPresent(levels[1..], runner);
      forall k: nat { FoundAtNext(levels, runner, k); }
      if GetRunnerRecursive(levels, runner).Some? {
        if runner in levels[0].runners {
          assert FoundAt(levels, runner, 0);
        } else {
          var k: nat :| FoundAt(levels[1..], runner, k);
          assert FoundAt(levels, runner, k + 1);
        }
      }
      forall k: nat | FoundAt(levels, runner, k)
        ensures GetRunnerRecursive(levels, runner) == levels[k].runners[runner]
      {
        if k > 0 {
          FoundAtNext(levels, runner, k - 1);
        }
      }
    }
  }

  class Realm {
    const schemeMap: map<string, string>
    const allowParentRunners: bool
    /** The realms around this one, nearest first. */
    var enclosing: seq<Level>
    var runners: RunnerMap
    var holdersMade: nat
    var events: seq<Event>
    /** The runners whose holders are being constructed, outermost first. */
    ghost var constructing: seq<string>

    constructor (schemeMap: map<string, string>, allowParentRunners: bool, enclosing: seq<Level>)
      ensures Valid() && constructing == [] && runners == map[] && events == []
      ensures this.schemeMap == schemeMap && this.allowParentRunners == allowParentRunners
              && this.enclosing == enclosing
    {
      this.schemeMap, this.allowParentRunners, this.enclosing := schemeMap, allowParentRunners, enclosing;
      runners, holdersMade, events, constructing := map[], 0, [], [];
    }

    /** Null entries are exactly the constructions in progress, none of which is there twice. */
    ghost predicate Valid()
      reads this
    {
      && (forall u :: u in constructing <==> u in runners && runners[u].None?)
      && (forall i, j :: 0 <= i < j < |constructing| ==> constructing[i] != constructing[j])
    }

    function Levels(): (levels: seq<Level>)
      reads this
    {
      [Level(runners, allowParentRunners)] + enclosing
    }

    /** The runners this realm may use from the realms around it. */
    function Inherited(): (urls: set<string>)
      reads this`enclosing
    {
      if allowParentRunners then Found(enclosing) else {}
    }

    /**
     Gets the runner from this realm or an enclosing one, or creates it here together with the chain
     of runners it needs. Null is returned exactly for a runner under construction in this realm.
     */
    method GetOrCreateRunner(runner: string) returns (r: Option<nat>)
      requires Valid()
      modifies this
      ensures Valid() && constructing == old(constructing) && enclosing == old(enclosing)
      ensures r.None? <==> runner in old(constructing)
      ensures r == GetRunnerRecursive(Levels(), runner)
      ensures Extends(old(runners), runners)
      ensures Created(old(runners), runners, NewRunners(schemeMap, Inherited(), old(runners.Keys), runner))
      ensures events == old(events) +
              if runner in old(runners) || runner in Inherited() then []
              else Launch(schemeMap, Inherited(), old(runners.Keys) + {runner}, Nulls(old(constructing)) + {runner},
                          runner)
      decreases schemeMap.Values - runners.Keys, if runner in schemeMap.Values then 1 else 6
    {
      var found := GetRunnerRecursive(Levels(), runner);
      FoundIffPresent(Levels(), runner);
      assert Levels()[1..] == enclosing;
      if found.Some? {
        return found;
      }
      if runner in runners {
        return None;
      }
      r := CreateRunner(runner);
      return;
    }

    /** The entry is made before the holder, so that the constructor's own requests find it. */
    method CreateRunner(runner: string) returns (r: Option<nat>)
      requires Valid() && runner !in runners && runner !in Inherited()
      modifies this
      ensures Valid() && constructing == old(constructing) && enclosing == old(enclosing)
      ensures r.Some? && runner in runners && runners[runner] == r
      ensures Extends(old(runners), runners)
      ensures Created(old(runners), runners, NewRunners(schemeMap, Inherited(), old(runners.Keys), runner))
      ensures events == old(events) +
              Launch(schemeMap, Inherited(), old(runners.Keys) + {runner}, Nulls(old(constructing)) + {runner}, runner)
      decreases schemeMap.Values - runners.Keys, if runner in schemeMap.Values then 0 else 5
    {
      ghost var before := runners;
      runners := runners[runner := None];
      constructing := constructing + [runner];
      assert runners.Keys == before.Keys + {runner};
      assert Nulls(constructing) == Nulls(old(constructing)) + {runner};
      var holder := ConstructHolder(runner);
      runners := runners[runner := Some(holder)];
      constructing := constructing[..|constructing| - 1];
      assert constructing == old(constructing);
      return runners[runner];
    }

    /** The constructor of RunnerHolder launches the runner as a component of the realm. */
    method ConstructHolder(runner: string) returns (holder: nat)
      requires Valid()
      modifies this
      ensures Valid() && constructing == old(constructing) && enclosing == old(enclosing)
      ensures Extends(old(runners), runners)
      ensures Created(old(runners), runners, RunnersFor(schemeMap, Inherited(), old(runners.Keys), runner))
      ensures events == old(events) +
              Launch(schemeMap, Inherited(), old(runners.Keys), Nulls(old(constructing)), runner)
      decreases schemeMap.Values - runners.Keys, 4
    {
      CreateComponent(runner);
      holder := holdersMade;
      holdersMade := holdersMade + 1;
    }

    method CreateComponent(url: string)
      requires Valid()
      modifies this
      ensures Valid() && constructing == old(constructing) && enclosing == old(enclosing)
      ensures Extends(old(runners), runners)
      ensures Created(old(runners), runners, RunnersFor(schemeMap, Inherited(), old(runners.Keys), url))
      ensures events == old(events) + Launch(schemeMap, Inherited(), old(runners.Keys), Nulls(old(constructing)), url)
      decreases schemeMap.Values - runners.Keys, 3
    {
      match LauncherOf(schemeMap, url)
      case Nothing => events := events + [UrlInvalid(url)];
      case Package => events := events + [LoadsPackage(url)];
      case Runner(runner) => CreateComponentWithRunnerForScheme(runner, url);
    }

    method CreateComponentWithRunnerForScheme(runnerUrl: string, url: string)
      requires Valid() && LauncherOf(schemeMap, url) == Runner(runnerUrl)
      modifies this
      ensures Valid() && constructing == old(constructing) && enclosing == old(enclosing)
      ensures Extends(old(runners), runners)
      ensures Created(old(runners), runners, RunnersFor(schemeMap, Inherited(), old(runners.Keys), url))
      ensures events == old(events) + Launch(schemeMap, Inherited(), old(runners.Keys), Nulls(old(constructing)), url)
      decreases schemeMap.Values - runners.Keys, 2
    {
      var runner := GetOrCreateRunner(runnerUrl);
      if runner.None? {
        events := events + [RunnerFailed(url, runnerUrl)];
        return;
      }
      events := events + [StartsOn(url, runnerUrl)];
    }
  }

  function Nulls(constructing: seq<string>): (urls: set<string>) {
    set u | u in constructing
  }

  /** No entry is lost or changed. */
  ghost predicate Extends(before: RunnerMap, after: RunnerMap) {
    forall u :: u in before ==> u in after && after[u] == before[u]
  }

  /** Exactly the given runners were added, and none is left null. */
  ghost predicate Created(before: RunnerMap, after: RunnerMap, urls: seq<string>) {
    && (forall u :: u in after <==> u in before || u in urls)
    && (forall u :: u in urls ==> u in after && after[u].Some?)
  }
}
