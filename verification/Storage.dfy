/** Paths of the storage that realms and components are given. */
module Storage {
  import opened Common

  /** A directory entry name: not empty and without a slash. */
  predicate IsName(s: string) {
    s != "" && '/' !in s
  }

  predicate AreNames(cs: seq<string>) {
    forall i :: 0 <= i < |cs| ==> IsName(cs[i])
  }

  /** The absolute path with the given components. */
  function Render(cs: seq<string>): (path: string) {
    if cs == [] then "" else Render(cs[..|cs| - 1]) + "/" + cs[|cs| - 1]
  }

  /** path is at or below dir. */
  predicate Under(path: string, dir: string) {
    path == dir || dir + "/" <= path
  }

  /** files::JoinPath. */
  function JoinPath(path1: string, path2: string): (path: string) {
    if path1 == "" then path2
    else if path2 == "" then path1
    else if path1[|path1| - 1] == '/' then
      if path2[0] == '/' then path1 + path2[1..] else path1 + path2
    else
      if path2[0] != '/' then path1 + "/" + path2 else path1 + path2
  }

  /** Whether the first path ends in a slash or the second starts with one, they are joined by one slash. */
  lemma JoinPathMeans(path1: string, path2: string)
    requires path1 != "" && path1[|path1| - 1] != '/' && path2 != "" && path2[0] != '/'
    ensures JoinPath(path1, path2) == path1 + "/" + path2
    ensures JoinPath(path1 + "/", path2) == path1 + "/" + path2
    ensures JoinPath(path1, "/" + path2) == path1 + "/" + path2
    ensures JoinPath(path1 + "/", "/" + path2) == path1 + "/" + path2
    ensures JoinPath("", path2) == path2 && JoinPath(path1, "") == path1
  {
    assert ("/" + path2)[1..] == path2;
    assert path1 + ("/" + path2) == path1 + "/" + path2;
  }

  // ----- rendering loses nothing -----

  lemma {:induction false} RenderAppend(cs: seq<string>, ds: seq<string>)
    ensures Render(cs + ds) == Render(cs) + Render(ds)
    decreases |ds|
  {
    if ds == [] {
      assert cs + ds == cs;
    } else {
      assert (cs + ds)[..|cs + ds| - 1] == cs + ds[..|ds| - 1];
      RenderAppend(cs, ds[..|ds| - 1]);
    }
  }

  lemma RenderOne(c: string)
    ensures Render([c]) == "/" + c
  {
    assert [c][..0] == [];
  }

  /** A longer first component would have to hold the slash that ends the shorter one. */
  lemma LongerHoldsSlash(c: string, s: string, d: string, t: string)
    requires t == "" || t[0] == '/'
    requires c + s == d + t
    ensures |d| < |c| ==> '/' in c
  {
    if |d| < |c| {
      assert (d + t)[|d|] == '/' && (c + s)[|d|] == c[|d|];
    }
  }

  lemma FirstComponent(c: string, s: string, d: string, t: string)
    requires IsName(c) && IsName(d)
    requires s == "" || s[0] == '/'
    requires t == "" || t[0] == '/'
    requires c + s == d + t
    ensures c == d && s == t
  {
    LongerHoldsSlash(c, s, d, t);
    LongerHoldsSlash(d, t, c, s);
    assert c == (c + s)[..|c|] && d == (d + t)[..|c|];
    assert s == (c + s)[|c|..] && t == (d + t)[|c|..];
  }

  lemma RenderStart(cs: seq<string>)
    requires cs != []
    ensures Render(cs) == "/" + cs[0] + Render(cs[1..])
  {
    assert cs == [cs[0]] + cs[1..];
    RenderAppend([cs[0]], cs[1..]);
    RenderOne(cs[0]);
  }

  lemma RenderStartsWithSlash(cs: seq<string>)
    ensures cs == [] || (Render(cs) != "" && Render(cs)[0] == '/')
  {
    if cs != [] {
      RenderStart(cs);
    }
  }

  lemma CancelSlash(c: string, s: string, d: string, t: string, more: string)
    requires "/" + c + s == "/" + d + t + more
    ensures c + s == d + (t + more)
  {
    assert c + s == ("/" + c + s)[1..];
    assert d + (t + more) == ("/" + d + t + more)[1..];
  }

  lemma RenderedHead(cs: seq<string>, ds: seq<string>, more: string)
    requires AreNames(cs) && AreNames(ds) && ds != []
    requires Render(cs) == Render(ds) + more && (more == "" || more[0] == '/')
    ensures cs != [] && cs[0] == ds[0] && Render(cs[1..]) == Render(ds[1..]) + more
  {
    assert cs != [] by { assert Render(ds) != ""; }
    var c, s, d, t := cs[0], Render(cs[1..]), ds[0], Render(ds[1..]);
    assert Render(cs) == "/" + c + s by { RenderStart(cs); }
    assert Render(ds) == "/" + d + t by { RenderStart(ds); }
    CancelSlash(c, s, d, t, more);
    assert s == "" || s[0] == '/' by { RenderStartsWithSlash(cs[1..]); }
    assert t == "" || t[0] == '/' by { RenderStartsWithSlash(ds[1..]); }
    FirstComponent(c, s, d, t + more);
  }

  /** Equal text, or text continued at a slash, means the components of one start with those of the other. */
  lemma {:induction false} RenderedPrefix(cs: seq<string>, ds: seq<string>, more: string)
    requires AreNames(cs) && AreNames(ds)
    requires Render(cs) == Render(ds) + more && (more == "" || more[0] == '/')
    ensures ds <= cs
    decreases |ds|
  {
    if ds != [] {
      RenderedHead(cs, ds, more);
      RenderedPrefix(cs[1..], ds[1..], more);
      assert cs == [cs[0]] + cs[1..] && ds == [ds[0]] + ds[1..];
    }
  }

  /** One path is at or below another exactly when its components extend the other's. */
  lemma UnderIffPrefix(cs: seq<string>, ds: seq<string>)
    requires AreNames(cs) && AreNames(ds)
    ensures Under(Render(cs), Render(ds)) <==> ds <= cs
  {
    if Under(Render(cs), Render(ds)) {
      var more := Render(cs)[|Render(ds)|..];
      assert Render(cs) == Render(ds) + more;
      assert more == "" || more[0] == '/';
      RenderedPrefix(cs, ds, more);
    }
    if ds <= cs {
      PrefixIsUnder(ds, cs[|ds|..]);
      assert cs == ds + cs[|ds|..];
    }
  }

  lemma PrefixIsUnder(ds: seq<string>, rest: seq<string>)
    requires AreNames(ds + rest)
    ensures Under(Render(ds + rest), Render(ds))
  {
    RenderAppend(ds, rest);
    RenderStartsWithSlash(rest);
    ContinuedIsUnder(Render(ds), Render(rest));
  }

  lemma ContinuedIsUnder(dir: string, more: string)
    requires more == "" || more[0] == '/'
    ensures Under(dir + more, dir)
  {
    if more == "" {
      assert dir + more == dir;
    }
  }

  lemma RenderIsInjective(cs: seq<string>, ds: seq<string>)
    requires AreNames(cs) && AreNames(ds) && Render(cs) == Render(ds)
    ensures cs == ds
  {
    RenderedPrefix(cs, ds, "");
    RenderedPrefix(ds, cs, "");
  }

  lemma JoinRendered(cs: seq<string>, c: string)
    requires cs != [] && AreNames(cs) && IsName(c)
    ensures JoinPath(Render(cs), c) == Render(cs + [c])
  {
    var last := cs[|cs| - 1];
    assert Render(cs)[|Render(cs)| - 1] == last[|last| - 1];
    assert last[|last| - 1] in last && c[0] in c;
    assert (cs + [c])[..|cs|] == cs;
  }

  // ----- storage of a realm -----

  const DATA_ROOT: seq<string> := ["data"]
  const CACHE_ROOT: seq<string> := ["data", "cache"]

  /** The components that a chain of nested labels adds to a root: `r`, label, `r`, label, ... */
  function Nested(labels: seq<string>): (cs: seq<string>)
    ensures |cs| == 2 * |labels|
  {
    if labels == [] then [] else Nested(labels[..|labels| - 1]) + ["r", labels[|labels| - 1]]
  }

  lemma {:induction false} NestedAt(labels: seq<string>, i: nat)
    requires i < |labels|
    ensures Nested(labels)[2 * i] == "r" && Nested(labels)[2 * i + 1] == labels[i]
  {
    if i < |labels| - 1 {
      NestedAt(labels[..|labels| - 1], i);
    }
  }

  lemma {:induction false} NestedAreNames(labels: seq<string>)
    requires AreNames(labels)
    ensures AreNames(Nested(labels))
  {
    if labels != [] {
      NestedAreNames(labels[..|labels| - 1]);
    }
  }

  /** The code builds a nested path by joining "r/<label>" to the parent's. */
  lemma NestedPathIsRendered(root: seq<string>, labels: seq<string>, name: string)
    requires root != [] && AreNames(root) && AreNames(labels) && IsName(name)
    ensures JoinPath(Render(root + Nested(labels)), "r/" + name) == Render(root + Nested(labels + [name]))
  {
    var cs := root + Nested(labels);
    NestedAreNames(labels);
    var last := cs[|cs| - 1];
    assert IsName(last);
    assert Render(cs)[|Render(cs)| - 1] == last[|last| - 1];
    assert last[|last| - 1] in last;
    assert JoinPath(Render(cs), "r/" + name) == Render(cs) + "/" + ("r/" + name);
    assert (labels + [name])[..|labels|] == labels;
    assert root + Nested(labels + [name]) == cs + ["r", name];
    RenderAppend(cs, ["r", name]);
    assert ["r", name][..1] == ["r"];
    RenderOne("r");
    assert Render(["r", name]) == "/r/" + name;
  }

  lemma LongerNestsInR(ds: seq<string>, labels: seq<string>, rest: seq<string>)
    requires Nested(ds) <= Nested(labels) + rest
    ensures |ds| > |labels| ==> rest != [] && rest[0] == "r"
  {
    if |ds| > |labels| {
      NestedAt(ds, |labels|);
      assert (Nested(labels) + rest)[2 * |labels|] == rest[0];
    }
  }

  /** Of the paths that do not enter a realm's own `r` directory, exactly its ancestors' and its own are prefixes. */
  lemma PrefixOfOwned(ds: seq<string>, labels: seq<string>, rest: seq<string>)
    requires rest == [] || rest[0] != "r"
    ensures Nested(ds) <= Nested(labels) + rest <==> ds <= labels
  {
    var cs := Nested(labels) + rest;
    if Nested(ds) <= cs {
      LongerNestsInR(ds, labels, rest);
      forall i | 0 <= i < |ds|
        ensures ds[i] == labels[i]
      {
        NestedAt(ds, i);
        NestedAt(labels, i);
        assert cs[2 * i + 1] == Nested(ds)[2 * i + 1];
      }
    }
    if ds <= labels {
      NestedMonotone(ds, labels);
    }
  }

  lemma {:induction false} NestedMonotone(ds: seq<string>, labels: seq<string>)
    requires ds <= labels
    ensures Nested(ds) <= Nested(labels)
    decreases |labels|
  {
    if |ds| < |labels| {
      NestedMonotone(ds, labels[..|labels| - 1]);
    } else {
      assert ds == labels;
    }
  }

  // ----- components -----

  /** A parsed fuchsia-pkg URL. */
  datatype PkgUrl = PkgUrl(host: string, package: string, variant: string, resource: string) {
    /** What the URL's regular expression guarantees. */
    predicate Parsed() {
      && host != "" && '/' !in host
      && package != "" && '/' !in package && '#' !in package && '?' !in package
      && variant != "" && '/' !in variant && '#' !in variant && '?' !in variant
    }

    function Resource(): (r: string) {
      if resource == "" then "meta/" + package + ".cmx" else resource
    }
  }

  /** std::replace of every slash by a colon. */
  function SlashToColon(s: string): (t: string)
    ensures |t| == |s|
    ensures forall i :: 0 <= i < |s| ==> t[i] == if s[i] == '/' then ':' else s[i]
  {
    seq(|s|, i requires 0 <= i < |s| => if s[i] == '/' then ':' else s[i])
  }

  /** Host, package and variant as they appear in an id. */
  function Authority(url: PkgUrl): (text: string) {
    url.host + ":" + url.package + ":" + url.variant
  }

  function StableComponentID(url: PkgUrl): (id: string) {
    Authority(url) + "#" + SlashToColon(url.Resource())
  }

  function IsolatedPathForPackage(prefix: string, url: PkgUrl): (path: string) {
    JoinPath(prefix, StableComponentID(url))
  }

  /** A component's directory is one entry below the realm's path, and no realm or root directory is called like it. */
  lemma ComponentIdIsAName(url: PkgUrl)
    requires url.Parsed()
    ensures IsName(StableComponentID(url)) && ':' in StableComponentID(url)
    ensures StableComponentID(url) != "r" && StableComponentID(url) != "cache" && StableComponentID(url) != "."
  {
    var id := StableComponentID(url);
    assert id[|url.host|] == ':';
    forall i | 0 <= i < |id|
      ensures id[i] != '/'
    {
      var h, p, v := |url.host|, |url.package|, |url.variant|;
      if i < h {
        assert id[i] == url.host[i] && url.host[i] in url.host;
      } else if h < i < h + 1 + p {
        assert id[i] == url.package[i - h - 1] && url.package[i - h - 1] in url.package;
      } else if h + 1 + p < i < h + 2 + p + v {
        assert id[i] == url.variant[i - h - p - 2] && url.variant[i - h - p - 2] in url.variant;
      }
    }
  }

  /** Read from the left, the id of a plain URL names the host, the package, the variant and the resource. */
  lemma StableIdReads(url: PkgUrl, host: string, package: string, variant: string, resource: string)
    requires url.Parsed() && ':' !in url.host && ':' !in url.package
    requires ':' !in host && ':' !in package && '#' !in variant
    requires StableComponentID(url) == host + ":" + package + ":" + variant + "#" + resource
    ensures host == url.host && package == url.package && variant == url.variant
    ensures |resource| == |url.Resource()|
    ensures forall i :: 0 <= i < |resource| ==>
              resource[i] == if url.Resource()[i] == '/' then ':' else url.Resource()[i]
  {
    var r := SlashToColon(url.Resource());
    var s1, t1 := package + ":" + variant + "#" + resource, url.package + ":" + url.variant + "#" + r;
    assert StableComponentID(url) == host + ":" + s1 == url.host + ":" + t1;
    SplitAtFirst(host, s1, url.host, t1, ':');
    var s2, t2 := variant + "#" + resource, url.variant + "#" + r;
    assert s1 == package + ":" + s2 && t1 == url.package + ":" + t2;
    SplitAtFirst(package, s2, url.package, t2, ':');
    SplitAtFirst(variant, resource, url.variant, r, '#');
  }

  /** The text of the directory a component is given names one component below the realm's path. */
  lemma IsolatedPathIsRendered(root: seq<string>, labels: seq<string>, url: PkgUrl)
    requires root != [] && AreNames(root) && AreNames(labels) && url.Parsed()
    ensures IsolatedPathForPackage(Render(root + Nested(labels)), url) ==
            Render(root + Nested(labels) + [StableComponentID(url)])
    ensures AreNames(root + Nested(labels) + [StableComponentID(url)])
  {
    ComponentIdIsAName(url);
    NestedAreNames(labels);
    JoinRendered(root + Nested(labels), StableComponentID(url));
  }

  lemma ComponentFileIsRendered(root: seq<string>, labels: seq<string>, url: PkgUrl, rest: seq<string>)
    requires root != [] && AreNames(root) && AreNames(labels) && url.Parsed() && AreNames(rest)
    ensures IsolatedPathForPackage(Render(root + Nested(labels)), url) + Render(rest) ==
            Render(root + (Nested(labels) + ([StableComponentID(url)] + rest)))
  {
    IsolatedPathIsRendered(root, labels, url);
    RenderAppend(root + Nested(labels) + [StableComponentID(url)], rest);
    Regrouped(root, Nested(labels), [StableComponentID(url)], rest);
  }

  lemma LongerHoldsMark(a: string, s: string, b: string, t: string, c: char)
    requires a + [c] + s == b + [c] + t
    ensures |b| < |a| ==> c in a
  {
    if |b| < |a| {
      assert (b + [c] + t)[|b|] == c && (a + [c] + s)[|b|] == a[|b|];
    }
  }

  lemma SplitAtFirst(a: string, s: string, b: string, t: string, c: char)
    requires c !in a && c !in b && a + [c] + s == b + [c] + t
    ensures a == b && s == t
  {
    LongerHoldsMark(a, s, b, t, c);
    LongerHoldsMark(b, t, a, s, c);
    assert a == (a + [c] + s)[..|a|] && b == (b + [c] + t)[..|a|];
    assert s == (a + [c] + s)[|a| + 1..] && t == (b + [c] + t)[|a| + 1..];
  }

  predicate SameParts(u: PkgUrl, v: PkgUrl) {
    Authority(u) == Authority(v) && SlashToColon(u.Resource()) == SlashToColon(v.Resource())
  }

  /** v's host holds all of u's authority, a `#` and the beginning of u's resource. */
  predicate HostHoldsAuthority(u: PkgUrl, v: PkgUrl) {
    && Authority(u) + "#" <= v.host
    && SlashToColon(u.Resource()) ==
       v.host[|Authority(u)| + 1..] + ":" + v.package + ":" + v.variant + "#" + SlashToColon(v.Resource())
  }

  /** A `#` that comes too early to follow a tail without one is in front of that tail. */
  lemma EarlyMark(a: string, q: string, h: string, tail: string, r: string)
    requires a + "#" + q == h + tail + "#" + r && |a| < |h + tail|
    requires forall i :: 0 <= i < |tail| ==> tail[i] != '#'
    ensures a + "#" <= h && q == h[|a| + 1..] + tail + "#" + r
  {
    var id, n := h + tail + "#" + r, |a|;
    assert id[n] == (a + "#" + q)[n] == '#';
    assert id[..|h|] == h;
    assert id[..n + 1] == a + "#";
    assert id[n + 1..] == q;
    assert id[n + 1..] == h[n + 1..] + tail + "#" + r;
  }

  lemma ShorterAuthority(u: PkgUrl, v: PkgUrl)
    requires v.Parsed() && StableComponentID(u) == StableComponentID(v) && |Authority(u)| < |Authority(v)|
    ensures HostHoldsAuthority(u, v)
  {
    var tail := ":" + v.package + ":" + v.variant;
    TailLacksMark(v);
    assert v.host + tail == Authority(v);
    EarlyMark(Authority(u), SlashToColon(u.Resource()), v.host, tail, SlashToColon(v.Resource()));
    var x, r := v.host[|Authority(u)| + 1..], SlashToColon(v.Resource());
    assert x + tail + "#" + r == x + ":" + v.package + ":" + v.variant + "#" + r;
  }

  lemma TailLacksMark(v: PkgUrl)
    requires v.Parsed()
    ensures var tail := ":" + v.package + ":" + v.variant;
            forall i :: 0 <= i < |tail| ==> tail[i] != '#'
  {
    var tail := ":" + v.package + ":" + v.variant;
    forall i | 0 <= i < |tail|
      ensures tail[i] != '#'
    {
      var p := |v.package|;
      if 0 < i <= p {
        assert tail[i] == v.package[i - 1] && v.package[i - 1] in v.package;
      } else if p + 1 < i {
        assert tail[i] == v.variant[i - p - 2] && v.variant[i - p - 2] in v.variant;
      }
    }
  }

  lemma HeldAuthorityCollides(u: PkgUrl, v: PkgUrl)
    requires HostHoldsAuthority(u, v)
    ensures StableComponentID(u) == StableComponentID(v)
  {
    var n := |Authority(u)|;
    assert v.host == Authority(u) + "#" + v.host[n + 1..];
    assert StableComponentID(u) == Authority(u) + "#" + SlashToColon(u.Resource());
  }

  lemma SameLengthSameParts(u: PkgUrl, v: PkgUrl)
    requires |Authority(u)| == |Authority(v)|
    ensures StableComponentID(u) == StableComponentID(v) <==> SameParts(u, v)
  {
    var x, y := StableComponentID(u), StableComponentID(v);
    var n := |Authority(u)|;
    assert x == Authority(u) + "#" + SlashToColon(u.Resource()) && y == Authority(v) + "#" + SlashToColon(v.Resource());
    assert x[..n] == Authority(u) && x[n + 1..] == SlashToColon(u.Resource());
    assert y[..n] == Authority(v) && y[n + 1..] == SlashToColon(v.Resource());
  }

  /**
   Exactly when two parsed URLs have the same id: the texts host:package:variant are equal and the
   resources are up to slash and colon, or one host holds the other's authority and a `#`.
   */
  lemma StableIdsEqualIff(u: PkgUrl, v: PkgUrl)
    requires u.Parsed() && v.Parsed()
    ensures StableComponentID(u) == StableComponentID(v) <==>
            SameParts(u, v) || HostHoldsAuthority(u, v) || HostHoldsAuthority(v, u)
  {
    if |Authority(u)| == |Authority(v)| {
      SameLengthSameParts(u, v);
    } else if StableComponentID(u) == StableComponentID(v) {
      if |Authority(u)| < |Authority(v)| {
        ShorterAuthority(u, v);
      } else {
        ShorterAuthority(v, u);
      }
    }
    if HostHoldsAuthority(u, v) {
      HeldAuthorityCollides(u, v);
    }
    if HostHoldsAuthority(v, u) {
      HeldAuthorityCollides(v, u);
    }
  }

  /** Without `#` in the hosts only the first case is left. */
  lemma StableIdsOfPlainHosts(u: PkgUrl, v: PkgUrl)
    requires u.Parsed() && v.Parsed() && '#' !in u.host && '#' !in v.host
    ensures StableComponentID(u) == StableComponentID(v) <==> SameParts(u, v)
  {
    StableIdsEqualIff(u, v);
    HeldAuthorityNeedsMark(u, v);
    HeldAuthorityNeedsMark(v, u);
  }

  lemma HeldAuthorityNeedsMark(u: PkgUrl, v: PkgUrl)
    ensures HostHoldsAuthority(u, v) ==> '#' in v.host
  {
    if HostHoldsAuthority(u, v) {
      assert v.host[|Authority(u)|] == (Authority(u) + "#")[|Authority(u)|];
    }
  }

  /** Without colons either, equal ids mean equal host, package, variant and resource up to slash and colon. */
  lemma StableIdsAgree(u: PkgUrl, v: PkgUrl)
    requires u.Parsed() && v.Parsed() && '#' !in u.host && '#' !in v.host
    requires ':' !in u.host && ':' !in v.host && ':' !in u.package && ':' !in v.package
    ensures StableComponentID(u) == StableComponentID(v) <==>
            && u.host == v.host && u.package == v.package && u.variant == v.variant
            && SlashToColon(u.Resource()) == SlashToColon(v.Resource())
  {
    StableIdsOfPlainHosts(u, v);
    if Authority(u) == Authority(v) {
      var su, sv := u.package + [':'] + u.variant, v.package + [':'] + v.variant;
      assert Authority(u) == u.host + [':'] + su && Authority(v) == v.host + [':'] + sv;
      SplitAtFirst(u.host, su, v.host, sv, ':');
      SplitAtFirst(u.package, u.variant, v.package, v.variant, ':');
    }
  }

  // The id is documented as unique. It is not, in each of the ways left by StableIdsEqualIff.

  lemma SlashCollides(host: string, package: string, variant: string)
    ensures PkgUrl(host, package, variant, "meta/a.cmx") != PkgUrl(host, package, variant, "meta:a.cmx")
    ensures StableComponentID(PkgUrl(host, package, variant, "meta/a.cmx")) ==
            StableComponentID(PkgUrl(host, package, variant, "meta:a.cmx"))
  {
    assert SlashToColon("meta/a.cmx") == SlashToColon("meta:a.cmx");
  }

  /** A port moves from the host to the package. */
  lemma ColonCollides(host: string, port: string, package: string, variant: string, resource: string)
    requires PkgUrl(host, package, variant, resource).Parsed() && resource != ""
    requires port != "" && '/' !in port && '#' !in port && '?' !in port
    ensures var u := PkgUrl(host + ":" + port, package, variant, resource);
            var v := PkgUrl(host, port + ":" + package, variant, resource);
            u.Parsed() && v.Parsed() && u != v && StableComponentID(u) == StableComponentID(v)
  {
    var u := PkgUrl(host + ":" + port, package, variant, resource);
    var v := PkgUrl(host, port + ":" + package, variant, resource);
    assert |u.host| != |v.host|;
    assert Authority(u) == Authority(v);
    SameLengthSameParts(u, v);
  }

  /** A host with a `#` takes over another URL's authority and the beginning of its resource. */
  lemma MarkCollides(u: PkgUrl, x: string, package: string, variant: string, resource: string)
    requires u.Parsed() && '/' !in x && PkgUrl("h", package, variant, resource).Parsed() && resource != ""
    requires u.resource == x + ":" + package + ":" + variant + "#" + resource
    ensures var v := PkgUrl(Authority(u) + "#" + x, package, variant, resource);
            v.Parsed() && u != v && StableComponentID(u) == StableComponentID(v)
  {
    var v := PkgUrl(Authority(u) + "#" + x, package, variant, resource);
    AuthorityLacksSlash(u);
    assert v.host[|Authority(u)| + 1..] == x;
    var r := x + ":" + package + ":" + variant + "#";
    assert SlashToColon(r) == r;
    assert SlashToColon(r + resource) == SlashToColon(r) + SlashToColon(resource);
    assert |u.host| < |v.host|;
    HeldAuthorityCollides(u, v);
  }

  lemma AuthorityLacksSlash(u: PkgUrl)
    requires u.Parsed()
    ensures '/' !in Authority(u)
  {
    forall i | 0 <= i < |Authority(u)|
      ensures Authority(u)[i] != '/'
    {
      var h, p := |u.host|, |u.package|;
      if i < h {
        assert Authority(u)[i] == u.host[i] && u.host[i] in u.host;
      } else if h < i < h + 1 + p {
        assert Authority(u)[i] == u.package[i - h - 1] && u.package[i - h - 1] in u.package;
      } else if h + 1 + p < i {
        assert Authority(u)[i] == u.variant[i - h - p - 2] && u.variant[i - h - p - 2] in u.variant;
      }
    }
  }
}
