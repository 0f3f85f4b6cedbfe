/** The operations that build and tear down the realm tree, step by step. */
module RealmManager {
  import opened Common
  import opened Storage
  import opened RealmTree

  class Manager {
    var realms: Tree
    var files: set<string>
    var next: nat

    function View(): (s: System)
      reads this
    {
      System(realms, files, next)
    }

    constructor (rootLabel: string)
      ensures View() == Initial(rootLabel)
    {
      realms, files, next := Initial(rootLabel).realms, {}, 1;
    }

    /** The loop over children_ that looks for the label among the stored ones. */
    method LabelInUse(parent: nat, name: string) returns (used: bool)
      ensures used <==> RealmTree.LabelInUse(realms, parent, name)
    {
      var children := set c | c in realms && realms[c].parent == Some(parent);
      var rest := children;
      while rest != {}
        invariant rest <= children
        invariant forall c :: c in children && c !in rest ==> realms[c].stored != name
      {
        var c :| c in rest;
        if name == realms[c].stored {
          return true;
        }
        rest := rest - {c};
      }
      return false;
    }

    method CreateNestedEnvironment(parent: nat, name: string, setup: Setup, deleteOnDeath: bool) returns (o: Outcome)
      requires parent in realms
      modifies this
      ensures (View(), o) == Create(old(View()), parent, name, setup, deleteOnDeath)
    {
      if !IsValidEnvironmentLabel(name) {
        return InvalidArgs;
      }
      var used := LabelInUse(parent, name);
      if used {
        return BadState;
      }
      if setup.BadServices? {
        return InvalidArgs;
      }
      if setup.NoJob? {
        return NotCreated;
      }
      realms := realms[next := NestedRealm(realms, parent, name, deleteOnDeath)];
      next := next + 1;
      return Created;
    }

    /** files::DeletePath, recursively. */
    method DeletePath(path: string)
      modifies this`files
      ensures files == set f | f in old(files) && !Under(f, path)
    {
      files := set f | f in files && !Under(f, path);
    }

    /** The part of a realm's destructor that is about its own storage. */
    method DeleteStorage(id: nat)
      requires id in realms
      modifies this`files
      ensures files == Surviving(old(files), realms, {id})
    {
      if realms[id].deleteOnDeath {
        DeletePath(realms[id].dataPath);
        DeletePath(realms[id].cachePath);
      }
    }

    /** The destructor of a realm: its own storage first, then the realms nested in it. */
    method DestroyRealm(id: nat)
      requires WellFounded(realms) && (forall k :: k in realms ==> k < next) && id in realms && id != ROOT
      modifies this
      ensures View() == Kill(old(View()), id)
      decreases next - id, 1
    {
      ghost var t, f := realms, files;
      DeleteStorage(id);
      var children := DestroyChildren(id);
      AllChildrenDone(t, id, children);
      SurvivingTwice(f, t, {id}, t, Below(t, children));
      MinusTwice(t, Below(t, children), {id});
      realms := realms - {id};
    }

    /** The destruction of children_, a map emptied one entry at a time. */
    method DestroyChildren(id: nat) returns (all: set<nat>)
      requires WellFounded(realms) && (forall k :: k in realms ==> k < next) && id in realms
      modifies this
      ensures all == Children(old(realms), id) && next == old(next)
      ensures realms == old(realms) - Below(old(realms), all)
      ensures files == Surviving(old(files), old(realms), Below(old(realms), all))
      decreases next - id, 0
    {
      ghost var t, f := realms, files;
      all := Children(realms, id);
      var left := all;
      NoneBelowNone(t, f);
      while left != {}
        invariant next == old(next) && left <= all
        invariant realms == t - Below(t, all - left)
        invariant files == Surviving(f, t, Below(t, all - left))
        decreases left
      {
        var c :| c in left;
        ghost var done := all - left;
        NextChild(t, f, id, done, c);
        DestroyRealm(c);
        assert all - (left - {c}) == done + {c};
        left := left - {c};
      }
      assert all - left == all;
    }
  }

  function Children(t: Tree, id: nat): (ids: set<nat>) {
    set c | c in t && t[c].parent == Some(id)
  }

  /** The realms at or below some realm of a set. */
  ghost function Below(t: Tree, roots: set<nat>): (ids: set<nat>)
    requires WellFounded(t)
  {
    set d | d in t && exists c :: c in roots && c in t && IsAncestor(t, c, d)
  }

  lemma RestIsWellFounded(t: Tree, roots: set<nat>)
    requires WellFounded(t) && ROOT !in roots && roots <= t.Keys
    ensures WellFounded(t - Below(t, roots))
  {
    forall c | c in roots
      ensures !IsAncestor(t, c, ROOT)
    {
      OnlyRootIsAboveRoot(t, c);
    }
  }

  lemma NoneBelowNone(t: Tree, f: set<string>)
    requires WellFounded(t)
    ensures t - Below(t, {}) == t && Surviving(f, t, Below(t, {})) == f
  {
  }

  lemma MinusTwice(t: Tree, a: set<nat>, b: set<nat>)
    ensures t - a - b == t - (b + a)
  {
  }

  /** Destroying one more child of a realm, when some children are already destroyed. */
  lemma NextChild(t: Tree, f: set<string>, id: nat, done: set<nat>, c: nat)
    requires WellFounded(t) && id in t && c in Children(t, id) && c !in done && done <= Children(t, id)
    ensures var u := t - Below(t, done);
            && WellFounded(u) && c in u
            && u - Doomed(u, c) == t - Below(t, done + {c})
            && Surviving(Surviving(f, t, Below(t, done)), u, Doomed(u, c)) == Surviving(f, t, Below(t, done + {c}))
  {
    NextChildLives(t, id, done, c);
    BelowGrows(t, done, c);
    var u, dead := t - Below(t, done), Below(t, done);
    SurvivingTwice(f, t, dead, u, Doomed(u, c));
    MinusTwice(t, dead, Doomed(u, c));
    assert Doomed(u, c) + dead == dead + Doomed(u, c);
  }

  lemma NextChildLives(t: Tree, id: nat, done: set<nat>, c: nat)
    requires WellFounded(t) && id in t && c in Children(t, id) && c !in done && done <= Children(t, id)
    ensures WellFounded(t - Below(t, done)) && c in t - Below(t, done)
  {
    RestIsWellFounded(t, done);
    forall k | k in done
      ensures !IsAncestor(t, k, c)
    {
      ChildSurvivesSiblings(t, id, k);
    }
  }

  lemma BelowGrows(t: Tree, done: set<nat>, c: nat)
    requires WellFounded(t) && c in t - Below(t, done) && WellFounded(t - Below(t, done))
    ensures Below(t, done + {c}) == Below(t, done) + Doomed(t - Below(t, done), c)
  {
    DoomedInSubtree(t, t - Below(t, done), c);
    assert Below(t, done + {c}) == Below(t, done) + Doomed(t, c) by { BelowOneMore(t, done, c); }
  }

  lemma BelowOneMore(t: Tree, done: set<nat>, c: nat)
    requires WellFounded(t) && c in t
    ensures Below(t, done + {c}) == Below(t, done) + Doomed(t, c)
  {
    forall d | d in t
      ensures d in Below(t, done + {c}) <==> d in Below(t, done) || d in Doomed(t, c)
    {
      if d in Doomed(t, c) {
        assert c in done + {c};
      }
      if d in Below(t, done) {
        var k :| k in done && k in t && IsAncestor(t, k, d);
        assert k in done + {c};
      }
    }
  }

  lemma SurvivingTwice(f: set<string>, t: Tree, dead: set<nat>, u: Tree, more: set<nat>)
    requires dead <= t.Keys && more <= u.Keys && u.Keys <= t.Keys
    requires forall k :: k in u ==> t[k] == u[k]
    ensures Surviving(Surviving(f, t, dead), u, more) == Surviving(f, t, dead + more)
  {
  }

  lemma AllChildrenDone(t: Tree, id: nat, done: set<nat>)
    requires WellFounded(t) && id in t && done == Children(t, id)
    ensures {id} + Below(t, done) == Doomed(t, id)
  {
    forall d | d in Doomed(t, id)
      ensures d in {id} + Below(t, done)
    {
      if d != id {
        BelowAChild(t, id, d);
      }
    }
    forall d | d in Below(t, done)
      ensures d in Doomed(t, id)
    {
      var c :| c in done && c in t && IsAncestor(t, c, d);
      ChildSurvivesSiblings(t, id, c);
    }
  }

  /** Ancestry among the realms that are left is what it was. */
  lemma {:induction false} AncestryAgrees(t: Tree, u: Tree, a: nat, d: nat)
    requires WellFounded(t) && WellFounded(u) && a in t && a in u && d in t && d in u
    requires forall k :: k in u ==> k in t && t[k] == u[k]
    ensures IsAncestor(t, a, d) == IsAncestor(u, a, d)
    decreases d
  {
    if a != d && d != ROOT {
      AncestryAgrees(t, u, a, t[d].parent.value);
    }
  }

  lemma DoomedInSubtree(t: Tree, u: Tree, c: nat)
    requires WellFounded(t) && WellFounded(u) && c in u
    requires forall k :: k in u ==> k in t && t[k] == u[k]
    ensures Doomed(u, c) == Doomed(t, c) * u.Keys
  {
    forall d | d in u
      ensures IsAncestor(t, c, d) == IsAncestor(u, c, d)
    {
      AncestryAgrees(t, u, c, d);
    }
  }

  lemma ChildSurvivesSiblings(t: Tree, id: nat, c: nat)
    requires WellFounded(t) && id in t && c in t && t[c].parent == Some(id)
    ensures forall k :: k in t && k != c && t[k].parent == Some(id) ==> !IsAncestor(t, c, k)
    ensures !IsAncestor(t, c, id)
    ensures forall d :: d in t && IsAncestor(t, c, d) ==> IsAncestor(t, id, d)
  {
    if IsAncestor(t, c, id) {
      AncestorIsOlder(t, c, id);
    }
    forall d | d in t && IsAncestor(t, c, d)
      ensures IsAncestor(t, id, d)
    {
      assert IsAncestor(t, id, id) && IsAncestor(t, id, c);
      AncestorTransitive(t, id, c, d);
    }
  }

  /** A realm strictly below another is at or below one of its children. */
  lemma {:induction false} BelowAChild(t: Tree, id: nat, d: nat)
    requires WellFounded(t) && id in t && d in t && d != id && IsAncestor(t, id, d)
    ensures exists c :: c in t && t[c].parent == Some(id) && IsAncestor(t, c, d)
    decreases d
  {
    var p := t[d].parent.value;
    if p == id {
      assert IsAncestor(t, d, d);
    } else {
      BelowAChild(t, id, p);
    }
  }
}
