/** The cached property all_dependent_modules_recursive of py_vulcanize/module.py,
    which may be asked while modules are still being loaded. */
module ClosureCache {
  import opened Basics
  import opened ModuleGraph

  /** A Module object, known by its name: the dependencies loaded so far, and
      _all_dependent_modules_recursive, where None and the empty set act alike. */
  datatype Module = Module(dependentModules: seq<Name>, cache: set<Name>)

  /** loaded_modules. */
  type Table = map<Name, Module>

  ghost predicate DependsIn(m: Module, names: set<Name>) {
    forall d :: d in m.dependentModules ==> d in names
  }

  ghost predicate Linked(t: Table) {
    forall n :: n in t ==> DependsIn(t[n], t.Keys)
  }

  /** Modules that have dependencies but no cache yet. */
  ghost function Uncached(t: Table): set<Name> {
    set n | n in t && t[n].cache == {} && t[n].dependentModules != []
  }

  /** Caches are filled, never changed, except that of `busy`, which may grow; nothing
      else of the table changes. */
  ghost predicate Fills(t: Table, r: Table, busy: set<Name>) {
    && r.Keys == t.Keys
    && (forall n :: n in t ==> r[n].dependentModules == t[n].dependentModules && t[n].cache <= r[n].cache)
    && (forall n :: n in t && t[n].cache != {} && n !in busy ==> r[n].cache == t[n].cache)
  }

  lemma FillsLinked(t: Table, r: Table, busy: set<Name>)
    requires Fills(t, r, busy) && Linked(t)
    ensures Linked(r)
  {
    forall n | n in r ensures DependsIn(r[n], r.Keys) {
      assert DependsIn(t[n], t.Keys);
    }
  }

  lemma FillsUncached(t: Table, r: Table, busy: set<Name>)
    requires Fills(t, r, busy)
    ensures Uncached(r) <= Uncached(t) && |Uncached(r)| <= |Uncached(t)|
  {
    SubsetSize(Uncached(r), Uncached(t));
  }

  function Elements(s: seq<Name>): set<Name> {
    set n | n in s
  }

  function WithCache(t: Table, m: Name, c: set<Name>): Table
    requires m in t
  {
    t[m := t[m].(cache := c)]
  }

  lemma CachingShrinks(t: Table, m: Name)
    requires m in Uncached(t)
    ensures var u := WithCache(t, m, Elements(t[m].dependentModules));
            Fills(t, u, {}) && u[m].cache != {} && |Uncached(u)| < |Uncached(t)|
  {
    var u := WithCache(t, m, Elements(t[m].dependentModules));
    assert t[m].dependentModules[0] in u[m].cache;
    assert Uncached(u) <= Uncached(t) - {m};
    SubsetSize(Uncached(u), Uncached(t) - {m});
  }

  /** Evaluating a dependency and taking over its cache. */
  lemma AbsorbFills(t: Table, t1: Table, m: Name, d: Name)
    requires Linked(t) && m in t && d in t && t[m].cache != {} && Fills(t, t1, {})
    ensures var t2 := WithCache(t1, m, t1[m].cache + t1[d].cache);
            Fills(t, t2, {m}) && Linked(t2) && t2[m].cache != {} && |Uncached(t2)| <= |Uncached(t)|
  {
    var t2 := WithCache(t1, m, t1[m].cache + t1[d].cache);
    assert t2[m].cache >= t[m].cache;
    FillsLinked(t, t2, {m});
    FillsUncached(t, t2, {m});
  }

  /** The table after the property has been evaluated for `m`; its value is the cache of
      `m`. The recursion ends on every graph, because `m` has a cache before its
      dependencies are asked. */
  ghost function Closure(t: Table, m: Name): (r: Table)
    requires Linked(t) && m in t
    ensures Fills(t, r, {})
    decreases |Uncached(t)|, 0
  {
    if t[m].cache != {} || t[m].dependentModules == [] then t
    else
      CachingShrinks(t, m);
      FillsLinked(t, WithCache(t, m, Elements(t[m].dependentModules)), {});
      assert DependsIn(t[m], t.Keys);
      ClosureAll(WithCache(t, m, Elements(t[m].dependentModules)), m, t[m].dependentModules)
  }

  /** The loop over the dependencies `ds` of `m`. */
  ghost function ClosureAll(t: Table, m: Name, ds: seq<Name>): (r: Table)
    requires Linked(t) && m in t && t[m].cache != {} && forall d :: d in ds ==> d in t
    ensures Fills(t, r, {m})
    decreases |Uncached(t)|, 1 + |ds|
  {
    if ds == [] then t
    else
      var t1 := Closure(t, ds[0]);
      var t2 := WithCache(t1, m, t1[m].cache + t1[ds[0]].cache);
      AbsorbFills(t, t1, m, ds[0]);
      ClosureAll(t2, m, ds[1..])
  }

  // ----- the code

  /** The registered modules, which read and fill their own caches. */
  class LoadedModules {
    var table: Table

    constructor (t: Table)
      ensures table == t
    {
      table := t;
    }

    method AllDependentModulesRecursive(m: Name) returns (s: set<Name>)
      requires Linked(table) && m in table
      modifies this
      ensures table == Closure(old(table), m) && s == table[m].cache
      decreases |Uncached(table)|
    {
      if table[m].cache != {} {
        return table[m].cache;
      }
      var ds := table[m].dependentModules;
      if ds == [] {
        return {};
      }
      CachingShrinks(table, m);
      FillsLinked(table, WithCache(table, m, Elements(ds)), {});
      assert DependsIn(table[m], table.Keys);
      table := WithCache(table, m, Elements(ds));
      ghost var start := table;
      var i := 0;
      while i < |ds|
        invariant 0 <= i <= |ds|
        invariant Linked(table) && table.Keys == start.Keys && table[m].cache != {}
        invariant |Uncached(table)| <= |Uncached(start)|
        invariant ClosureAll(table, m, ds[i..]) == ClosureAll(start, m, ds)
      {
        assert ds[i..][0] == ds[i] && ds[i..][1..] == ds[i + 1..];
        AbsorbFills(table, Closure(table, ds[i]), m, ds[i]);
        var more := AllDependentModulesRecursive(ds[i]);
        table := WithCache(table, m, table[m].cache + more);
        i := i + 1;
      }
      s := table[m].cache;
    }
  }

  // ----- what the caches hold

  /** The dependencies loaded so far are imports of the graph. */
  ghost predicate FollowsAt(g: Graph, n: Name, m: Module) {
    forall d :: d in m.dependentModules ==> n in g && d in g && d in g[n]
  }

  ghost predicate Follows(g: Graph, t: Table) {
    forall n :: n in t ==> FollowsAt(g, n, t[n])
  }

  lemma FillsFollows(g: Graph, t: Table, r: Table, busy: set<Name>)
    requires Fills(t, r, busy) && Follows(g, t)
    ensures Follows(g, r)
  {
    forall n | n in r ensures FollowsAt(g, n, r[n]) {
      assert FollowsAt(g, n, t[n]);
    }
  }

  /** A cache holds nothing but modules reached by one or more imports. */
  ghost predicate SoundAt(g: Graph, n: Name, c: set<Name>) {
    forall x :: x in c ==> Imports(g, n, x)
  }

  ghost predicate Sound(g: Graph, t: Table) {
    forall n :: n in t ==> SoundAt(g, n, t[n].cache)
  }

  lemma DirectlySound(g: Graph, n: Name, m: Module)
    requires FollowsAt(g, n, m)
    ensures SoundAt(g, n, Elements(m.dependentModules))
  {
    forall d | d in m.dependentModules ensures Imports(g, n, d) {
      ReachesRefl(g, d);
    }
  }

  lemma AbsorbSound(g: Graph, m: Name, d: Name, c: set<Name>, more: set<Name>)
    requires m in g && d in g[m] && SoundAt(g, m, c) && SoundAt(g, d, more)
    ensures SoundAt(g, m, c + more)
  {
    forall x | x in more ensures Imports(g, m, x) {
      ImportsThrough(g, m, d, x);
    }
  }

  /** Whatever the graph, evaluating the property keeps every cache sound. */
  lemma {:induction false} ClosureIsSound(g: Graph, t: Table, m: Name)
    requires Linked(t) && m in t && Follows(g, t) && Sound(g, t)
    ensures Sound(g, Closure(t, m)) && Follows(g, Closure(t, m))
    decreases |Uncached(t)|, 0
  {
    if t[m].cache == {} && t[m].dependentModules != [] {
      CachingShrinks(t, m);
      var u := WithCache(t, m, Elements(t[m].dependentModules));
      FillsLinked(t, u, {});
      FillsFollows(g, t, u, {});
      assert DependsIn(t[m], t.Keys) && FollowsAt(g, m, t[m]);
      DirectlySound(g, m, t[m]);
      ClosureAllIsSound(g, u, m, t[m].dependentModules);
    }
  }

  lemma {:induction false} ClosureAllIsSound(g: Graph, t: Table, m: Name, ds: seq<Name>)
    requires Linked(t) && m in t && t[m].cache != {} && m in g && forall d :: d in ds ==> d in t && d in g[m]
    requires Follows(g, t) && Sound(g, t)
    ensures Sound(g, ClosureAll(t, m, ds)) && Follows(g, ClosureAll(t, m, ds))
    decreases |Uncached(t)|, 1 + |ds|
  {
    if ds != [] {
      var d := ds[0];
      ClosureIsSound(g, t, d);
      var t1 := Closure(t, d);
      var t2 := WithCache(t1, m, t1[m].cache + t1[d].cache);
      AbsorbFills(t, t1, m, d);
      FillsFollows(g, t, t2, {m});
      assert SoundAt(g, d, t1[d].cache) && SoundAt(g, m, t1[m].cache);
      AbsorbSound(g, m, d, t1[m].cache, t1[d].cache);
      ClosureAllIsSound(g, t2, m, ds[1..]);
    }
  }

  /** The cache is exactly the set of modules reached by one or more imports. */
  ghost predicate Exact(g: Graph, t: Table, n: Name) {
    n in t && n in g && t[n].dependentModules == g[n] && forall x :: x in t[n].cache <==> Imports(g, n, x)
  }

  /** The dependencies `ds` of `m` have exact caches. */
  ghost predicate ExactBelow(g: Graph, t: Table, m: Name, ds: seq<Name>) {
    forall d :: d in ds ==> d != m && Exact(g, t, d)
  }

  /** `x` is one of `ds` or imported from one of them. */
  ghost predicate FoundFrom(g: Graph, ds: seq<Name>, x: Name) {
    exists d :: d in ds && Imports(g, d, x)
  }

  lemma ImportsIff(g: Graph, m: Name, x: Name)
    requires m in g && forall d :: d in g[m] ==> d in g
    ensures Imports(g, m, x) <==> x in g[m] || FoundFrom(g, g[m], x)
  {
    if x in g[m] {
      ReachesRefl(g, x);
    }
    if FoundFrom(g, g[m], x) {
      var d :| d in g[m] && Imports(g, d, x);
      ImportsThrough(g, m, d, x);
    }
    if Imports(g, m, x) {
      var d :| d in g[m] && Reaches(g, d, x);
      ReachesFirst(g, d, x);
    }
  }

  lemma ExactFromCache(g: Graph, r: Table, m: Name)
    requires m in r && m in g && r[m].dependentModules == g[m] && forall d :: d in g[m] ==> d in g
    requires forall x :: x in r[m].cache <==> x in g[m] || FoundFrom(g, g[m], x)
    ensures Exact(g, r, m)
  {
    forall x ensures x in r[m].cache <==> Imports(g, m, x) {
      ImportsIff(g, m, x);
    }
  }

  /** When the dependencies of a loaded module have exact caches, so has the module. */
  lemma ClosureIsExact(g: Graph, t: Table, m: Name)
    requires Linked(t) && m in t && Follows(g, t) && m in g
    requires t[m].dependentModules == g[m] && t[m].cache == {}
    requires ExactBelow(g, t, m, g[m])
    ensures Exact(g, Closure(t, m), m)
    ensures forall n :: n in t && n != m ==> Closure(t, m)[n] == t[n]
  {
    if g[m] == [] {
      assert forall x :: !FoundFrom(g, [], x);
      ExactFromCache(g, t, m);
    } else {
      CachingShrinks(t, m);
      FillsLinked(t, WithCache(t, m, Elements(g[m])), {});
      StartedIsExact(g, t, m);
    }
  }

  lemma StartedIsExact(g: Graph, t: Table, m: Name)
    requires Linked(t) && m in t && Follows(g, t) && m in g && m in Uncached(t)
    requires t[m].dependentModules == g[m]
    requires ExactBelow(g, t, m, g[m])
    ensures var u := WithCache(t, m, Elements(g[m]));
            && Linked(u) && m in u && u[m].cache != {} && (forall d :: d in g[m] ==> d in u)
            && var r := ClosureAll(u, m, g[m]);
            && Exact(g, r, m)
            && forall n :: n in t && n != m ==> r[n] == t[n]
  {
    var ds := g[m];
    var u := WithCache(t, m, Elements(ds));
    CachingShrinks(t, m);
    FillsLinked(t, u, {});
    FillsFollows(g, t, u, {});
    ExactBelowStays(g, t, u, m, ds, ds);
    ClosureAllIsExact(g, u, m, ds);
    var r := ClosureAll(u, m, ds);
    assert r[m].dependentModules == ds && u[m].cache == Elements(ds);
    FromParts(g, m, ds, u[m].cache, r[m].cache);
    ExactFromCache(g, r, m);
  }

  lemma FromParts(g: Graph, m: Name, ds: seq<Name>, c: set<Name>, c2: set<Name>)
    requires c == Elements(ds) && forall x :: x in c2 <==> x in c || FoundFrom(g, ds, x)
    ensures forall x :: x in c2 <==> x in ds || FoundFrom(g, ds, x)
  {
  }

  lemma ExactBelowStays(g: Graph, t: Table, u: Table, m: Name, ds: seq<Name>, rest: seq<Name>)
    requires ExactBelow(g, t, m, ds) && forall d :: d in rest ==> d in ds
    requires t.Keys <= u.Keys && forall n :: n in t && n != m ==> u[n] == t[n]
    ensures ExactBelow(g, u, m, rest) && forall d :: d in rest ==> d in t && d in u && d in g
  {
    forall d | d in rest ensures Exact(g, u, d) {
      assert Exact(g, t, d);
    }
  }

  /** An exact module is not touched by evaluating its property again. */
  lemma ClosureOfExact(g: Graph, t: Table, d: Name)
    requires Linked(t) && Follows(g, t) && Exact(g, t, d)
    ensures Closure(t, d) == t
  {
    if t[d].dependentModules != [] {
      var e := t[d].dependentModules[0];
      assert FollowsAt(g, d, t[d]);
      ReachesRefl(g, e);
      assert Imports(g, d, e);
      assert e in t[d].cache;
    }
  }

  lemma {:induction false} ClosureAllIsExact(g: Graph, t: Table, m: Name, ds: seq<Name>)
    requires Linked(t) && m in t && t[m].cache != {} && Follows(g, t)
    requires ExactBelow(g, t, m, ds)
    ensures var r := ClosureAll(t, m, ds);
            && (forall n :: n in t && n != m ==> r[n] == t[n])
            && r[m].dependentModules == t[m].dependentModules
            && forall x :: x in r[m].cache <==> x in t[m].cache || FoundFrom(g, ds, x)
    decreases |ds|
  {
    if ds != [] {
      var d, rest := ds[0], ds[1..];
      ClosureOfExact(g, t, d);
      var t2 := WithCache(t, m, t[m].cache + t[d].cache);
      AbsorbFills(t, t, m, d);
      FillsFollows(g, t, t2, {m});
      ExactBelowStays(g, t, t2, m, ds, rest);
      ClosureAllIsExact(g, t2, m, rest);
      forall x ensures FoundFrom(g, ds, x) <==> x in t[d].cache || FoundFrom(g, rest, x) {
        assert forall e :: e in ds <==> e == d || e in rest;
      }
    }
  }

  lemma ImportsThrough(g: Graph, a: Name, d: Name, b: Name)
    requires a in g && d in g[a] && Imports(g, d, b)
    ensures Imports(g, a, b)
  {
    var e :| e in g[d] && Reaches(g, e, b);
    ReachesStep(g, d, e, b);
  }
}
