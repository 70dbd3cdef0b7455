/** On acyclic imports the closures cached during loading are exact, and so is the
    check for the base module. On cyclic ones they need not be. */
module LoaderExact {
  import opened Basics
  import opened ModuleGraph
  import opened ClosureCache
  import opened ResourceLoader
  import opened LoaderRuns

  /** `n` is loaded to the end, and so are its imports; `active` are being loaded. */
  ghost predicate SettledAt(g: Graph, t: Table, n: Name, active: set<Name>) {
    Exact(g, t, n) && forall d :: d in g[n] ==> d in t && d !in active
  }

  ghost predicate Settled(g: Graph, t: Table, active: set<Name>) {
    && (forall n :: n in t && n !in active ==> SettledAt(g, t, n, active))
    && (forall a :: a in active ==> a in t && t[a].cache == {})
  }

  /** Each module being loaded is being loaded for the sake of `name`. */
  ghost predicate LeadTo(g: Graph, active: set<Name>, name: Name) {
    forall a :: a in active ==> Imports(g, a, name)
  }

  /** Loading has left the modules being loaded alone and settled all others. */
  ghost predicate Steady(g: Graph, t: Table, r: Table, active: set<Name>) {
    && Follows(g, r)
    && Settled(g, r, active)
    && Same(t, r, active)
  }

  ghost predicate Same(t: Table, r: Table, names: set<Name>) {
    forall n :: n in names && n in t ==> n in r && r[n] == t[n]
  }

  /** Each module still to be loaded for `name` is fine. */
  ghost predicate NewFine(fs: Files, t: Table, name: Name) {
    forall n :: Reaches(GraphOf(fs), name, n) && n !in t ==> Fine(fs, n)
  }

  ghost predicate AllNewFine(fs: Files, t: Table, ds: seq<Name>) {
    forall d :: d in ds ==> NewFine(fs, t, d)
  }

  ghost predicate LoadedExactly(fs: Files, t: Table, r: Outcome, name: Name, active: set<Name>) {
    && (r.ok <==> NewFine(fs, t, name))
    && (r.ok ==> Steady(GraphOf(fs), t, r.state.table, active))
  }

  lemma {:induction false} LoadIsExact(fs: Files, s: State, name: Name, active: set<Name>)
    requires Registered(fs, s.table) && Resolvable(fs) && Acyclic(GraphOf(fs)) && name in fs
    requires Follows(GraphOf(fs), s.table) && Settled(GraphOf(fs), s.table, active)
    requires LeadTo(GraphOf(fs), active, name)
    ensures LoadedExactly(fs, s.table, Load(fs, s, name), name, active)
    decreases |fs.Keys - s.table.Keys|, 0
  {
    assert ResolvableAt(fs, fs[name]);
    if name in s.table {
      KnownIsExact(fs, s.table, name, active);
    } else {
      LoadEnters(fs, s, name);
      EnterSettled(fs, s, name, active);
      if fs[name].isJs {
        ScriptIsExact(fs, s, name, active);
      } else {
        var active1 := active + {name};
        LoadAllIsExact(fs, Enter(s, name), name, fs[name].imports, active1, []);
        HtmlIsExact(fs, s, name, active);
      }
    }
  }

  /** A registered name is settled, for otherwise it would import itself. */
  lemma KnownIsExact(fs: Files, t: Table, name: Name, active: set<Name>)
    requires Acyclic(GraphOf(fs)) && name in t && Linked(t)
    requires Follows(GraphOf(fs), t) && Settled(GraphOf(fs), t, active)
    requires LeadTo(GraphOf(fs), active, name) && name in fs
    ensures name !in active && NewFine(fs, t, name) && Steady(GraphOf(fs), t, t, active)
  {
    var g, settled := GraphOf(fs), t.Keys - active;
    forall m, d | m in settled && m in g && d in g[m] ensures d in settled {
      assert SettledAt(g, t, m, active);
    }
    forall n | Reaches(g, name, n) ensures n in t {
      ClosedUnderReach(g, settled, name, n);
    }
  }

  lemma ImportsThen(g: Graph, a: Name, b: Name, d: Name)
    requires Imports(g, a, b) && b in g && d in g[b] && d in g
    ensures Imports(g, a, d)
  {
    ReachesRefl(g, d);
    ReachesStep(g, b, d, d);
    var c :| c in g[a] && Reaches(g, c, b);
    ReachesTrans(g, c, b, d);
  }

  /** The table, and the modules being loaded, when the imports of `name` come next. */
  lemma EnterSettled(fs: Files, s: State, name: Name, active: set<Name>)
    requires Resolvable(fs) && name in fs && name !in s.table
    requires Follows(GraphOf(fs), s.table) && Settled(GraphOf(fs), s.table, active)
    requires LeadTo(GraphOf(fs), active, name)
    ensures Follows(GraphOf(fs), Enter(s, name).table)
    ensures Settled(GraphOf(fs), Enter(s, name).table, active + {name})
    ensures forall d :: d in GraphOf(fs)[name] ==> d in fs && LeadTo(GraphOf(fs), active + {name}, d)
  {
    var g, t := GraphOf(fs), Enter(s, name).table;
    forall n | n in t ensures FollowsAt(g, n, t[n]) {
      assert n in s.table ==> FollowsAt(g, n, s.table[n]);
    }
    forall n | n in t && n !in active + {name} ensures SettledAt(g, t, n, active + {name}) {
      assert SettledAt(g, s.table, n, active) && t[n] == s.table[n];
    }
    forall d, a | d in g[name] && a in active + {name} ensures d in fs && Imports(g, a, d) {
      assert ResolvableAt(fs, fs[name]);
      if a == name {
        ReachesRefl(g, d);
      } else {
        ImportsThen(g, a, name, d);
      }
    }
    forall d | d in g[name] ensures d in fs && LeadTo(g, active + {name}, d) {
      assert ResolvableAt(fs, fs[name]);
    }
  }

  lemma ScriptIsExact(fs: Files, s: State, name: Name, active: set<Name>)
    requires name in fs && name !in s.table && fs[name].isJs
    requires Follows(GraphOf(fs), s.table) && Settled(GraphOf(fs), s.table, active)
    ensures LoadedExactly(fs, s.table, Outcome(Enter(s, name), true), name, active)
  {
    var g, t := GraphOf(fs), Enter(s, name).table;
    forall n | n in t ensures FollowsAt(g, n, t[n]) {
      assert n in s.table ==> FollowsAt(g, n, s.table[n]);
    }
    forall n | n in t && n !in active ensures SettledAt(g, t, n, active) {
      if n != name {
        assert SettledAt(g, s.table, n, active) && t[n] == s.table[n];
      }
    }
    forall n | Reaches(g, name, n) ensures Fine(fs, n) {
      ReachesFirst(g, name, n);
    }
  }

  lemma {:induction false} LoadAllIsExact(fs: Files, s: State, m: Name, ds: seq<Name>, active: set<Name>,
      done: seq<Name>)
    requires Registered(fs, s.table) && Resolvable(fs) && Acyclic(GraphOf(fs)) && m in active && m in s.table &&
             !fs[m].isJs
    requires s.table[m] == Module(done, {}) && done + ds == fs[m].imports
    requires Follows(GraphOf(fs), s.table) && Settled(GraphOf(fs), s.table, active)
    requires forall d :: d in GraphOf(fs)[m] ==> d in fs && LeadTo(GraphOf(fs), active, d)
    ensures ImportsLoadedExactly(fs, s.table, LoadAll(fs, s, m, ds), m, ds, active)
    decreases |fs.Keys - s.table.Keys|, 1 + |ds|
  {
    if ds == [] {
      assert done == fs[m].imports;
    } else {
      var l := Load(fs, s, ds[0]);
      OneFurther(done, ds);
      LoadIsExact(fs, s, ds[0], active);
      if l.ok {
        AfterFirst(fs, s.table, l.state, m, ds, active, done);
        var s2 := Appended(l.state, m, ds[0]);
        LoadAllIsExact(fs, s2, m, ds[1..], active, done + [ds[0]]);
        LoadShape(fs, s, ds[0]);
        JoinExact(fs, s.table, l.state, LoadAll(fs, s2, m, ds[1..]), m, ds, active);
      }
    }
  }

  ghost predicate ImportsLoadedExactly(fs: Files, t: Table, r: Outcome, m: Name, ds: seq<Name>, active: set<Name>) {
    && (r.ok <==> AllNewFine(fs, t, ds))
    && (r.ok ==> && Follows(GraphOf(fs), r.state.table)
                 && Settled(GraphOf(fs), r.state.table, active)
                 && Same(t, r.state.table, active - {m})
                 && m in r.state.table && m in fs && r.state.table[m] == Module(fs[m].imports, {}))
  }

  /** The loop goes on as it began. */
  lemma AfterFirst(fs: Files, t: Table, l: State, m: Name, ds: seq<Name>, active: set<Name>, done: seq<Name>)
    requires Registered(fs, l.table) && t.Keys <= l.table.Keys && m in t && m in active && !fs[m].isJs
    requires ds != [] && t[m] == Module(done, {}) && done + ds == fs[m].imports && ds[0] in l.table
    requires Steady(GraphOf(fs), t, l.table, active) && m in l.table && l.table[m] == t[m]
    ensures var s2 := Appended(l, m, ds[0]);
            && Registered(fs, s2.table) && |fs.Keys - s2.table.Keys| <= |fs.Keys - t.Keys|
            && s2.table[m] == Module(done + [ds[0]], {}) && done + [ds[0]] + ds[1..] == fs[m].imports
            && Follows(GraphOf(fs), s2.table) && Settled(GraphOf(fs), s2.table, active)
  {
    OneFurther(done, ds);
    LoopGoesOn(fs, t, l, m, ds[0]);
    AppendSettled(fs, l, m, ds[0], active);
  }

  lemma AppendSettled(fs: Files, s: State, m: Name, d: Name, active: set<Name>)
    requires Follows(GraphOf(fs), s.table) && Settled(GraphOf(fs), s.table, active)
    requires m in active && m in s.table && m in fs && d in fs && d in GraphOf(fs)[m]
    ensures Follows(GraphOf(fs), Appended(s, m, d).table) && Settled(GraphOf(fs), Appended(s, m, d).table, active)
  {
    var g, t := GraphOf(fs), Appended(s, m, d).table;
    forall n | n in t ensures FollowsAt(g, n, t[n]) {
      assert FollowsAt(g, n, s.table[n]);
    }
    forall n | n in t && n !in active ensures SettledAt(g, t, n, active) {
      assert SettledAt(g, s.table, n, active) && t[n] == s.table[n];
    }
  }

  /** The first import, then the others. */
  lemma JoinExact(fs: Files, t: Table, l: State, r: Outcome, m: Name, ds: seq<Name>, active: set<Name>)
    requires ds != [] && m in active && m in t && m in l.table
    requires NewFine(fs, t, ds[0]) && Steady(GraphOf(fs), t, l.table, active)
    requires t.Keys <= l.table.Keys && NewReached(GraphOf(fs), t, l.table, ds[0])
    requires ImportsLoadedExactly(fs, Appended(l, m, ds[0]).table, r, m, ds[1..], active)
    ensures ImportsLoadedExactly(fs, t, r, m, ds, active)
  {
    assert Appended(l, m, ds[0]).table.Keys == l.table.Keys;
    FineInTurn(fs, t, Appended(l, m, ds[0]).table, ds);
  }

  lemma FineInTurn(fs: Files, t: Table, t2: Table, ds: seq<Name>)
    requires ds != [] && NewFine(fs, t, ds[0]) && t.Keys <= t2.Keys && NewReached(GraphOf(fs), t, t2, ds[0])
    ensures AllNewFine(fs, t2, ds[1..]) <==> AllNewFine(fs, t, ds)
  {
    assert forall d :: d in ds <==> d == ds[0] || d in ds[1..];
    if AllNewFine(fs, t2, ds[1..]) {
      forall d, n | d in ds[1..] && Reaches(GraphOf(fs), d, n) && n !in t ensures Fine(fs, n) {
        assert NewFine(fs, t2, d);
      }
      assert forall d :: d in ds[1..] ==> NewFine(fs, t, d);
    }
    if AllNewFine(fs, t, ds) {
      forall d | d in ds[1..] ensures NewFine(fs, t2, d) {
        assert NewFine(fs, t, d);
      }
    }
  }

  lemma HtmlIsExact(fs: Files, s: State, name: Name, active: set<Name>)
    requires Resolvable(fs) && Acyclic(GraphOf(fs)) && LeadTo(GraphOf(fs), active, name)
    requires name in fs && name !in s.table && !fs[name].isJs && Registered(fs, Enter(s, name).table)
    requires Settled(GraphOf(fs), s.table, active)
    requires ImportsLoadedExactly(fs, Enter(s, name).table, LoadAll(fs, Enter(s, name), name, fs[name].imports), name,
                                  fs[name].imports, active + {name})
    ensures LoadedExactly(fs, s.table, LoadHtml(fs, Enter(s, name), name), name, active)
  {
    var g, s1, ds := GraphOf(fs), Enter(s, name), fs[name].imports;
    var l := LoadAll(fs, s1, name, ds);
    FineSinceEnter(fs, s, name);
    if l.ok {
      var t := l.state.table;
      ImportsSettled(fs, t, name, active);
      ClosureIsExact(g, t, name);
      FinishChecks(fs, l.state, name);
      FillsFollows(g, t, Closure(t, name), {});
      ClosedSettled(fs, t, Closure(t, name), name, active);
      KeptSinceStart(s, t, Closure(t, name), name, active);
    }
  }

  /** What is new for `name` is `name` and what is new for its imports. */
  lemma FineSinceEnter(fs: Files, s: State, name: Name)
    requires name in fs && name !in s.table && !fs[name].isJs
    ensures NewFine(fs, s.table, name) <==> Fine(fs, name) && AllNewFine(fs, Enter(s, name).table, fs[name].imports)
  {
    var g, t1 := GraphOf(fs), Enter(s, name).table;
    ReachesRefl(g, name);
    if NewFine(fs, s.table, name) {
      forall d, n | d in g[name] && Reaches(g, d, n) && n !in t1 ensures Fine(fs, n) {
        ReachesStep(g, name, d, n);
      }
      assert forall d :: d in g[name] ==> NewFine(fs, t1, d);
    }
    if Fine(fs, name) && AllNewFine(fs, t1, fs[name].imports) {
      forall n | Reaches(g, name, n) && n !in s.table ensures Fine(fs, n) {
        ReachesFirst(g, name, n);
        if n != name {
          var d :| d in g[name] && Reaches(g, d, n);
          assert NewFine(fs, t1, d);
        }
      }
    }
  }

  /** The imports of `name` are settled when they have all been loaded. */
  lemma ImportsSettled(fs: Files, t: Table, name: Name, active: set<Name>)
    requires Acyclic(GraphOf(fs)) && LeadTo(GraphOf(fs), active, name) && Linked(t) && Resolvable(fs)
    requires name in fs && name in t && t[name].dependentModules == GraphOf(fs)[name]
    requires Settled(GraphOf(fs), t, active + {name})
    ensures ExactBelow(GraphOf(fs), t, name, GraphOf(fs)[name])
    ensures forall d :: d in GraphOf(fs)[name] ==> d in t && d !in active && d != name
  {
    var g := GraphOf(fs);
    forall d | d in g[name] ensures d in t && d !in active && d != name && Exact(g, t, d) {
      assert DependsIn(t[name], t.Keys) && ResolvableAt(fs, fs[name]);
      ReachesRefl(g, d);
      assert Imports(g, name, d);
      if d in active {
        ImportsThen(g, d, name, d);
        assert false;
      }
      assert SettledAt(g, t, d, active + {name});
    }
  }

  lemma ClosedSettled(fs: Files, t: Table, r: Table, name: Name, active: set<Name>)
    requires name in t && name in fs && Settled(GraphOf(fs), t, active + {name}) && name !in active
    requires forall d :: d in GraphOf(fs)[name] ==> d in t && d !in active && d != name
    requires r.Keys == t.Keys && Exact(GraphOf(fs), r, name) && forall n :: n in t && n != name ==> r[n] == t[n]
    ensures Settled(GraphOf(fs), r, active)
  {
    var g := GraphOf(fs);
    forall n | n in r && n !in active ensures SettledAt(g, r, n, active) {
      if n != name {
        assert SettledAt(g, t, n, active + {name}) && r[n] == t[n];
      }
    }
  }

  lemma KeptSinceStart(s: State, t: Table, r: Table, name: Name, active: set<Name>)
    requires name !in s.table && forall n :: n in t && n != name ==> n in r && r[n] == t[n]
    requires name !in active && Same(Enter(s, name).table, t, active + {name} - {name})
    ensures Same(s.table, r, active)
  {
    assert active + {name} - {name} == active;
    forall a | a in active && a in s.table ensures a in r && r[a] == s.table[a] {
      assert a in Enter(s, name).table && Enter(s, name).table[a] == s.table[a];
    }
  }

  // ----- main results

  lemma {:induction false} LoadEachIsExact(fs: Files, s: State, names: seq<Name>)
    requires Registered(fs, s.table) && Resolvable(fs) && Acyclic(GraphOf(fs)) && forall n :: n in names ==> n in fs
    requires Follows(GraphOf(fs), s.table) && Settled(GraphOf(fs), s.table, {})
    ensures LoadEach(fs, s, names).ok <==> AllNewFine(fs, s.table, names)
    ensures LoadEach(fs, s, names).ok ==> Settled(GraphOf(fs), LoadEach(fs, s, names).state.table, {})
    decreases |names|
  {
    if names != [] {
      var l := Load(fs, s, names[0]);
      LoadIsExact(fs, s, names[0], {});
      if l.ok {
        LoadShape(fs, s, names[0]);
        LoadEachIsExact(fs, l.state, names[1..]);
        FineInTurn(fs, s.table, l.state.table, names);
      }
    }
  }

  /** On acyclic imports a fresh loader returns if and only if each module that the
      requested names reach imports the base module if it exports; every cached closure
      is then the set of modules reached by one or more imports. */
  lemma AcyclicLoadsAreExact(fs: Files, names: seq<Name>)
    requires Resolvable(fs) && Acyclic(GraphOf(fs)) && forall n :: n in names ==> n in fs
    ensures var r := LoadEach(fs, State(map[], 0), names);
            && (r.ok <==> forall n :: ReachedFrom(GraphOf(fs), names, n) ==> Fine(fs, n))
            && (r.ok ==> forall n :: n in r.state.table ==> Exact(GraphOf(fs), r.state.table, n))
  {
    var g, r := GraphOf(fs), LoadEach(fs, State(map[], 0), names);
    LoadEachIsExact(fs, State(map[], 0), names);
    if AllNewFine(fs, map[], names) {
      forall n | ReachedFrom(g, names, n) ensures Fine(fs, n) {
        var a :| a in names && Reaches(g, a, n);
        assert NewFine(fs, map[], a);
      }
    }
    if r.ok {
      forall n | n in r.state.table ensures Exact(g, r.state.table, n) {
        assert SettledAt(g, r.state.table, n, {});
      }
    }
  }

  /** A module that imports only `a`, when `a` is still loading its first import, sees
      nothing behind `a`. */
  lemma HiddenBehind(fs: Files, s: State, n: Name, a: Name)
    requires Registered(fs, s.table) && n in fs && n !in s.table && fs[n].imports == [a] && Exports(fs, n)
    requires a in s.table && s.table[a] == Module([], {}) && a != BASE
    ensures !Load(fs, s, n).ok
  {
    LoadEnters(fs, s, n);
    HiddenInHtml(fs, Enter(s, n), n, a);
  }

  lemma HiddenInHtml(fs: Files, s: State, n: Name, a: Name)
    requires Registered(fs, s.table) && n in s.table && a in s.table && n != a && fs[n].imports == [a] && Exports(fs, n)
    requires s.table[n] == Module([], {}) && s.table[a] == Module([], {}) && a != BASE
    ensures !LoadHtml(fs, s, n).ok
  {
    LoadAllSteps(fs, s, n, [a], 0);
    assert [a][0..] == [a] && [a][1..] == [];
    if fs[a].contents != "" {
      assert Load(fs, s, a) == Outcome(s, true);
      SeesOnly(Appended(s, n, a).table, n, a);
      FinishChecks(fs, Appended(s, n, a), n);
    }
  }

  /** Evaluating a property with a single dependency, in two steps. */
  lemma ClosureOfOne(t: Table, m: Name, d: Name)
    requires Linked(t) && m in t && t[m] == Module([d], {}) && d in t
    ensures var u := WithCache(t, m, {d});
            && Linked(u)
            && Closure(t, m) == WithCache(Closure(u, d), m, Closure(u, d)[m].cache + Closure(u, d)[d].cache)
  {
    CachingShrinks(t, m);
    assert Elements([d]) == {d};
    var u := WithCache(t, m, {d});
    FillsLinked(t, u, {});
    ClosureAllOne(u, m, d);
  }

  lemma ClosureAllOne(t: Table, m: Name, d: Name)
    requires Linked(t) && m in t && t[m].cache != {} && d in t
    ensures ClosureAll(t, m, [d]) == WithCache(Closure(t, d), m, Closure(t, d)[m].cache + Closure(t, d)[d].cache)
  {
    AbsorbFills(t, Closure(t, d), m, d);
    assert [d][1..] == [];
  }

  lemma SeesOnly(t: Table, n: Name, a: Name)
    requires Linked(t) && n in t && a in t && n != a && t[n] == Module([a], {}) && t[a] == Module([], {})
    ensures Closure(t, n)[n].cache == {a}
  {
    ClosureOfOne(t, n, a);
    assert Closure(WithCache(t, n, {a}), a) == WithCache(t, n, {a});
  }

  const CYCLE: Files := map["a" := Resource(false, "a", ["b", BASE]), "b" := Resource(false, "tr.exportTo", ["a"]),
                            BASE := Resource(false, "base", [])]

  /** On cyclic imports the check can be wrong: "b" imports the base module through "a",
      and loading "a" raises all the same. */
  lemma CycleMissesBase()
    ensures Resolvable(CYCLE) && "a" in CYCLE && forall n :: Fine(CYCLE, n)
    ensures !Load(CYCLE, State(map[], 0), "a").ok
  {
    CycleIsFine();
    CycleFromA();
  }

  lemma CycleIsFine()
    ensures forall n :: Fine(CYCLE, n)
  {
    var g := GraphOf(CYCLE);
    assert g["a"][1] == BASE && g["b"][0] == "a";
    ReachesRefl(g, BASE);
    ReachesStep(g, "a", BASE, BASE);
    assert Imports(g, "b", BASE);
  }

  lemma CycleFromA()
    ensures !Load(CYCLE, State(map[], 0), "a").ok
  {
    var s0 := State(map[], 0);
    assert StandsAt("tr.exportTo", "tr.exportTo", 0);
    LoadEnters(CYCLE, s0, "a");
    HiddenBehind(CYCLE, Enter(s0, "a"), "b", "a");
    LoadAllSteps(CYCLE, Enter(s0, "a"), "a", ["b", BASE], 0);
    assert ["b", BASE][0..] == ["b", BASE];
  }

  /** A cache that has been filled is never filled again, whatever is loaded later. */
  lemma {:induction false} LoadKeepsCache(fs: Files, s: State, name: Name, n: Name)
    requires Registered(fs, s.table) && n in s.table && s.table[n].cache != {}
    ensures Load(fs, s, name).state.table[n].cache == s.table[n].cache
    decreases |fs.Keys - s.table.Keys|, 0
  {
    if name !in s.table && name in fs {
      LoadEnters(fs, s, name);
      if !fs[name].isJs {
        LoadAllKeepsCache(fs, Enter(s, name), name, fs[name].imports, n);
      }
    }
  }

  lemma {:induction false} LoadAllKeepsCache(fs: Files, s: State, m: Name, ds: seq<Name>, n: Name)
    requires Registered(fs, s.table) && m in s.table && n in s.table && s.table[n].cache != {}
    ensures LoadAll(fs, s, m, ds).state.table[n].cache == s.table[n].cache
    decreases |fs.Keys - s.table.Keys|, 1 + |ds|
  {
    if ds != [] {
      LoadKeepsCache(fs, s, ds[0], n);
      var l := Load(fs, s, ds[0]);
      if l.ok {
        LoopGoesOn(fs, s.table, l.state, m, ds[0]);
        LoadAllKeepsCache(fs, Appended(l.state, m, ds[0]), m, ds[1..], n);
      }
    }
  }

  /** Loading `x`, which imports `n` back while `n` has only got as far as its import `y`,
      fills the cache of `n` with `y` alone. */
  lemma SeesPartOf(t: Table, x: Name, n: Name, y: Name)
    requires Linked(t) && x in t && n in t && y in t && x != n && x != y && n != y
    requires t[x] == Module([n], {}) && t[n] == Module([y], {}) && t[y] == Module([], {})
    ensures Closure(t, x)[n].cache == {y}
  {
    ClosureOfOne(t, x, n);
    SeesOnly(WithCache(t, x, {n}), n, y);
  }

  lemma ImportedBack(fs: Files, s: State, x: Name, n: Name, y: Name)
    requires Registered(fs, s.table) && x in s.table && n in s.table && y in s.table && x != n && x != y && n != y
    requires fs[x].imports == [n] && fs[n].contents != ""
    requires s.table[x] == Module([], {}) && s.table[n] == Module([y], {}) && s.table[y] == Module([], {})
    ensures LoadHtml(fs, s, x).state.table[n].cache == {y}
  {
    LoadAllSteps(fs, s, x, [n], 0);
    assert [n][0..] == [n] && [n][1..] == [];
    assert Load(fs, s, n) == Outcome(s, true);
    SeesPartOf(Appended(s, x, n).table, x, n, y);
  }

  /** An exporting module that itself lists the base module is rejected when one of its
      earlier imports imports it back, after another import without imports of its own. */
  lemma OwnImportIsMissed(fs: Files, n: Name, x: Name, y: Name)
    requires n in fs && x in fs && y in fs && BASE in fs && n != x && n != y && x != y && y != BASE
    requires Exports(fs, n) && fs[n].imports == [y, x, BASE] && !fs[x].isJs && fs[x].imports == [n] && fs[y].isJs
    ensures Fine(fs, n)
    ensures !Load(fs, State(map[], 0), n).ok
  {
    var s0 := State(map[], 0);
    LoadEnters(fs, s0, n);
    assert GraphOf(fs)[n][2] == BASE;
    ReachesRefl(GraphOf(fs), BASE);
    MissedInHtml(fs, Enter(s0, n), n, x, y);
  }

  lemma MissedInHtml(fs: Files, s: State, n: Name, x: Name, y: Name)
    requires n in fs && x in fs && y in fs && n != x && n != y && x != y && y != BASE
    requires Exports(fs, n) && fs[n].imports == [y, x, BASE] && !fs[x].isJs && fs[x].imports == [n] && fs[y].isJs
    requires Registered(fs, s.table) && n in s.table && s.table[n] == Module([], {}) && x !in s.table && y !in s.table
    ensures !LoadHtml(fs, s, n).ok
  {
    var s1 := ScriptLoaded(fs, s, n, y, [x, BASE]);
    assert fs[n].imports == [y] + [x, BASE];
    MissedThrough(fs, s1, n, x, y);
  }

  /** The loop of `n` after its first import, the script `y`. */
  lemma ScriptLoaded(fs: Files, s: State, n: Name, y: Name, rest: seq<Name>) returns (s1: State)
    requires Registered(fs, s.table) && n in s.table && s.table[n] == Module([], {})
    requires y in fs && y !in s.table && y != n && fs[y].isJs
    ensures Registered(fs, s1.table) && s1.table.Keys == s.table.Keys + {y}
    ensures s1.table[n] == Module([y], {}) && s1.table[y] == Module([], {})
    ensures LoadAll(fs, s, n, [y] + rest) == LoadAll(fs, s1, n, rest)
  {
    LoadEnters(fs, s, y);
    s1 := Appended(Enter(s, y), n, y);
    LoadAllSteps(fs, s, n, [y] + rest, 0);
    assert ([y] + rest)[0..] == [y] + rest && ([y] + rest)[1..] == rest;
    assert [] + [y] == [y];
  }

  /** A cache that holds another module alone is found without the base module. */
  lemma HidesBase(fs: Files, l: State, n: Name, y: Name)
    requires Registered(fs, l.table) && n in l.table && l.table[n].cache == {y} && y != BASE && Exports(fs, n)
    ensures !Finish(fs, l, n).ok
  {
    FinishChecks(fs, l, n);
  }

  /** From the second import on. */
  lemma MissedThrough(fs: Files, s: State, n: Name, x: Name, y: Name)
    requires n in fs && x in fs && y in fs && n != x && n != y && x != y && y != BASE
    requires Exports(fs, n) && !fs[x].isJs && fs[x].imports == [n]
    requires Registered(fs, s.table) && n in s.table && y in s.table && x !in s.table
    requires s.table[n] == Module([y], {}) && s.table[y] == Module([], {})
    ensures var l := LoadAll(fs, s, n, [x, BASE]); l.ok ==> !Finish(fs, l.state, n).ok
  {
    LoadEnters(fs, s, x);
    if fs[n].contents != "" {
      ImportedBack(fs, Enter(s, x), x, n, y);
    }
    var l := Load(fs, s, x);
    LoadAllSteps(fs, s, n, [x, BASE], 0);
    assert [x, BASE][0..] == [x, BASE];
    if l.ok {
      LoadAllKeepsCache(fs, Appended(l.state, n, x), n, [x, BASE][1..], n);
      HidesBase(fs, LoadAll(fs, s, n, [x, BASE]).state, n, y);
    }
  }
}
