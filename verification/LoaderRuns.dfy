/** What LoadModule leaves in the table of modules, over every import graph. */
module LoaderRuns {
  import opened Basics
  import opened ModuleGraph
  import opened ClosureCache
  import opened ResourceLoader

  // ----- one module per name, loaded in full

  /** Registered modules stay, with the same dependencies; only `busy` is still
      collecting its own. */
  ghost predicate Kept(t: Table, r: Table, busy: set<Name>) {
    t.Keys <= r.Keys && forall n :: n in t && n !in busy ==> r[n].dependentModules == t[n].dependentModules
  }

  /** The dependent modules of `n` are those its file imports, in order. */
  ghost predicate FullAt(g: Graph, t: Table, n: Name) {
    n in t && n in g && t[n].dependentModules == g[n]
  }

  ghost predicate NewFull(g: Graph, t: Table, r: Table) {
    forall n :: n in r && n !in t ==> FullAt(g, r, n)
  }

  /** Nothing is registered that the import of `a` does not need. */
  ghost predicate NewReached(g: Graph, t: Table, r: Table, a: Name) {
    forall n :: n in r && n !in t ==> Reaches(g, a, n)
  }

  ghost predicate NewImported(g: Graph, t: Table, r: Table, a: Name) {
    forall n :: n in r && n !in t ==> Imports(g, a, n)
  }

  ghost predicate OnePerName(s: State, r: State) {
    r.created - s.created == |r.table| - |s.table|
  }

  /** One Module was made for each name registered, the others were left alone, and on
      return each new Module has its dependencies complete. */
  ghost predicate LoadedWell(fs: Files, s: State, r: Outcome, name: Name) {
    && Kept(s.table, r.state.table, {})
    && NewReached(GraphOf(fs), s.table, r.state.table, name)
    && OnePerName(s, r.state)
    && (r.ok ==> NewFull(GraphOf(fs), s.table, r.state.table))
  }

  /** The same of the loop over the imports of `m`. */
  ghost predicate ImportsLoadedWell(fs: Files, s: State, r: Outcome, m: Name) {
    && Kept(s.table, r.state.table, {m})
    && NewImported(GraphOf(fs), s.table, r.state.table, m)
    && OnePerName(s, r.state)
    && (r.ok ==> NewFull(GraphOf(fs), s.table, r.state.table) && FullAt(GraphOf(fs), r.state.table, m))
  }

  /** Every call of LoadModule, whether it returns or raises and whatever the graph. */
  lemma {:induction false} LoadShape(fs: Files, s: State, name: Name)
    requires Registered(fs, s.table)
    ensures LoadedWell(fs, s, Load(fs, s, name), name)
    decreases |fs.Keys - s.table.Keys|, 0
  {
    if name in s.table || name !in fs {
      assert Load(fs, s, name).state == s;
    } else {
      LoadEnters(fs, s, name);
      if fs[name].isJs {
        ScriptShape(fs, s, name);
      } else {
        LoadAllShape(fs, Enter(s, name), name, fs[name].imports, []);
        EnteredShape(fs, s, name);
      }
    }
  }

  lemma CountKeys(t: Table)
    ensures |t| == |t.Keys|
  {
  }

  lemma EnterCounts(s: State, name: Name)
    requires name !in s.table
    ensures OnePerName(s, Enter(s, name))
  {
    CountKeys(s.table);
    CountKeys(Enter(s, name).table);
    assert Enter(s, name).table.Keys == s.table.Keys + {name};
  }

  lemma ScriptShape(fs: Files, s: State, name: Name)
    requires Registered(fs, s.table) && name in fs && name !in s.table && fs[name].isJs
    ensures LoadedWell(fs, s, Outcome(Enter(s, name), true), name)
  {
    EnterCounts(s, name);
    ReachesRefl(GraphOf(fs), name);
    assert FullAt(GraphOf(fs), Enter(s, name).table, name);
  }

  lemma EnteredShape(fs: Files, s: State, name: Name)
    requires name in fs && name !in s.table && Registered(fs, Enter(s, name).table)
    requires ImportsLoadedWell(fs, Enter(s, name), LoadAll(fs, Enter(s, name), name, fs[name].imports), name)
    ensures LoadedWell(fs, s, LoadHtml(fs, Enter(s, name), name), name)
  {
    var g, s1 := GraphOf(fs), Enter(s, name);
    var l := LoadAll(fs, s1, name, fs[name].imports);
    EnterCounts(s, name);
    if l.ok {
      ClosureShape(fs, s1, l.state, name);
    }
    var r := LoadHtml(fs, s1, name);
    assert r.state.table.Keys == l.state.table.Keys && r.state.created == l.state.created;
    CountKeys(r.state.table);
    CountKeys(l.state.table);
    ReachedSinceEnter(g, s.table, l.state.table, r.state.table, name);
    KeptSinceEnter(s, r.state.table, name);
    if r.ok {
      FullSinceEnter(g, s, r.state.table, name);
    }
  }

  lemma ReachedSinceEnter(g: Graph, t: Table, l: Table, r: Table, a: Name)
    requires a in g && NewImported(g, Register(t, a), l, a) && r.Keys == l.Keys
    ensures NewReached(g, t, r, a)
  {
    ReachesRefl(g, a);
    forall n | n in r && n !in t && n != a ensures Reaches(g, a, n) {
      var d :| d in g[a] && Reaches(g, d, n);
      ReachesStep(g, a, d, n);
    }
  }

  lemma KeptSinceEnter(s: State, r: Table, name: Name)
    requires name !in s.table && Kept(Enter(s, name).table, r, {name})
    ensures Kept(s.table, r, {})
  {
    var t := Enter(s, name).table;
    assert forall n :: n in s.table ==> n in t && t[n] == s.table[n];
  }

  lemma FullSinceEnter(g: Graph, s: State, r: Table, name: Name)
    requires NewFull(g, Enter(s, name).table, r) && FullAt(g, r, name)
    ensures NewFull(g, s.table, r)
  {
  }

  /** Evaluating the closure changes no dependencies. */
  lemma ClosureShape(fs: Files, s: State, l: State, m: Name)
    requires Registered(fs, l.table) && m in l.table
    requires ImportsLoadedWell(fs, s, Outcome(l, true), m)
    ensures ImportsLoadedWell(fs, s, Outcome(Finish(fs, l, m).state, true), m)
  {
    var g, r := GraphOf(fs), Finish(fs, l, m).state.table;
    CountKeys(r);
    CountKeys(l.table);
    forall n | n in r && n !in s.table ensures FullAt(g, r, n) {
      assert FullAt(g, l.table, n);
    }
  }

  lemma {:induction false} LoadAllShape(fs: Files, s: State, m: Name, ds: seq<Name>, done: seq<Name>)
    requires Registered(fs, s.table) && m in s.table && !fs[m].isJs
    requires s.table[m].dependentModules == done && done + ds == fs[m].imports
    ensures ImportsLoadedWell(fs, s, LoadAll(fs, s, m, ds), m)
    decreases |fs.Keys - s.table.Keys|, 1 + |ds|
  {
    if ds == [] {
      assert done == fs[m].imports;
    } else {
      var l := Load(fs, s, ds[0]);
      LoadShape(fs, s, ds[0]);
      OneFurther(done, ds);
      ImportShape(fs, s, l, m, ds[0]);
      if l.ok {
        LoopGoesOn(fs, s.table, l.state, m, ds[0]);
        var s2 := Appended(l.state, m, ds[0]);
        LoadAllShape(fs, s2, m, ds[1..], done + [ds[0]]);
        JoinShapes(fs, s, l.state, LoadAll(fs, s2, m, ds[1..]), m, ds[0]);
      }
    }
  }

  /** The loop goes on as it began. */
  lemma LoopGoesOn(fs: Files, t: Table, l: State, m: Name, d: Name)
    requires Registered(fs, l.table) && t.Keys <= l.table.Keys && m in l.table && d in l.table
    ensures var s2 := Appended(l, m, d);
            && Registered(fs, s2.table) && m in s2.table && |fs.Keys - s2.table.Keys| <= |fs.Keys - t.Keys|
            && s2.table[m] == Module(l.table[m].dependentModules + [d], l.table[m].cache)
  {
    AppendKeeps(fs, l.table, m, d);
    MeasureShrinks(fs, t, Append(l.table, m, d));
  }

  lemma OneFurther(done: seq<Name>, ds: seq<Name>)
    requires ds != []
    ensures done + [ds[0]] + ds[1..] == done + ds && (done + ds)[|done|] == ds[0]
  {
  }

  /** Loading one import `d` of `m`, seen from the loop. */
  lemma ImportShape(fs: Files, s: State, l: Outcome, m: Name, d: Name)
    requires m in s.table && m in fs && d in GraphOf(fs)[m] && LoadedWell(fs, s, l, d)
    ensures NewImported(GraphOf(fs), s.table, l.state.table, m)
    ensures m in l.state.table && l.state.table[m].dependentModules == s.table[m].dependentModules
    ensures !l.ok ==> ImportsLoadedWell(fs, s, l, m)
  {
  }

  lemma JoinShapes(fs: Files, s: State, l: State, r: Outcome, m: Name, d: Name)
    requires m in s.table && m in l.table
    requires LoadedWell(fs, s, Outcome(l, true), d) && NewImported(GraphOf(fs), s.table, l.table, m)
    requires ImportsLoadedWell(fs, Appended(l, m, d), r, m)
    ensures ImportsLoadedWell(fs, s, r, m)
  {
    var g, s2, t := GraphOf(fs), Appended(l, m, d), r.state.table;
    assert s2.table.Keys == l.table.Keys;
    CountKeys(s2.table);
    CountKeys(l.table);
    forall n | n in t && n !in s.table ensures Imports(g, m, n) && (r.ok ==> FullAt(g, t, n)) {
      if n in l.table {
        assert FullAt(g, l.table, n) && t[n].dependentModules == s2.table[n].dependentModules;
      }
    }
  }

  // ----- calls from outside the loader

  /** Outermost calls one after the other, ending with the first that raises. */
  ghost function LoadEach(fs: Files, s: State, names: seq<Name>): (r: Outcome)
    requires Registered(fs, s.table)
    decreases |names|
  {
    if names == [] then Outcome(s, true)
    else
      var l := Load(fs, s, names[0]);
      if l.ok then LoadEach(fs, l.state, names[1..]) else l
  }

  /** No module is still being loaded. */
  ghost predicate Complete(g: Graph, t: Table) {
    forall n :: n in t ==> FullAt(g, t, n)
  }

  /** The registered modules are the `old` ones and those reached from `names`. */
  ghost predicate HoldsReached(g: Graph, t: Table, before: set<Name>, names: seq<Name>) {
    forall n :: n in t <==> n in before || ReachedFrom(g, names, n)
  }

  /** After an outermost call every dependency list is that of the file, in order, and
      the modules are exactly those registered before and those reached from `name`. */
  lemma LoadedOutermost(fs: Files, s: State, name: Name)
    requires Registered(fs, s.table) && Complete(GraphOf(fs), s.table) && Load(fs, s, name).ok
    ensures var t := Load(fs, s, name).state.table;
            Complete(GraphOf(fs), t) && forall n :: n in t <==> n in s.table || Reaches(GraphOf(fs), name, n)
  {
    var g, t := GraphOf(fs), Load(fs, s, name).state.table;
    LoadShape(fs, s, name);
    forall n | n in t ensures FullAt(g, t, n) {
      assert n in s.table ==> FullAt(g, s.table, n);
    }
    forall n | Reaches(g, name, n) ensures n in t {
      CompleteIsClosed(g, t);
      ClosedUnderReach(g, t.Keys, name, n);
    }
  }

  lemma CompleteIsClosed(g: Graph, t: Table)
    requires Complete(g, t) && Linked(t)
    ensures forall m, d :: m in t.Keys && m in g && d in g[m] ==> d in t.Keys
  {
    forall m, d | m in t.Keys && m in g && d in g[m] ensures d in t.Keys {
      assert FullAt(g, t, m) && DependsIn(t[m], t.Keys);
    }
  }

  /** A fresh loader that returned from any calls holds one Module for each name that the
      requested ones reach, whatever cycles their imports form. */
  lemma OneModulePerName(fs: Files, names: seq<Name>)
    requires LoadEach(fs, State(map[], 0), names).ok
    ensures var s, g := LoadEach(fs, State(map[], 0), names).state, GraphOf(fs);
            Complete(g, s.table) && s.created == |s.table| && HoldsReached(g, s.table, {}, names)
  {
    LoadEachShape(fs, State(map[], 0), names);
  }

  lemma {:induction false} LoadEachShape(fs: Files, s: State, names: seq<Name>)
    requires Registered(fs, s.table) && Complete(GraphOf(fs), s.table) && LoadEach(fs, s, names).ok
    ensures var r, g := LoadEach(fs, s, names).state, GraphOf(fs);
            Complete(g, r.table) && OnePerName(s, r) && HoldsReached(g, r.table, s.table.Keys, names)
    decreases |names|
  {
    if names != [] {
      var g, l := GraphOf(fs), Load(fs, s, names[0]).state;
      LoadShape(fs, s, names[0]);
      LoadedOutermost(fs, s, names[0]);
      LoadEachShape(fs, l, names[1..]);
      forall n ensures ReachedFrom(g, names, n) <==> Reaches(g, names[0], n) || ReachedFrom(g, names[1..], n) {
        assert forall a :: a in names <==> a == names[0] || a in names[1..];
      }
    }
  }

  /** Loading a name again gives back the same Module and changes nothing; it raises for a
      file without contents, which the first call does not mind. */
  lemma LoadTwice(fs: Files, s: State, name: Name)
    requires Registered(fs, s.table) && Load(fs, s, name).ok
    ensures var r := Load(fs, s, name).state; Load(fs, r, name) == Outcome(r, fs[name].contents != "")
  {
  }

  // ----- loading ends in success unless a file is at fault

  /** Every import of an HTML file is a file, and no file is empty. */
  ghost predicate Resolvable(fs: Files) {
    forall n :: n in fs ==> ResolvableAt(fs, fs[n])
  }

  ghost predicate ResolvableAt(fs: Files, f: Resource) {
    f.contents != "" && forall d :: d in ImportsOf(f) ==> d in fs
  }

  /** An HTML file with tr.exportTo anywhere in its text. */
  ghost predicate Exports(fs: Files, n: Name) {
    n in fs && !fs[n].isJs && Occurs(fs[n].contents, "tr.exportTo")
  }

  /** Loading a file ends well unless it exports and the base module is not found. */
  lemma FinishChecks(fs: Files, l: State, name: Name)
    requires Registered(fs, l.table) && name in l.table && !fs[name].isJs
    ensures Finish(fs, l, name).ok <==> (Exports(fs, name) ==> BASE in Closure(l.table, name)[name].cache)
  {
    MentionsIff(fs[name].contents, "tr.exportTo");
  }

  /** Every exporting file imports the base module before anything else. */
  ghost predicate BaseFirst(fs: Files) {
    forall n :: Exports(fs, n) ==> fs[n].imports != [] && fs[n].imports[0] == BASE
  }

  /** `b` is the first dependency loaded so far, and a cache that has been filled holds it. */
  ghost predicate Leads(m: Module, b: Name) {
    (m.dependentModules == [] || m.dependentModules[0] == b) && (m.cache != {} ==> b in m.cache)
  }

  /** The exporting modules in the table have got the base module first. */
  ghost predicate Primed(fs: Files, t: Table) {
    forall n :: n in t && Exports(fs, n) ==> Leads(t[n], BASE)
  }

  /** Evaluating the closure of `m` does not hide the first dependency of `n`. */
  lemma {:induction false} ClosureKeepsLead(t: Table, m: Name, n: Name, b: Name)
    requires Linked(t) && m in t && n in t && Leads(t[n], b)
    ensures Leads(Closure(t, m)[n], b)
    ensures t[m].dependentModules != [] ==> Closure(t, m)[m].cache != {}
    decreases |Uncached(t)|, 0
  {
    if t[m].cache == {} && t[m].dependentModules != [] {
      CachingShrinks(t, m);
      var u := WithCache(t, m, Elements(t[m].dependentModules));
      FillsLinked(t, u, {});
      assert DependsIn(t[m], t.Keys);
      ClosureAllKeepsLead(u, m, t[m].dependentModules, n, b);
    }
  }

  lemma {:induction false} ClosureAllKeepsLead(t: Table, m: Name, ds: seq<Name>, n: Name, b: Name)
    requires Linked(t) && m in t && t[m].cache != {} && (forall d :: d in ds ==> d in t) && n in t && Leads(t[n], b)
    ensures Leads(ClosureAll(t, m, ds)[n], b)
    decreases |Uncached(t)|, 1 + |ds|
  {
    if ds != [] {
      var t1 := Closure(t, ds[0]);
      ClosureKeepsLead(t, ds[0], n, b);
      AbsorbFills(t, t1, m, ds[0]);
      ClosureAllKeepsLead(WithCache(t1, m, t1[m].cache + t1[ds[0]].cache), m, ds[1..], n, b);
    }
  }

  lemma FinishReturns(fs: Files, l: State, name: Name)
    requires Registered(fs, l.table) && name in l.table && Primed(fs, l.table) && !fs[name].isJs
    requires Exports(fs, name) ==> l.table[name].dependentModules != []
    ensures Finish(fs, l, name).ok && Primed(fs, Finish(fs, l, name).state.table)
  {
    var r := Closure(l.table, name);
    FinishChecks(fs, l, name);
    forall n | n in r && Exports(fs, n) ensures Leads(r[n], BASE) && (n == name ==> BASE in r[n].cache) {
      ClosureKeepsLead(l.table, name, n, BASE);
    }
  }

  /** When every exporting file imports the base module first, or no file exports at all,
      LoadModule returns on every import graph, cyclic or not. */
  lemma {:induction false} LoadReturns(fs: Files, s: State, name: Name)
    requires Registered(fs, s.table) && Resolvable(fs) && name in fs && BaseFirst(fs) && Primed(fs, s.table)
    ensures Load(fs, s, name).ok && Primed(fs, Load(fs, s, name).state.table)
    decreases |fs.Keys - s.table.Keys|, 0
  {
    assert ResolvableAt(fs, fs[name]);
    if name !in s.table {
      LoadEnters(fs, s, name);
      EnterPrimes(fs, s, name);
      if !fs[name].isJs {
        LoadAllReturns(fs, Enter(s, name), name, fs[name].imports, []);
        HtmlReturns(fs, Enter(s, name), name);
      }
    }
  }

  lemma EnterPrimes(fs: Files, s: State, name: Name)
    requires Primed(fs, s.table)
    ensures Primed(fs, Enter(s, name).table)
  {
  }

  lemma HtmlReturns(fs: Files, s: State, name: Name)
    requires Registered(fs, s.table) && name in s.table && !fs[name].isJs && BaseFirst(fs)
    requires var r := LoadAll(fs, s, name, fs[name].imports);
             r.ok && Primed(fs, r.state.table) && name in r.state.table &&
                 r.state.table[name].dependentModules == fs[name].imports
    ensures LoadHtml(fs, s, name).ok && Primed(fs, LoadHtml(fs, s, name).state.table)
  {
    FinishReturns(fs, LoadAll(fs, s, name, fs[name].imports).state, name);
  }

  lemma {:induction false} LoadAllReturns(fs: Files, s: State, m: Name, ds: seq<Name>, done: seq<Name>)
    requires Registered(fs, s.table) && m in s.table && Resolvable(fs) && BaseFirst(fs) && Primed(fs, s.table)
    requires m in fs && s.table[m].dependentModules == done && done + ds == fs[m].imports && !fs[m].isJs
    ensures var r := LoadAll(fs, s, m, ds);
            r.ok && Primed(fs, r.state.table) && m in r.state.table &&
                r.state.table[m].dependentModules == fs[m].imports
    decreases |fs.Keys - s.table.Keys|, 1 + |ds|
  {
    if ds == [] {
      assert done == fs[m].imports;
    } else {
      OneFurther(done, ds);
      assert ResolvableAt(fs, fs[m]);
      LoadReturns(fs, s, ds[0]);
      LoadShape(fs, s, ds[0]);
      var l := Load(fs, s, ds[0]).state;
      LoopGoesOn(fs, s.table, l, m, ds[0]);
      AppendPrimes(fs, l, m, ds[0], done, ds);
      LoadAllReturns(fs, Appended(l, m, ds[0]), m, ds[1..], done + [ds[0]]);
    }
  }

  lemma AppendPrimes(fs: Files, l: State, m: Name, d: Name, done: seq<Name>, ds: seq<Name>)
    requires m in l.table && m in fs && BaseFirst(fs) && Primed(fs, l.table) && l.table[m].dependentModules == done
    requires ds != [] && ds[0] == d && done + ds == fs[m].imports
    ensures Primed(fs, Appended(l, m, d).table)
  {
    assert (done + [d])[0] == fs[m].imports[0];
  }

  // ----- the check for the base module, on every graph

  /** An exporting module imports the base module, directly or through others. */
  ghost predicate Fine(fs: Files, n: Name) {
    Exports(fs, n) ==> Imports(GraphOf(fs), n, "tracing.base.base")
  }

  ghost predicate SoundTable(fs: Files, t: Table) {
    Follows(GraphOf(fs), t) && Sound(GraphOf(fs), t)
  }

  /** Caches are sound, and what was loaded with success is fine. */
  ghost predicate LoadedSoundly(fs: Files, t: Table, r: Outcome) {
    SoundTable(fs, r.state.table) && (r.ok ==> forall n :: n in r.state.table && n !in t ==> Fine(fs, n))
  }

  /** Whatever the graph, a return means that each module loaded does import the base
      module if it exports. */
  lemma {:induction false} LoadIsSound(fs: Files, s: State, name: Name)
    requires Registered(fs, s.table) && SoundTable(fs, s.table)
    ensures LoadedSoundly(fs, s.table, Load(fs, s, name))
    decreases |fs.Keys - s.table.Keys|, 0
  {
    if name !in s.table && name in fs {
      LoadEnters(fs, s, name);
      EnterIsSound(fs, s, name);
      if !fs[name].isJs {
        LoadAllIsSound(fs, Enter(s, name), name, fs[name].imports);
        var l := LoadAll(fs, Enter(s, name), name, fs[name].imports);
        if l.ok {
          FinishIsSound(fs, s.table, l.state, name);
        }
      }
    }
  }

  lemma EnterIsSound(fs: Files, s: State, name: Name)
    requires SoundTable(fs, s.table) && name !in s.table
    ensures SoundTable(fs, Enter(s, name).table)
  {
    var g, t := GraphOf(fs), Enter(s, name).table;
    forall n | n in t ensures FollowsAt(g, n, t[n]) && SoundAt(g, n, t[n].cache) {
      if n in s.table {
        assert t[n] == s.table[n];
        assert FollowsAt(g, n, s.table[n]) && SoundAt(g, n, s.table[n].cache);
      }
    }
  }

  /** The end of Load, after the imports of `name` have been loaded into `l`. */
  lemma FinishIsSound(fs: Files, t: Table, l: State, name: Name)
    requires name in fs && Registered(fs, l.table) && name in l.table
    requires LoadedSoundly(fs, Register(t, name), Outcome(l, true))
    ensures LoadedSoundly(fs, t, Finish(fs, l, name))
  {
    ClosureIsSound(GraphOf(fs), l.table, name);
    if !fs[name].isJs {
      FinishChecks(fs, l, name);
    }
    var r := Closure(l.table, name);
    assert SoundAt(GraphOf(fs), name, r[name].cache);
  }

  lemma {:induction false} LoadAllIsSound(fs: Files, s: State, m: Name, ds: seq<Name>)
    requires Registered(fs, s.table) && SoundTable(fs, s.table) && m in s.table
    requires forall d :: d in ds ==> d in GraphOf(fs)[m]
    ensures LoadedSoundly(fs, s.table, LoadAll(fs, s, m, ds))
    decreases |fs.Keys - s.table.Keys|, 1 + |ds|
  {
    if ds != [] {
      var l := Load(fs, s, ds[0]);
      LoadIsSound(fs, s, ds[0]);
      if l.ok {
        LoopGoesOn(fs, s.table, l.state, m, ds[0]);
        AppendIsSound(fs, l.state, m, ds[0]);
        var s2 := Appended(l.state, m, ds[0]);
        LoadAllIsSound(fs, s2, m, ds[1..]);
        assert s2.table.Keys == l.state.table.Keys;
      }
    }
  }

  lemma AppendIsSound(fs: Files, s: State, m: Name, d: Name)
    requires SoundTable(fs, s.table) && m in s.table && m in fs && d in fs && d in GraphOf(fs)[m]
    ensures SoundTable(fs, Appended(s, m, d).table)
  {
    var g, t := GraphOf(fs), Appended(s, m, d).table;
    forall n | n in t ensures FollowsAt(g, n, t[n]) && SoundAt(g, n, t[n].cache) {
      assert FollowsAt(g, n, s.table[n]) && SoundAt(g, n, s.table[n].cache);
    }
  }
}
