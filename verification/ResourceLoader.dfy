/** Loading modules with everything they import: LoadModule of
    py_vulcanize/resource_loader.py with Load of module.py and html_module.py. */
module ResourceLoader {
  import opened Basics
  import opened ModuleGraph
  import opened ClosureCache

  /** What FindModuleResource finds for a name, with the parsed imports of the file. */
  datatype Resource = Resource(isJs: bool, contents: string, imports: seq<Name>)

  type Files = map<Name, Resource>

  /** loaded_modules, with the number of Module objects made so far. */
  datatype State = State(table: Table, created: nat)

  /** The state an operation ends in, and whether it returned instead of raising. */
  datatype Outcome = Outcome(state: State, ok: bool)

  const BASE: Name := "tracing.base.base"

  predicate Mentions(s: string, w: string) {
    |w| <= |s| && (s[..|w|] == w || (s != "" && Mentions(s[1..], w)))
  }

  /** `w` stands in `s` at position `k`. */
  ghost predicate StandsAt(s: string, w: string, k: nat) {
    k + |w| <= |s| && s[k..k + |w|] == w
  }

  ghost predicate Occurs(s: string, w: string) {
    exists k: nat :: StandsAt(s, w, k)
  }

  /** The text test finds every occurrence and nothing else. */
  lemma {:induction false} MentionsIff(s: string, w: string)
    ensures Mentions(s, w) <==> Occurs(s, w)
  {
    assert StandsAt(s, w, 0) <==> |w| <= |s| && s[..|w|] == w;
    if s != "" {
      MentionsIff(s[1..], w);
      OccursLater(s, w);
    }
  }

  lemma OccursLater(s: string, w: string)
    requires s != ""
    ensures Occurs(s, w) <==> StandsAt(s, w, 0) || Occurs(s[1..], w)
  {
    forall k: nat ensures StandsAt(s[1..], w, k) <==> StandsAt(s, w, k + 1) {
      if k + 1 + |w| <= |s| {
        assert s[1..][k..k + |w|] == s[k + 1..k + 1 + |w|];
      }
    }
    if Occurs(s, w) && !StandsAt(s, w, 0) {
      var k: nat :| StandsAt(s, w, k);
      assert StandsAt(s[1..], w, k - 1);
    } else if Occurs(s[1..], w) {
      var k: nat :| StandsAt(s[1..], w, k);
      assert StandsAt(s, w, k + 1);
    }
  }

  /** The check at the end of Load, given the names found reachable. */
  predicate BaseCheck(f: Resource, reachable: set<Name>) {
    Mentions(f.contents, "tr.exportTo") ==> BASE in reachable
  }

  function ImportsOf(f: Resource): seq<Name> {
    if f.isJs then [] else f.imports
  }

  ghost function GraphOf(fs: Files): Graph {
    map n | n in fs :: ImportsOf(fs[n])
  }

  ghost predicate Registered(fs: Files, t: Table) {
    Linked(t) && t.Keys <= fs.Keys
  }

  function Register(t: Table, name: Name): Table {
    t[name := Module([], {})]
  }

  /** `self.dependent_modules.append(module)` in module `m`. */
  function Append(t: Table, m: Name, d: Name): Table
    requires m in t
  {
    t[m := t[m].(dependentModules := t[m].dependentModules + [d])]
  }

  function Appended(s: State, m: Name, d: Name): State
    requires m in s.table
  {
    State(Append(s.table, m, d), s.created)
  }

  lemma RegisterKeeps(fs: Files, t: Table, name: Name)
    requires Registered(fs, t) && name in fs && name !in t
    ensures Registered(fs, Register(t, name)) && |fs.Keys - Register(t, name).Keys| < |fs.Keys - t.Keys|
  {
    var u := Register(t, name);
    assert u.Keys == t.Keys + {name};
    forall n | n in u ensures DependsIn(u[n], u.Keys) {
      assert n in t ==> DependsIn(t[n], t.Keys);
    }
    SmallerWithout(fs.Keys - u.Keys, fs.Keys - t.Keys, name);
  }

  lemma SmallerWithout(a: set<Name>, b: set<Name>, n: Name)
    requires a <= b && n in b && n !in a
    ensures |a| < |b|
  {
    SubsetSize(a, b - {n});
  }

  lemma AppendKeeps(fs: Files, t: Table, m: Name, d: Name)
    requires Registered(fs, t) && m in t && d in t
    ensures Registered(fs, Append(t, m, d)) && Append(t, m, d).Keys == t.Keys
  {
    var u := Append(t, m, d);
    assert u.Keys == t.Keys;
    forall n | n in u ensures DependsIn(u[n], u.Keys) {
      assert DependsIn(t[n], t.Keys);
    }
  }

  lemma MeasureShrinks(fs: Files, t: Table, r: Table)
    requires t.Keys <= r.Keys
    ensures |fs.Keys - r.Keys| <= |fs.Keys - t.Keys|
  {
    SubsetSize(fs.Keys - r.Keys, fs.Keys - t.Keys);
  }

  /** A new Module object under `name`. */
  function Enter(s: State, name: Name): State {
    State(Register(s.table, name), s.created + 1)
  }

  /** LoadModule by name. A name is registered before its imports are loaded, so each
      file is entered once and the recursion ends on every import graph. */
  ghost function Load(fs: Files, s: State, name: Name): (r: Outcome)
    requires Registered(fs, s.table)
    ensures Registered(fs, r.state.table) && s.table.Keys <= r.state.table.Keys
    ensures r.ok ==> name in r.state.table
    decreases |fs.Keys - s.table.Keys|, 0
  {
    if name in s.table then Outcome(s, fs[name].contents != "")
    else if name !in fs then Outcome(s, false)
    else
      RegisterKeeps(fs, s.table, name);
      if fs[name].isJs then Outcome(Enter(s, name), true) else LoadHtml(fs, Enter(s, name), name)
  }

  /** Load of a registered module that is not a script. */
  ghost function LoadHtml(fs: Files, s: State, name: Name): (r: Outcome)
    requires Registered(fs, s.table) && name in s.table
    ensures Registered(fs, r.state.table) && s.table.Keys <= r.state.table.Keys
    decreases |fs.Keys - s.table.Keys|, 2 + |fs[name].imports|
  {
    var l := LoadAll(fs, s, name, fs[name].imports);
    if l.ok then Finish(fs, l.state, name) else l
  }

  /** The end of Load: the closure of `name` is evaluated and checked. */
  ghost function Finish(fs: Files, s: State, name: Name): (r: Outcome)
    requires Registered(fs, s.table) && name in s.table
    ensures Registered(fs, r.state.table) && r.state.table.Keys == s.table.Keys
  {
    var t := Closure(s.table, name);
    FillsLinked(s.table, t, {});
    Outcome(State(t, s.created), BaseCheck(fs[name], t[name].cache))
  }

  /** The loop over the imports `ds` of `m`. */
  ghost function LoadAll(fs: Files, s: State, m: Name, ds: seq<Name>): (r: Outcome)
    requires Registered(fs, s.table) && m in s.table
    ensures Registered(fs, r.state.table) && s.table.Keys <= r.state.table.Keys
    decreases |fs.Keys - s.table.Keys|, 1 + |ds|
  {
    if ds == [] then Outcome(s, true)
    else
      var l := Load(fs, s, ds[0]);
      if !l.ok then l
      else
        AppendKeeps(fs, l.state.table, m, ds[0]);
        MeasureShrinks(fs, s.table, l.state.table);
        LoadAll(fs, Appended(l.state, m, ds[0]), m, ds[1..])
  }

  lemma LoadEnters(fs: Files, s: State, name: Name)
    requires Registered(fs, s.table) && name in fs && name !in s.table
    ensures Registered(fs, Enter(s, name).table)
    ensures |fs.Keys - Enter(s, name).table.Keys| < |fs.Keys - s.table.Keys|
    ensures fs[name].isJs ==> Load(fs, s, name) == Outcome(Enter(s, name), true)
    ensures !fs[name].isJs ==> Load(fs, s, name) == LoadHtml(fs, Enter(s, name), name)
  {
    RegisterKeeps(fs, s.table, name);
  }

  lemma LoadAllSteps(fs: Files, s: State, m: Name, ds: seq<Name>, i: nat)
    requires Registered(fs, s.table) && m in s.table && i < |ds|
    ensures var l := Load(fs, s, ds[i]);
            if l.ok then
              && m in l.state.table
              && var s2 := Appended(l.state, m, ds[i]);
              && Registered(fs, s2.table)
              && s.table.Keys <= s2.table.Keys
              && LoadAll(fs, s, m, ds[i..]) == LoadAll(fs, s2, m, ds[i + 1..])
            else
              LoadAll(fs, s, m, ds[i..]) == l
  {
    assert ds[i..][0] == ds[i] && ds[i..][1..] == ds[i + 1..];
    var l := Load(fs, s, ds[i]);
    if l.ok {
      AppendKeeps(fs, l.state.table, m, ds[i]);
    }
  }

  // ----- the code

  class Loader {
    const files: Files
    const modules: LoadedModules
    var created: nat

    constructor (fs: Files)
      ensures files == fs && fresh(modules) && Now() == State(map[], 0)
    {
      files := fs;
      created := 0;
      modules := new LoadedModules(map[]);
    }

    ghost function Now(): State
      reads this, modules
    {
      State(modules.table, created)
    }

    method LoadModule(name: Name) returns (ok: bool)
      requires Registered(files, modules.table)
      modifies this, modules
      ensures Outcome(Now(), ok) == Load(files, old(Now()), name)
      decreases |files.Keys - modules.table.Keys|, 0
    {
      if name in modules.table {
        return files[name].contents != "";
      }
      if name !in files {
        return false;
      }
      ghost var was := Now();
      LoadEnters(files, was, name);
      modules.table := Register(modules.table, name);
      created := created + 1;
      assert Now() == Enter(was, name);
      if files[name].isJs {
        return true;
      }
      ok := LoadHtmlModule(name);
    }

    method LoadHtmlModule(name: Name) returns (ok: bool)
      requires Registered(files, modules.table) && name in modules.table
      modifies this, modules
      ensures Outcome(Now(), ok) == LoadHtml(files, old(Now()), name)
      decreases |files.Keys - modules.table.Keys|, 2
    {
      ok := LoadImports(name);
      if ok {
        FillsLinked(modules.table, Closure(modules.table, name), {});
        var reachable := modules.AllDependentModulesRecursive(name);
        ok := BaseCheck(files[name], reachable);
      }
    }

    method LoadImports(m: Name) returns (ok: bool)
      requires Registered(files, modules.table) && m in modules.table
      modifies this, modules
      ensures Outcome(Now(), ok) == LoadAll(files, old(Now()), m, files[m].imports)
      decreases |files.Keys - modules.table.Keys|, 1
    {
      var ds := files[m].imports;
      ghost var start := Now();
      var i := 0;
      while i < |ds|
        invariant 0 <= i <= |ds|
        invariant Registered(files, modules.table) && start.table.Keys <= modules.table.Keys
        invariant LoadAll(files, Now(), m, ds[i..]) == LoadAll(files, start, m, ds)
      {
        ghost var was := Now();
        MeasureShrinks(files, start.table, was.table);
        LoadAllSteps(files, was, m, ds, i);
        ok := LoadModule(ds[i]);
        if !ok {
          return;
        }
        modules.table := Append(modules.table, m, ds[i]);
        assert Now() == Appended(Load(files, was, ds[i]).state, m, ds[i]);
        i := i + 1;
      }
      ok := true;
    }
  }
}
