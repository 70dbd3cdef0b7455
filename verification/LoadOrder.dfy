/** ComputeLoadSequenceRecursive of py_vulcanize/module.py and its caller in project.py:
    a topological sort that takes a recursion of more than 32 levels for a cycle. */
module LoadOrder {
  import opened Basics
  import opened ModuleGraph

  const MAX_DEPTH := 32

  /** The load sequence after module `m` has been visited at the given depth of
      recursion. None is the "Include loop detected" exception. */
  function Load(g: Graph, m: Name, depth: nat, s: seq<Name>): Option<seq<Name>>
    requires Closed(g) && m in g && depth <= MAX_DEPTH + 1
    decreases MAX_DEPTH + 1 - depth, 0
  {
    if depth > MAX_DEPTH then None
    else
      match LoadAll(g, g[m], depth + 1, s)
      case None => None
      case Some(t) => Some(if m in t then t else t + [m])
  }

  /** The loop over the dependencies `ds`. */
  function LoadAll(g: Graph, ds: seq<Name>, depth: nat, s: seq<Name>): Option<seq<Name>>
    requires Closed(g) && (forall d :: d in ds ==> d in g) && depth <= MAX_DEPTH + 1
    decreases MAX_DEPTH + 1 - depth, 1 + |ds|
  {
    if ds == [] then Some(s)
    else if ds[0] in s then LoadAll(g, ds[1..], depth, s)
    else
      match Load(g, ds[0], depth, s)
      case None => None
      case Some(t) => LoadAll(g, ds[1..], depth, t)
  }

  /** Several roots share one sequence. */
  function LoadRoots(g: Graph, roots: seq<Name>, s: seq<Name>): Option<seq<Name>>
    requires Closed(g) && forall m :: m in roots ==> m in g
    decreases |roots|
  {
    if roots == [] then Some(s)
    else
      match Load(g, roots[0], 0, s)
      case None => None
      case Some(t) => LoadRoots(g, roots[1..], t)
  }

  // ----- the code

  /** The list and the set that the recursion fills. */
  class LoadState {
    var sequence: seq<Name>
    var loaded: set<Name>

    constructor ()
      ensures sequence == [] && loaded == {} && Agrees()
    {
      sequence, loaded := [], {};
    }

    /** The set holds the names on the list. */
    ghost predicate Agrees()
      reads this
    {
      forall n :: n in loaded <==> n in sequence
    }
  }

  method ComputeLoadSequenceRecursive(g: Graph, m: Name, state: LoadState, depth: nat) returns (ok: bool)
    requires Closed(g) && m in g && depth <= MAX_DEPTH + 1 && state.Agrees()
    modifies state
    ensures state.Agrees()
    ensures Load(g, m, depth, old(state.sequence)) == if ok then Some(state.sequence) else None
    decreases MAX_DEPTH + 1 - depth
  {
    if depth > MAX_DEPTH {
      return false;
    }
    var i := 0;
    while i < |g[m]|
      invariant 0 <= i <= |g[m]| && state.Agrees()
      invariant LoadAll(g, g[m][i..], depth + 1, state.sequence) == LoadAll(g, g[m], depth + 1, old(state.sequence))
    {
      var d := g[m][i];
      assert g[m][i..][0] == d && g[m][i..][1..] == g[m][i + 1..];
      if d !in state.loaded {
        ok := ComputeLoadSequenceRecursive(g, d, state, depth + 1);
        if !ok {
          return;
        }
      }
      i := i + 1;
    }
    if m !in state.loaded {
      state.loaded := state.loaded + {m};
      state.sequence := state.sequence + [m];
    }
    ok := true;
  }

  method CalcLoadSequenceForModules(g: Graph, roots: seq<Name>) returns (r: Option<seq<Name>>)
    requires Closed(g) && forall m :: m in roots ==> m in g
    ensures r == LoadRoots(g, roots, [])
    ensures r.Some? ==> Topological(g, r.value) && forall n :: n in r.value <==> ReachedFrom(g, roots, n)
    ensures r.None? ==> exists p :: TooDeep(g, roots, p)
  {
    var state := new LoadState();
    var i := 0;
    LoadRootsMeaning(g, roots, []);
    while i < |roots|
      invariant 0 <= i <= |roots| && state.Agrees()
      invariant LoadRoots(g, roots[i..], state.sequence) == LoadRoots(g, roots, [])
    {
      assert roots[i..][0] == roots[i] && roots[i..][1..] == roots[i + 1..];
      var ok := ComputeLoadSequenceRecursive(g, roots[i], state, 0);
      if !ok {
        return None;
      }
      i := i + 1;
    }
    return Some(state.sequence);
  }

  // ----- what the sequence is

  /** Every module comes once, and after all its dependencies. */
  ghost predicate Topological(g: Graph, s: seq<Name>) {
    && NoDuplicates(s)
    && (forall i :: 0 <= i < |s| ==> s[i] in g)
    && forall i, d :: 0 <= i < |s| && d in g[s[i]] ==> d in s[..i]
  }

  /** A chain of `edges` imports that starts at `m`. */
  ghost predicate DeepWalk(g: Graph, p: seq<Name>, m: Name, edges: nat) {
    Walk(g, p) && p[0] == m && |p| == edges + 1
  }

  /** A chain of 33 imports that starts at a root. */
  ghost predicate TooDeep(g: Graph, roots: seq<Name>, p: seq<Name>) {
    Walk(g, p) && p[0] in roots && |p| == 34
  }

  lemma TopologicalSnoc(g: Graph, s: seq<Name>, m: Name)
    requires Topological(g, s) && m in g && m !in s && forall d :: d in g[m] ==> d in s
    ensures Topological(g, s + [m])
  {
    var t := s + [m];
    forall i, d | 0 <= i < |t| && d in g[t[i]] ensures d in t[..i] {
      assert t[..i] == s[..i];
      if i == |s| {
        assert s[..i] == s;
      }
    }
  }

  /** A topological sequence is closed under reachability. */
  lemma TopologicalReach(g: Graph, s: seq<Name>, a: Name, b: Name)
    requires Topological(g, s) && a in s && Reaches(g, a, b)
    ensures b in s
  {
    forall m, d | m in s && m in g && d in g[m] ensures d in s {
      var i :| 0 <= i < |s| && s[i] == m;
      assert d in s[..i];
    }
    ClosedUnderReach(g, (set n | n in s), a, b);
  }

  /** A visit keeps the sequence topological and adds exactly what the module reaches. */
  lemma {:induction false} LoadMeaning(g: Graph, m: Name, depth: nat, s: seq<Name>)
    requires Closed(g) && m in g && depth <= MAX_DEPTH + 1 && Topological(g, s)
    ensures var r := Load(g, m, depth, s);
            r.Some? ==> Topological(g, r.value) && s <= r.value &&
                        forall n :: n in r.value <==> n in s || Reaches(g, m, n)
    decreases MAX_DEPTH + 1 - depth, 0
  {
    if depth <= MAX_DEPTH {
      LoadAllMeaning(g, g[m], depth + 1, s);
      var r := LoadAll(g, g[m], depth + 1, s);
      if r.Some? {
        var t := r.value;
        forall n ensures (n in t || n == m) <==> n in s || Reaches(g, m, n) {
          ReachesIff(g, m, n);
          assert ReachedFrom(g, g[m], n) <==> Imports(g, m, n);
        }
        forall d | d in g[m] ensures d in t {
          ReachesRefl(g, d);
          assert ReachedFrom(g, g[m], d);
        }
        if m !in t {
          TopologicalSnoc(g, t, m);
        }
      }
    }
  }

  lemma {:induction false} LoadAllMeaning(g: Graph, ds: seq<Name>, depth: nat, s: seq<Name>)
    requires Closed(g) && (forall d :: d in ds ==> d in g) && depth <= MAX_DEPTH + 1 && Topological(g, s)
    ensures var r := LoadAll(g, ds, depth, s);
            r.Some? ==> Topological(g, r.value) && s <= r.value &&
                        forall n :: n in r.value <==> n in s || ReachedFrom(g, ds, n)
    decreases MAX_DEPTH + 1 - depth, 1 + |ds|
  {
    if ds != [] {
      var d, rest := ds[0], ds[1..];
      forall n ensures ReachedFrom(g, ds, n) <==> Reaches(g, d, n) || ReachedFrom(g, rest, n) {
        assert forall x :: x in ds <==> x == d || x in rest;
      }
      if d in s {
        LoadAllMeaning(g, rest, depth, s);
        forall n | Reaches(g, d, n) ensures n in s {
          TopologicalReach(g, s, d, n);
        }
      } else {
        LoadMeaning(g, d, depth, s);
        var r := Load(g, d, depth, s);
        if r.Some? {
          LoadAllMeaning(g, rest, depth, r.value);
        }
      }
    }
  }

  /** A visit that raises has followed a chain of imports down to the limit. */
  lemma {:induction false} LoadFailure(g: Graph, m: Name, depth: nat, s: seq<Name>) returns (p: seq<Name>)
    requires Closed(g) && m in g && depth <= MAX_DEPTH + 1 && Load(g, m, depth, s).None?
    ensures DeepWalk(g, p, m, MAX_DEPTH + 1 - depth)
    decreases MAX_DEPTH + 1 - depth, 0
  {
    if depth > MAX_DEPTH {
      p := [m];
    } else {
      var q := LoadAllFailure(g, g[m], depth + 1, s);
      p := [m] + q;
      forall i | 0 < i < |p| ensures p[i] in g[p[i - 1]] {
        assert p[i] == q[i - 1];
      }
      assert forall i :: 0 < i < |p| ==> p[i] == q[i - 1];
    }
  }

  lemma {:induction false} LoadAllFailure(g: Graph, ds: seq<Name>, depth: nat, s: seq<Name>) returns (p: seq<Name>)
    requires Closed(g) && (forall d :: d in ds ==> d in g) && depth <= MAX_DEPTH + 1 && LoadAll(g, ds, depth, s).None?
    ensures p != [] && p[0] in ds && DeepWalk(g, p, p[0], MAX_DEPTH + 1 - depth)
    decreases MAX_DEPTH + 1 - depth, 1 + |ds|
  {
    if ds[0] in s {
      p := LoadAllFailure(g, ds[1..], depth, s);
    } else if Load(g, ds[0], depth, s).None? {
      p := LoadFailure(g, ds[0], depth, s);
    } else {
      p := LoadAllFailure(g, ds[1..], depth, Load(g, ds[0], depth, s).value);
    }
  }

  /** Loading from several roots: exactly the reachable modules, each once and after its
      dependencies; and a failure only where some chain has 33 imports. */
  lemma {:induction false} LoadRootsMeaning(g: Graph, roots: seq<Name>, s: seq<Name>)
    requires Closed(g) && (forall m :: m in roots ==> m in g) && Topological(g, s)
    ensures var r := LoadRoots(g, roots, s);
            && (r.Some? ==> Topological(g, r.value) && forall n :: n in r.value <==> n in s || ReachedFrom(g, roots, n))
            && (r.None? ==> exists p :: TooDeep(g, roots, p))
    decreases |roots|
  {
    if roots != [] {
      var m, rest := roots[0], roots[1..];
      forall n ensures ReachedFrom(g, roots, n) <==> Reaches(g, m, n) || ReachedFrom(g, rest, n) {
        assert forall x :: x in roots <==> x == m || x in rest;
      }
      LoadMeaning(g, m, 0, s);
      var r := Load(g, m, 0, s);
      if r.None? {
        var p := LoadFailure(g, m, 0, s);
        assert TooDeep(g, roots, p);
      } else {
        LoadRootsMeaning(g, rest, r.value);
        if LoadRoots(g, rest, r.value).None? {
          var p :| TooDeep(g, rest, p);
          assert TooDeep(g, roots, p);
        }
      }
    }
  }

  /** The loaded modules of the first `n` places are those of `before` and those reached from `ds`. */
  ghost predicate HoldsUpTo(g: Graph, r: seq<Name>, n: nat, before: seq<Name>, ds: seq<Name>) {
    n <= |r| && forall x :: x in r[..n] <==> x in before || ReachedFrom(g, ds, x)
  }

  /** Imports are loaded in list order: what the first `i` of them reach, and nothing else
      that is new, stands before the rest. */
  lemma {:induction false} ImportsInListOrder(g: Graph, ds: seq<Name>, i: nat, depth: nat, s: seq<Name>)
      returns (n: nat)
    requires Closed(g) && (forall d :: d in ds ==> d in g) && depth <= MAX_DEPTH + 1 && Topological(g, s)
    requires i <= |ds| && LoadAll(g, ds, depth, s).Some?
    ensures HoldsUpTo(g, LoadAll(g, ds, depth, s).value, n, s, ds[..i])
    decreases i
  {
    var r := LoadAll(g, ds, depth, s).value;
    LoadAllMeaning(g, ds, depth, s);
    if i == 0 {
      n := |s|;
      assert r[..n] == s && forall x :: !ReachedFrom(g, [], x);
    } else {
      var d, rest := ds[0], ds[1..];
      var t := if d in s then s else Load(g, d, depth, s).value;
      if d in s {
        forall x | Reaches(g, d, x) ensures x in s {
          TopologicalReach(g, s, d, x);
        }
      } else {
        LoadMeaning(g, d, depth, s);
      }
      n := ImportsInListOrder(g, rest, i - 1, depth, t);
      FirstThenRest(g, ds, i, s, t);
    }
  }

  lemma FirstThenRest(g: Graph, ds: seq<Name>, i: nat, s: seq<Name>, t: seq<Name>)
    requires 0 < i <= |ds| && forall x :: x in t <==> x in s || Reaches(g, ds[0], x)
    ensures forall x :: x in t || ReachedFrom(g, ds[1..][..i - 1], x) <==> x in s || ReachedFrom(g, ds[..i], x)
  {
    assert ds[..i] == [ds[0]] + ds[1..][..i - 1];
    forall x ensures ReachedFrom(g, ds[..i], x) <==> Reaches(g, ds[0], x) || ReachedFrom(g, ds[1..][..i - 1], x) {
      assert forall d :: d in ds[..i] <==> d == ds[0] || d in ds[1..][..i - 1];
    }
  }

  /** The same for the roots. */
  lemma {:induction false} RootsInListOrder(g: Graph, roots: seq<Name>, i: nat, s: seq<Name>) returns (n: nat)
    requires Closed(g) && (forall m :: m in roots ==> m in g) && Topological(g, s)
    requires i <= |roots| && LoadRoots(g, roots, s).Some?
    ensures HoldsUpTo(g, LoadRoots(g, roots, s).value, n, s, roots[..i])
    decreases i
  {
    var r := LoadRoots(g, roots, s).value;
    RootsExtend(g, roots, s);
    if i == 0 {
      n := |s|;
      assert r[..n] == s && forall x :: !ReachedFrom(g, [], x);
    } else {
      var t := Load(g, roots[0], 0, s).value;
      LoadMeaning(g, roots[0], 0, s);
      n := RootsInListOrder(g, roots[1..], i - 1, t);
      FirstThenRest(g, roots, i, s, t);
    }
  }

  lemma {:induction false} RootsExtend(g: Graph, roots: seq<Name>, s: seq<Name>)
    requires Closed(g) && (forall m :: m in roots ==> m in g) && Topological(g, s) && LoadRoots(g, roots, s).Some?
    ensures s <= LoadRoots(g, roots, s).value
    decreases |roots|
  {
    if roots != [] {
      LoadMeaning(g, roots[0], 0, s);
      RootsExtend(g, roots[1..], Load(g, roots[0], 0, s).value);
    }
  }

  /** In a topological sequence imports lead strictly backwards. */
  lemma ImportsGoBack(g: Graph, s: seq<Name>, i: nat, b: Name)
    requires Topological(g, s) && i < |s| && Imports(g, s[i], b)
    ensures b in s[..i]
  {
    var d :| d in g[s[i]] && Reaches(g, d, b);
    forall m, e | m in s[..i] && m in g && e in g[m] ensures e in s[..i] {
      var j :| 0 <= j < i && s[j] == m;
      assert e in s[..j];
      assert s[..j] <= s[..i];
    }
    ClosedUnderReach(g, (set n | n in s[..i]), d, b);
  }

  /** A cycle that can be reached from the roots is always detected. */
  lemma CycleAlwaysRaises(g: Graph, roots: seq<Name>, n: Name)
    requires Closed(g) && forall m :: m in roots ==> m in g
    requires ReachedFrom(g, roots, n) && Imports(g, n, n)
    ensures LoadRoots(g, roots, []).None?
  {
    LoadRootsMeaning(g, roots, []);
    var r := LoadRoots(g, roots, []);
    if r.Some? {
      var s := r.value;
      var i :| 0 <= i < |s| && s[i] == n;
      ImportsGoBack(g, s, i, n);
      assert false;
    }
  }

  /** Chains of at most 32 imports never raise. */
  lemma ShortChainsNeverRaise(g: Graph, roots: seq<Name>)
    requires Closed(g) && forall m :: m in roots ==> m in g
    requires forall p :: Walk(g, p) && p[0] in roots ==> |p| <= 33
    ensures LoadRoots(g, roots, []).Some?
  {
    LoadRootsMeaning(g, roots, []);
  }

  // ----- depth alone is no proof of a cycle

  function ChainName(i: nat): (n: Name)
    ensures |n| == i
  {
    seq(i, _ => 'x')
  }

  /** A chain of 33 imports without any cycle. */
  function Chain(): Graph {
    map n | n in set i | 0 <= i <= MAX_DEPTH + 1 :: ChainName(i)
      :: if |n| <= MAX_DEPTH then [ChainName(|n| + 1)] else []
  }

  lemma {:induction false} ChainFails(i: nat)
    requires i <= MAX_DEPTH + 1 && Closed(Chain())
    ensures ChainName(i) in Chain() && Load(Chain(), ChainName(i), i, []).None?
    decreases MAX_DEPTH + 1 - i
  {
    if i <= MAX_DEPTH {
      ChainFails(i + 1);
      assert Chain()[ChainName(i)] == [ChainName(i + 1)];
    }
  }

  /** The exception is raised for some graphs without a cycle. */
  lemma FalseAlarm()
    ensures Closed(Chain()) && ChainName(0) in Chain() && Acyclic(Chain())
    ensures LoadRoots(Chain(), [ChainName(0)], []).None?
  {
    var g := Chain();
    forall m, d | m in g && d in g[m] ensures d in g && |d| > |m| {
      assert d == ChainName(|m| + 1);
    }
    ChainFails(0);
    forall m | m in g ensures !Imports(g, m, m) {
      if Imports(g, m, m) {
        var d :| d in g[m] && Reaches(g, d, m);
        ClosedUnderReach(g, (set n | n in g && |n| > |m|), d, m);
      }
    }
  }

  /** Names along a walk in the chain get longer, one step at a time. */
  lemma {:induction false} ChainWalk(p: seq<Name>, k: nat)
    requires Walk(Chain(), p) && k < |p|
    ensures |p[k]| == |p[0]| + k <= MAX_DEPTH + 1
  {
    if k > 0 {
      ChainWalk(p, k - 1);
      assert p[k] in Chain()[p[k - 1]];
    }
  }

  /** Nor is depth the whole condition: with the second module of the chain as an earlier
      root, the same chain of 33 imports loads. */
  lemma RootOrderMatters()
    ensures Closed(Chain()) && ChainName(0) in Chain() && ChainName(1) in Chain()
    ensures LoadRoots(Chain(), [ChainName(1), ChainName(0)], []).Some?
  {
    var g, first, second := Chain(), ChainName(0), ChainName(1);
    FalseAlarm();
    if Load(g, second, 0, []).None? {
      var p := LoadFailure(g, second, 0, []);
      ChainWalk(p, MAX_DEPTH + 1);
      assert false;
    }
    LoadMeaning(g, second, 0, []);
    var s := Load(g, second, 0, []).value;
    ReachesRefl(g, second);
    assert g[first] == [second];
    assert [second][1..] == [];
    assert LoadAll(g, [second], 1, s) == Some(s);
    assert [second, first][0] == second && [second, first][1..] == [first] && [first][1..] == [];
  }
}
