/** When loading returns whatever the order of the roots and of each import list. */
module LoadAnyOrder {
  import opened Basics
  import opened ModuleGraph
  import opened LoadOrder

  /** The same imports, each list in some order. */
  ghost predicate Reordered(g: Graph, h: Graph) {
    h.Keys == g.Keys && forall m :: m in g ==> SameMembers(g[m], h[m])
  }

  ghost predicate SameMembers(s: seq<Name>, t: seq<Name>) {
    multiset(s) == multiset(t)
  }

  ghost predicate Loads(g: Graph, roots: seq<Name>) {
    Closed(g) && (forall m :: m in roots ==> m in g) && LoadRoots(g, roots, []).Some?
  }

  ghost predicate LoadsInAnyOrder(g: Graph, roots: seq<Name>) {
    forall h, rs {:trigger Loads(h, rs)} :: Reordered(g, h) && SameMembers(roots, rs) ==> Loads(h, rs)
  }

  /** Loading returns in every order of roots and imports if and only if no chain of imports
      from a root is longer than the limit. */
  lemma LoadsInAnyOrderIff(g: Graph, roots: seq<Name>)
    requires Closed(g) && forall m :: m in roots ==> m in g
    ensures LoadsInAnyOrder(g, roots) <==> !exists p :: TooDeep(g, roots, p)
  {
    if exists p :: TooDeep(g, roots, p) {
      var p :| TooDeep(g, roots, p);
      DeepChainRaises(g, roots, p);
    } else {
      forall h, rs | Reordered(g, h) && SameMembers(roots, rs) ensures Loads(h, rs) {
        ShallowLoads(g, roots, h, rs);
      }
    }
  }

  lemma SameElements(s: seq<Name>, t: seq<Name>, x: Name)
    requires SameMembers(s, t)
    ensures x in s <==> x in t
  {
    assert x in s <==> x in multiset(s);
    assert x in t <==> x in multiset(t);
  }

  lemma ReorderedKeeps(g: Graph, h: Graph)
    requires Reordered(g, h)
    ensures Closed(g) ==> Closed(h)
    ensures forall p :: Walk(h, p) ==> Walk(g, p)
  {
    forall m, d | m in g ensures d in g[m] <==> d in h[m] {
      assert SameMembers(g[m], h[m]);
      SameElements(g[m], h[m], d);
    }
  }

  lemma ShallowLoads(g: Graph, roots: seq<Name>, h: Graph, rs: seq<Name>)
    requires Closed(g) && (forall m :: m in roots ==> m in g) && Reordered(g, h) && SameMembers(roots, rs)
    requires !exists p :: TooDeep(g, roots, p)
    ensures Loads(h, rs)
  {
    ReorderedKeeps(g, h);
    forall m ensures m in roots <==> m in rs {
      SameElements(roots, rs, m);
    }
    LoadRootsMeaning(h, rs, []);
    if LoadRoots(h, rs, []).None? {
      var p :| TooDeep(h, rs, p);
      assert TooDeep(g, roots, p);
    }
  }

  // ----- a deep chain raises in some order

  lemma DeepChainRaises(g: Graph, roots: seq<Name>, p: seq<Name>)
    requires Closed(g) && (forall m :: m in roots ==> m in g) && TooDeep(g, roots, p)
    ensures !LoadsInAnyOrder(g, roots)
  {
    if NoDuplicates(p) {
      var n := |p| - 1;
      var h, rs := Fronted(g, p, n), ToFront(roots, p[0]);
      FrontedReorders(g, p, n);
      ReorderedKeeps(g, h);
      ToFrontKeeps(roots, p[0]);
      FirstRootFails(g, p, h, rs);
      assert !Loads(h, rs);
    } else {
      var i, j :| 0 <= i < j < |p| && p[i] == p[j];
      RepeatIsCycle(g, p, i, j);
      SubWalk(g, p, 0, i);
      assert ReachedFrom(g, roots, p[i]);
      CycleAlwaysRaises(g, roots, p[i]);
      assert Reordered(g, g) && !Loads(g, roots);
    }
  }

  lemma SubWalk(g: Graph, p: seq<Name>, i: nat, j: nat)
    requires Walk(g, p) && i <= j < |p|
    ensures Reaches(g, p[i], p[j])
  {
    var q := p[i..j + 1];
    forall k | 0 < k < |q| ensures q[k] in g[q[k - 1]] {
      assert q[k] == p[i + k] && q[k - 1] == p[i + k - 1];
    }
    assert WalkFromTo(g, q, p[i], p[j]);
  }

  lemma RepeatIsCycle(g: Graph, p: seq<Name>, i: nat, j: nat)
    requires Walk(g, p) && i < j < |p| && p[i] == p[j]
    ensures Imports(g, p[i], p[i])
  {
    SubWalk(g, p, i + 1, j);
    assert p[i + 1] in g[p[i]];
  }

  /** `x` moved to the front. */
  function ToFront(s: seq<Name>, x: Name): (r: seq<Name>)
    requires x in s
    ensures r != [] && r[0] == x
  {
    if s[0] == x then s else
      var r := ToFront(s[1..], x);
      [x] + ([s[0]] + r[1..])
  }

  lemma {:induction false} ToFrontKeeps(s: seq<Name>, x: Name)
    requires x in s
    ensures SameMembers(s, ToFront(s, x))
  {
    if s[0] != x {
      var r := ToFront(s[1..], x);
      ToFrontKeeps(s[1..], x);
      assert s == [s[0]] + s[1..] && r == [x] + r[1..];
    }
  }

  /** The first `n` steps of the chain `p` come first in their import lists. */
  function Fronted(g: Graph, p: seq<Name>, n: nat): Graph
    requires Walk(g, p) && n < |p|
  {
    if n == 0 then g else Fronted(g, p, n - 1)[p[n - 1] := ToFront(g[p[n - 1]], p[n])]
  }

  lemma {:induction false} FrontedReorders(g: Graph, p: seq<Name>, n: nat)
    requires Walk(g, p) && n < |p|
    ensures Reordered(g, Fronted(g, p, n))
  {
    if n > 0 {
      FrontedReorders(g, p, n - 1);
      ToFrontKeeps(g[p[n - 1]], p[n]);
      ReorderedOnce(g, Fronted(g, p, n - 1), p[n - 1], ToFront(g[p[n - 1]], p[n]));
    }
  }

  lemma ReorderedOnce(g: Graph, h: Graph, m: Name, list: seq<Name>)
    requires Reordered(g, h) && m in g && SameMembers(g[m], list)
    ensures Reordered(g, h[m := list])
  {
    assert h[m := list].Keys == h.Keys;
  }

  lemma {:induction false} FrontedAt(g: Graph, p: seq<Name>, n: nat, k: nat)
    requires Walk(g, p) && k < n < |p| && NoDuplicates(p)
    ensures p[k] in Fronted(g, p, n) && Fronted(g, p, n)[p[k]] != [] && Fronted(g, p, n)[p[k]][0] == p[k + 1]
  {
    if k < n - 1 {
      FrontedAt(g, p, n - 1, k);
    }
  }

  /** The first thing the recursion does is to walk down the chain. */
  lemma {:induction false} ChainRaises(g: Graph, p: seq<Name>, h: Graph, k: nat)
    requires Walk(g, p) && |p| == MAX_DEPTH + 2 && NoDuplicates(p) && k < |p|
    requires h == Fronted(g, p, MAX_DEPTH + 1) && Closed(h) && h.Keys == g.Keys
    ensures Load(h, p[k], k, []).None?
    decreases |p| - k
  {
    if k <= MAX_DEPTH {
      FrontedAt(g, p, MAX_DEPTH + 1, k);
      ChainRaises(g, p, h, k + 1);
      assert LoadAll(h, h[p[k]], k + 1, []).None?;
    }
  }

  lemma FirstRootFails(g: Graph, p: seq<Name>, h: Graph, rs: seq<Name>)
    requires Walk(g, p) && |p| == MAX_DEPTH + 2 && NoDuplicates(p)
    requires h == Fronted(g, p, MAX_DEPTH + 1) && Closed(h) && h.Keys == g.Keys
    requires rs != [] && rs[0] == p[0]
    ensures !Loads(h, rs)
  {
    ChainRaises(g, p, h, 0);
  }
}
