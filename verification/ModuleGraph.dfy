/** Modules and their imports as a directed graph, with reachability along imports. */
module ModuleGraph {
  import opened Basics

  type Name = string

  /** Each module with its dependent_modules, in order. */
  type Graph = map<Name, seq<Name>>

  /** Every dependency is a module of the graph. */
  ghost predicate Closed(g: Graph) {
    forall m, d :: m in g && d in g[m] ==> d in g
  }

  /** A chain of imports. */
  ghost predicate Walk(g: Graph, p: seq<Name>) {
    && p != []
    && (forall i :: 0 <= i < |p| ==> p[i] in g)
    && forall i :: 0 < i < |p| ==> p[i] in g[p[i - 1]]
  }

  ghost predicate WalkFromTo(g: Graph, p: seq<Name>, a: Name, b: Name) {
    Walk(g, p) && p[0] == a && p[|p| - 1] == b
  }

  /** `b` is `a` or can be reached from it by imports. */
  ghost predicate Reaches(g: Graph, a: Name, b: Name) {
    exists p :: WalkFromTo(g, p, a, b)
  }

  /** `n` is one of `starts` or can be reached from one of them. */
  ghost predicate ReachedFrom(g: Graph, starts: seq<Name>, n: Name) {
    exists d :: d in starts && Reaches(g, d, n)
  }

  /** `b` can be reached from `a` by one or more imports. */
  ghost predicate Imports(g: Graph, a: Name, b: Name) {
    a in g && exists d :: d in g[a] && Reaches(g, d, b)
  }

  lemma ReachesRefl(g: Graph, a: Name)
    requires a in g
    ensures Reaches(g, a, a)
  {
    assert WalkFromTo(g, [a], a, a);
  }

  lemma ReachesStep(g: Graph, a: Name, d: Name, b: Name)
    requires a in g && d in g[a] && Reaches(g, d, b)
    ensures Reaches(g, a, b)
  {
    var p :| WalkFromTo(g, p, d, b);
    var q := [a] + p;
    forall i | 0 < i < |q| ensures q[i] in g[q[i - 1]] {
      assert q[i] == p[i - 1];
    }
    assert forall i :: 0 < i < |q| ==> q[i] == p[i - 1];
    assert WalkFromTo(g, q, a, b);
  }

  lemma ReachesFirst(g: Graph, a: Name, b: Name)
    requires Reaches(g, a, b)
    ensures a in g && b in g && (a == b || Imports(g, a, b))
  {
    var p :| WalkFromTo(g, p, a, b);
    if |p| > 1 {
      assert p[1] in g[p[0]];
      var q := p[1..];
      forall i | 0 < i < |q| ensures q[i] in g[q[i - 1]] {
        assert q[i] == p[i + 1] && q[i - 1] == p[i];
      }
      assert WalkFromTo(g, q, p[1], b);
    }
  }

  /** A set closed under imports contains all that its members reach. */
  lemma ClosedUnderReach(g: Graph, s: set<Name>, a: Name, b: Name)
    requires forall m, d :: m in s && m in g && d in g[m] ==> d in s
    requires a in s && Reaches(g, a, b)
    ensures b in s
  {
    var p :| WalkFromTo(g, p, a, b);
    var i := 0;
    while i + 1 < |p|
      invariant 0 <= i < |p| && p[i] in s
    {
      assert p[i + 1] in g[p[i]];
      i := i + 1;
    }
  }

  lemma ReachesTrans(g: Graph, a: Name, b: Name, c: Name)
    requires Reaches(g, a, b) && Reaches(g, b, c)
    ensures Reaches(g, a, c)
  {
    var p :| WalkFromTo(g, p, a, b);
    var q :| WalkFromTo(g, q, b, c);
    var r := p + q[1..];
    forall i | 0 < i < |r| ensures r[i] in g[r[i - 1]] {
      if i < |p| {
        assert p[i] in g[p[i - 1]];
      } else {
        var j := i - |p| + 1;
        assert r[i] == q[j] && r[i - 1] == q[j - 1];
      }
    }
    assert WalkFromTo(g, r, a, c);
  }

  lemma ReachesIff(g: Graph, a: Name, b: Name)
    requires Closed(g) && a in g
    ensures Reaches(g, a, b) <==> a == b || Imports(g, a, b)
  {
    if Reaches(g, a, b) {
      ReachesFirst(g, a, b);
    } else if a == b {
      ReachesRefl(g, a);
    } else if Imports(g, a, b) {
      var d :| d in g[a] && Reaches(g, d, b);
      ReachesStep(g, a, d, b);
    }
  }

  /** No module imports itself, directly or through others. */
  ghost predicate Acyclic(g: Graph) {
    forall m :: m in g ==> !Imports(g, m, m)
  }
}
