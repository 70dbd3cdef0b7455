/** GetAllDependentFilenamesRecursive of py_vulcanize/module.py: a depth-first walk
    that marks a module when it enters it, so cycles do no harm. */
module DependentFiles {
  import opened Basics
  import opened ModuleGraph

  ghost function Unvisited(g: Graph, v: seq<Name>): set<Name> {
    set n | n in g && n !in v
  }

  lemma UnvisitedShrinks(g: Graph, v: seq<Name>, w: seq<Name>, m: Name)
    requires m in g && m !in v && v + [m] <= w
    ensures |Unvisited(g, w)| < |Unvisited(g, v)|
  {
    assert w[|v|] == m && forall i :: 0 <= i < |v| ==> w[i] == v[i];
    var less := Unvisited(g, v) - {m};
    assert Unvisited(g, w) <= less;
    SubsetSize(Unvisited(g, w), less);
  }

  /** The modules visited, in order, after Get(m). */
  ghost function Visit(g: Graph, m: Name, v: seq<Name>): (r: seq<Name>)
    requires Closed(g) && m in g && m !in v
    ensures v + [m] <= r
    decreases |Unvisited(g, v)|, 0
  {
    UnvisitedShrinks(g, v, v + [m], m);
    VisitAll(g, g[m], v + [m])
  }

  /** The loop over the dependencies. */
  ghost function VisitAll(g: Graph, ds: seq<Name>, v: seq<Name>): (r: seq<Name>)
    requires Closed(g) && forall d :: d in ds ==> d in g
    ensures v <= r
    decreases |Unvisited(g, v)|, 1 + |ds|
  {
    if ds == [] then v
    else if ds[0] in v then VisitAll(g, ds[1..], v)
    else
      var w := Visit(g, ds[0], v);
      UnvisitedShrinks(g, v, w, ds[0]);
      VisitAll(g, ds[1..], w)
  }

  /** What a walk that goes from `v` to `r` guarantees: no repetition, every new module
      reached from one of `starts`, and every new module's dependencies visited too. */
  ghost predicate Explores(g: Graph, starts: seq<Name>, v: seq<Name>, r: seq<Name>) {
    && NoDuplicates(r) && v <= r
    && (forall d :: d in starts ==> d in r)
    && (forall n :: n in r && n !in v ==> ReachedFrom(g, starts, n))
    && (forall n, e :: n in r && n !in v && n in g && e in g[n] ==> e in r)
  }

  lemma {:induction false} VisitExplores(g: Graph, m: Name, v: seq<Name>)
    requires Closed(g) && m in g && m !in v && NoDuplicates(v)
    ensures Explores(g, [m], v, Visit(g, m, v))
    decreases |Unvisited(g, v)|, 0
  {
    UnvisitedShrinks(g, v, v + [m], m);
    VisitAllExplores(g, g[m], v + [m]);
    var r := Visit(g, m, v);
    PrefixMembers(v + [m], r);
    ReachesRefl(g, m);
    assert m in [m];
    forall n | n in r && n !in v ensures ReachedFrom(g, [m], n) {
      if n != m {
        assert ReachedFrom(g, g[m], n);
        var d :| d in g[m] && Reaches(g, d, n);
        ReachesStep(g, m, d, n);
      }
    }
  }

  lemma PrefixMembers(a: seq<Name>, b: seq<Name>)
    requires a <= b
    ensures forall n :: n in a ==> n in b
  {
    forall n | n in a ensures n in b {
      var i :| 0 <= i < |a| && a[i] == n;
      assert b[i] == n;
    }
  }

  lemma ExploresThen(g: Graph, d: Name, rest: seq<Name>, v: seq<Name>, w: seq<Name>, r: seq<Name>)
    requires Explores(g, [d], v, w) && Explores(g, rest, w, r)
    ensures Explores(g, [d] + rest, v, r)
  {
    PrefixMembers(w, r);
    forall n | n in r && n !in v ensures ReachedFrom(g, [d] + rest, n) {
      if n in w {
        assert ReachedFrom(g, [d], n);
        assert d in [d] + rest;
      } else {
        var x :| x in rest && Reaches(g, x, n);
        assert x in [d] + rest;
      }
    }
  }

  lemma ExploresSeen(g: Graph, d: Name, rest: seq<Name>, v: seq<Name>, r: seq<Name>)
    requires d in v && Explores(g, rest, v, r)
    ensures Explores(g, [d] + rest, v, r)
  {
    forall n | n in r && n !in v ensures ReachedFrom(g, [d] + rest, n) {
      var x :| x in rest && Reaches(g, x, n);
      assert x in [d] + rest;
    }
  }

  lemma {:induction false} VisitAllExplores(g: Graph, ds: seq<Name>, v: seq<Name>)
    requires Closed(g) && (forall d :: d in ds ==> d in g) && NoDuplicates(v)
    ensures Explores(g, ds, v, VisitAll(g, ds, v))
    decreases |Unvisited(g, v)|, 1 + |ds|
  {
    if ds != [] {
      var d, rest := ds[0], ds[1..];
      assert ds == [d] + rest;
      if d in v {
        VisitAllExplores(g, rest, v);
        ExploresSeen(g, d, rest, v, VisitAll(g, rest, v));
      } else {
        var w := Visit(g, d, v);
        VisitExplores(g, d, v);
        UnvisitedShrinks(g, v, w, d);
        VisitAllExplores(g, rest, w);
        ExploresThen(g, d, rest, v, w, VisitAll(g, rest, w));
      }
    }
  }

  /** Dependencies are walked in list order: the modules visited for the first `i` of them come
      before the others. */
  lemma {:induction false} VisitedInListOrder(g: Graph, ds: seq<Name>, i: nat, v: seq<Name>) returns (n: nat)
    requires Closed(g) && (forall d :: d in ds ==> d in g) && NoDuplicates(v) && i <= |ds|
    ensures var r := VisitAll(g, ds, v); n <= |r| && Explores(g, ds[..i], v, r[..n])
    decreases i
  {
    var r := VisitAll(g, ds, v);
    if i == 0 {
      n := |v|;
      assert r[..n] == v;
    } else {
      var d, rest := ds[0], ds[1..];
      assert ds[..i] == [d] + rest[..i - 1];
      if d in v {
        n := VisitedInListOrder(g, rest, i - 1, v);
        ExploresSeen(g, d, rest[..i - 1], v, r[..n]);
      } else {
        var w := Visit(g, d, v);
        VisitExplores(g, d, v);
        n := VisitedInListOrder(g, rest, i - 1, w);
        ExploresThen(g, d, rest[..i - 1], v, w, r[..n]);
      }
    }
  }

  /** A module comes before what it imports. */
  lemma VisitedBeforeImports(g: Graph, m: Name, v: seq<Name>)
    requires Closed(g) && m in g && m !in v
    ensures |Visit(g, m, v)| > |v| && Visit(g, m, v)[..|v| + 1] == v + [m]
  {
  }

  /** The walk visits every module that `m` reaches exactly once, on every graph. */
  lemma VisitsReachableOnce(g: Graph, m: Name)
    requires Closed(g) && m in g
    ensures var r := Visit(g, m, []);
            NoDuplicates(r) && forall n :: n in r <==> Reaches(g, m, n)
  {
    VisitExplores(g, m, []);
    var r := Visit(g, m, []);
    assert m in [m];
    forall n | Reaches(g, m, n) ensures n in r {
      ClosedUnderReach(g, (set x | x in r), m, n);
    }
  }

  // ----- the code

  /** The variables that the nested function Get updates. */
  class Walk {
    var filenames: seq<string>
    var visited: set<Name>
    ghost var order: seq<Name>

    constructor ()
      ensures filenames == [] && visited == {} && order == []
    {
      filenames, visited, order := [], {}, [];
    }

    /** The file names are those of the visited modules, module by module. */
    ghost predicate Valid(files: Name -> seq<string>)
      reads this
    {
      && (forall n :: n in visited <==> n in order)
      && filenames == Flatten(FilesOf(order, files))
    }

    method Get(g: Graph, files: Name -> seq<string>, m: Name)
      requires Closed(g) && m in g && m !in visited && Valid(files)
      modifies this
      ensures Valid(files) && order == Visit(g, m, old(order))
      decreases |Unvisited(g, order)|
    {
      ghost var start := order + [m];
      filenames := filenames + files(m);
      FilesOfSnoc(order, files, m);
      visited := visited + {m};
      order := order + [m];
      UnvisitedShrinks(g, old(order), order, m);
      var i := 0;
      while i < |g[m]|
        invariant 0 <= i <= |g[m]| && Valid(files) && start <= order
        invariant VisitAll(g, g[m][i..], order) == VisitAll(g, g[m], start)
      {
        var d := g[m][i];
        assert g[m][i..][0] == d && g[m][i..][1..] == g[m][i + 1..];
        if d !in visited {
          UnvisitedShrinks(g, old(order), order, m);
          Get(g, files, d);
        }
        i := i + 1;
      }
    }
  }

  function FilesOf(order: seq<Name>, files: Name -> seq<string>): seq<seq<string>> {
    seq(|order|, i requires 0 <= i < |order| => files(order[i]))
  }

  lemma FilesOfSnoc(order: seq<Name>, files: Name -> seq<string>, m: Name)
    ensures Flatten(FilesOf(order + [m], files)) == Flatten(FilesOf(order, files)) + files(m)
  {
    assert FilesOf(order + [m], files) == FilesOf(order, files) + [files(m)];
    FlattenAppend(FilesOf(order, files), [files(m)]);
    assert [files(m)][1..] == [];
    assert Flatten([files(m)]) == files(m) + [];
  }

  /** `files` gives the file names of one module: its own, its raw scripts', its style sheets'. */
  method GetAllDependentFilenamesRecursive(g: Graph, files: Name -> seq<string>, m: Name)
      returns (filenames: seq<string>)
    requires Closed(g) && m in g
    ensures var order := Visit(g, m, []);
            && NoDuplicates(order) && (forall n :: n in order <==> Reaches(g, m, n))
            && filenames == Flatten(FilesOf(order, files))
  {
    var walk := new Walk();
    walk.Get(g, files, m);
    VisitsReachableOnce(g, m);
    filenames := walk.filenames;
  }
}
