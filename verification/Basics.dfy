/** Types and sequence functions shared by every module of the project. */
module Basics {

  datatype Option<+T> = None | Some(value: T)

  /** Concatenates the members of `parts`, in order. */
  function Flatten<T>(parts: seq<seq<T>>): seq<T> {
    if parts == [] then [] else parts[0] + Flatten(parts[1..])
  }

  lemma {:induction false} FlattenAppend<T>(left: seq<seq<T>>, right: seq<seq<T>>)
    ensures Flatten(left + right) == Flatten(left) + Flatten(right)
  {
    if left == [] {
      assert left + right == right;
    } else {
      assert (left + right)[0] == left[0] && (left + right)[1..] == left[1..] + right;
      FlattenAppend(left[1..], right);
    }
  }

  /** True when no value occurs at two positions of `s`. */
  ghost predicate NoDuplicates<T>(s: seq<T>) {
    forall i, j :: 0 <= i < j < |s| ==> s[i] != s[j]
  }

  lemma {:induction false} SubsetSize<T>(a: set<T>, b: set<T>)
    requires a <= b
    ensures |a| <= |b|
  {
    if a != {} {
      var x :| x in a;
      SubsetSize(a - {x}, b - {x});
    }
  }

  /** Concatenation is associative; stated where the solver should not search for it. */
  lemma Regroup<T>(a: seq<T>, b: seq<T>, c: seq<T>)
    ensures a + b + c == a + (b + c)
  {
  }

  lemma FlattenCons<T>(part: seq<T>, parts: seq<seq<T>>)
    ensures Flatten([part] + parts) == part + Flatten(parts)
  {
    assert ([part] + parts)[1..] == parts;
  }

  lemma FirstOfSum<T>(a: seq<T>, b: seq<T>)
    requires a != []
    ensures (a + b)[0] == a[0] && (a + b)[1..] == a[1..] + b
  {
  }
}
