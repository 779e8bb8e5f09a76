/** A few definitions and facts about finite sets that the other modules share. */
module Basics {

  datatype Option<+T> = None | Some(value: T)

  lemma {:induction false} SubsetSize<T>(a: set<T>, b: set<T>)
    requires a <= b
    ensures |a| <= |b|
  {
    if a == {} {
    } else {
      var x :| x in a;
      SubsetSize(a - {x}, b - {x});
    }
  }

  lemma SomethingOutside<T>(a: set<T>, b: set<T>) returns (x: T)
    requires |b| < |a|
    ensures x in a && x !in b
  {
    if forall y :: y in a ==> y in b {
      SubsetSize(a, b);
    }
    x :| x in a && x !in b;
  }

  lemma SameSizeSubset<T>(a: set<T>, b: set<T>)
    requires a <= b && |b| <= |a|
    ensures a == b
  {
    if x :| x in b && x !in a {
      SubsetSize(a + {x}, b);
    }
  }

  /** A set that is mapped injectively into another one is no larger than it. */
  lemma {:induction false} InjectionSize<A, B>(a: set<A>, b: set<B>, f: map<A, B>)
    requires a <= f.Keys && (forall x :: x in a ==> f[x] in b)
    requires forall x, y :: x in a && y in a && f[x] == f[y] ==> x == y
    ensures |a| <= |b|
  {
    if a == {} {
    } else {
      var x :| x in a;
      InjectionSize(a - {x}, b - {f[x]}, f);
    }
  }
}
