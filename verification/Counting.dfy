/** Sizes of finite sets. */
module Counting {
  ghost function Below(n: nat): (r: set<int>)
    ensures forall i :: i in r <==> 0 <= i < n
    ensures |r| == n
  {
    if n == 0 then {} else Below(n - 1) + {n - 1}
  }

  lemma SubsetSize<T>(a: set<T>, b: set<T>)
    requires a <= b
    ensures |a| <= |b|
    ensures |a| == |b| ==> a == b
  {
    assert b == a + (b - a);
  }

  ghost function Image<T(!new), U>(a: set<T>, f: T -> U): set<U> { set i | i in a :: f(i) }

  ghost predicate Injective<T(!new), U>(a: set<T>, f: T -> U) {
    forall i, j | i in a && j in a && f(i) == f(j) :: i == j
  }

  lemma {:induction false} InjectionSize<T(!new), U>(a: set<T>, f: T -> U)
    requires Injective(a, f)
    ensures |Image(a, f)| == |a|
  {
    if a == {} {
      assert Image(a, f) == {};
    } else {
      var i :| i in a;
      InjectionSize(a - {i}, f);
      assert Image(a, f) == Image(a - {i}, f) + {f(i)};
    }
  }

  /** An injection of a finite set into itself reaches every element. */
  lemma InjectionOnto<T(!new)>(a: set<T>, f: T -> T, y: T)
    requires Injective(a, f) && Image(a, f) <= a && y in a
    ensures exists x :: x in a && f(x) == y
  {
    InjectionSize(a, f);
    SubsetSize(Image(a, f), a);
    assert y in Image(a, f);
  }
}
