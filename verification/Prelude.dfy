/** Declarations shared by all modules. */
module Prelude {

  datatype Option<+T> = None | Some(value: T)

  lemma SubsetBound<T>(a: set<T>, b: set<T>)
    requires a <= b
    ensures |a| <= |b|
  {
    assert b == a + (b - a);
  }

  lemma SameMembers<T>(a: seq<T>, b: seq<T>, x: T)
    requires multiset(a) == multiset(b)
    ensures x in a <==> x in b
  {
    assert x in a <==> x in multiset(a);
    assert x in b <==> x in multiset(b);
  }

  lemma Associative<T>(a: seq<T>, b: seq<T>, c: seq<T>)
    ensures (a + b) + c == a + (b + c)
  {
  }

  function Repeat<T>(x: T, n: nat): seq<T> {
    seq(n, i => x)
  }

  lemma RepeatNext<T>(x: T, n: nat)
    ensures Repeat(x, n + 1) == Repeat(x, n) + [x]
  {
  }

  function Image<A, B>(a: set<A>, f: A -> B): set<B> {
    set x | x in a :: f(x)
  }

  /** An injective function keeps the size of a set. */
  lemma {:induction false} InjectiveImage<A, B>(a: set<A>, f: A -> B)
    requires forall x, y | x in a && y in a && f(x) == f(y) :: x == y
    ensures |Image(a, f)| == |a|
    decreases a
  {
    if a != {} {
      var x :| x in a;
      var rest := a - {x};
      InjectiveImage(rest, f);
      assert Image(a, f) == Image(rest, f) + {f(x)};
    }
  }
}
