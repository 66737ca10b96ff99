/** Counting the elements of a sequence that satisfy a test, and why the order does not matter; and `min`. */
module Counting {

  function Min(a: int, b: int): int {
    if a <= b then a else b
  }

  function Count<T>(s: seq<T>, f: T -> bool): (n: nat)
    ensures n <= |s|
  {
    if s == [] then 0
    else Count(s[..|s| - 1], f) + (if f(s[|s| - 1]) then 1 else 0)
  }

  lemma {:induction false} CountConcat<T>(a: seq<T>, b: seq<T>, f: T -> bool)
    ensures Count(a + b, f) == Count(a, f) + Count(b, f)
    decreases |b|
  {
    if b != [] {
      assert (a + b)[..|a + b| - 1] == a + b[..|b| - 1];
      CountConcat(a, b[..|b| - 1], f);
    } else {
      assert a + b == a;
    }
  }

  /** Taking the element at `k` out of a sequence takes one copy of it out of its multiset. */
  lemma Without<T>(b: seq<T>, k: nat)
    requires k < |b|
    ensures b == b[..k] + [b[k]] + b[k + 1..]
    ensures multiset(b[..k] + b[k + 1..]) == multiset(b) - multiset{b[k]}
  {
    assert b == b[..k] + [b[k]] + b[k + 1..];
  }

  /** Taking the element at `k` out of a sequence takes it out of the count when it passes the test. */
  lemma RemoveAt<T>(b: seq<T>, k: nat, f: T -> bool)
    requires k < |b|
    ensures Count(b, f) == Count(b[..k] + b[k + 1..], f) + (if f(b[k]) then 1 else 0)
  {
    var x, front, back := b[k], b[..k], b[k + 1..];
    Without(b, k);
    CountConcat(front + [x], back, f);
    CountConcat(front, [x], f);
    CountConcat(front, back, f);
    assert Count([x], f) == if f(x) then 1 else 0 by { assert [x][..0] == []; }
  }

  /** Two sequences with the same elements, in any order, have the same count. */
  lemma {:induction false} CountPermutation<T>(a: seq<T>, b: seq<T>, f: T -> bool)
    requires multiset(a) == multiset(b)
    ensures Count(a, f) == Count(b, f)
    decreases |a|
  {
    if a == [] {
      assert |b| == |multiset(b)| == 0;
    } else {
      var x, a' := a[|a| - 1], a[..|a| - 1];
      assert multiset(a') == multiset(a) - multiset{x} by {
        assert a == a' + [x];
      }
      assert x in multiset(b) by {
        assert a[|a| - 1] in a;
      }
      var k :| 0 <= k < |b| && b[k] == x;
      var b' := b[..k] + b[k + 1..];
      Without(b, k);
      RemoveAt(b, k, f);
      CountPermutation(a', b', f);
      assert Count(a, f) == Count(a', f) + (if f(x) then 1 else 0);
    }
  }
}
