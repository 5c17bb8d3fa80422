/**
 Generic facts about sequences, their multisets and element-wise maps, used
 to show that reordering the help screen's commands reorders its lines.
 */
module Sequences {

  /** Taking the element at `k` out of a sequence takes one copy of it out of its multiset. */
  lemma RemoveAt<T>(b: seq<T>, k: nat)
    requires k < |b|
    ensures multiset(b) == multiset(b[..k] + b[k + 1..]) + multiset{b[k]}
  {
    var l, r := b[..k], b[k + 1..];
    assert b == l + [b[k]] + r;
    assert multiset(b) == multiset(l) + multiset([b[k]]) + multiset(r);
    assert multiset(l + r) == multiset(l) + multiset(r);
  }

  /** Dropping the first element of a sequence takes one copy of it out of its multiset. */
  lemma DropFirst<T>(a: seq<T>)
    requires a != []
    ensures multiset(a) == multiset(a[1..]) + multiset{a[0]}
  {
    assert a == [a[0]] + a[1..];
  }

  /** `f` applied to every element of `s`, in order. */
  function Map<T, U>(f: T -> U, s: seq<T>): (r: seq<U>)
    ensures |r| == |s|
    ensures forall i :: 0 <= i < |s| ==> r[i] == f(s[i])
  {
    seq(|s|, i requires 0 <= i < |s| => f(s[i]))
  }

  /** Taking the element at `k` out of `b` takes exactly its image out of the images of `b`. */
  lemma MapRemoveAt<T, U>(f: T -> U, b: seq<T>, k: nat)
    requires k < |b|
    ensures multiset(Map(f, b)) == multiset(Map(f, b[..k] + b[k + 1..])) + multiset{f(b[k])}
  {
    var images := Map(f, b);
    RemoveAt(images, k);
    assert images[..k] + images[k + 1..] == Map(f, b[..k] + b[k + 1..]);
  }

  /** A position at which `x` occurs in `b`. */
  lemma IndexOf<T>(b: seq<T>, x: T) returns (k: nat)
    requires x in multiset(b)
    ensures k < |b| && b[k] == x
  {
    assert x in b;
    k :| 0 <= k < |b| && b[k] == x;
  }

  /** The same element added to two multisets that come out equal: they were equal. */
  lemma Cancel<T>(m: multiset<T>, n: multiset<T>, x: T)
    requires m + multiset{x} == n + multiset{x}
    ensures m == n
  {
    forall y
      ensures m[y] == n[y]
    {
      assert (m + multiset{x})[y] == m[y] + multiset{x}[y];
      assert (n + multiset{x})[y] == n[y] + multiset{x}[y];
    }
  }

  /** Dropping the first element drops its image. */
  lemma MapDrop<T, U>(f: T -> U, a: seq<T>)
    requires a != []
    ensures multiset(Map(f, a)) == multiset(Map(f, a[1..])) + multiset{f(a[0])}
  {
    MapRemoveAt(f, a, 0);
    assert a[..0] + a[1..] == a[1..];
  }

  /** Two arrangements of the same elements have the same images, up to order. */
  lemma {:induction false} MapPermute<T, U>(f: T -> U, a: seq<T>, b: seq<T>)
    requires multiset(a) == multiset(b)
    ensures multiset(Map(f, a)) == multiset(Map(f, b))
    decreases |a|
  {
    if a == [] {
      assert |b| == |multiset(b)| == 0;
    } else {
      var x := a[0];
      var k := IndexOf(b, x);
      var tail, rest := a[1..], b[..k] + b[k + 1..];
      RemoveAt(b, k);
      DropFirst(a);
      Cancel(multiset(tail), multiset(rest), x);
      MapPermute(f, tail, rest);
      MapDrop(f, a);
      MapRemoveAt(f, b, k);
    }
  }
}
