/** Sums over sequences that do not depend on the order. */
module Folds {
  /** The sum of `g` over a sequence. */
  function Fold<T>(g: T -> real, s: seq<T>): real {
    if s == [] then 0.0 else g(s[0]) + Fold(g, s[1..])
  }

  lemma {:induction false} FoldAppend<T>(g: T -> real, a: seq<T>, b: seq<T>)
    ensures Fold(g, a + b) == Fold(g, a) + Fold(g, b)
    decreases |a|
  {
    if a == [] {
      assert a + b == b;
    } else {
      assert (a + b)[1..] == a[1..] + b;
      FoldAppend(g, a[1..], b);
    }
  }

  /** It does not depend on the order. */
  lemma {:induction false} FoldPermutes<T>(g: T -> real, a: seq<T>, b: seq<T>)
    requires multiset(a) == multiset(b)
    ensures Fold(g, a) == Fold(g, b)
    decreases |a|
  {
    if a == [] {
      assert |multiset(b)| == 0;
    } else {
      assert a[0] in multiset(b);
      var i :| 0 <= i < |b| && b[i] == a[0];
      var rest := b[..i] + b[i + 1..];
      FoldWithout(g, b, i);
      BagWithout(b, i);
      assert a == [a[0]] + a[1..];
      assert multiset(a[1..]) == multiset(a) - multiset{a[0]};
      FoldPermutes(g, a[1..], rest);
    }
  }

  lemma FoldWithout<T>(g: T -> real, b: seq<T>, i: nat)
    requires i < |b|
    ensures Fold(g, b) == g(b[i]) + Fold(g, b[..i] + b[i + 1..])
  {
    FoldMiddle(g, b[..i], b[i], b[i + 1..]);
    assert b == b[..i] + ([b[i]] + b[i + 1..]);
  }

  lemma FoldMiddle<T>(g: T -> real, left: seq<T>, x: T, right: seq<T>)
    ensures Fold(g, left + ([x] + right)) == g(x) + Fold(g, left + right)
  {
    FoldCons(g, x, right);
    FoldAppend(g, left, [x] + right);
    FoldAppend(g, left, right);
  }

  lemma FoldCons<T>(g: T -> real, x: T, rest: seq<T>)
    ensures Fold(g, [x] + rest) == g(x) + Fold(g, rest)
  {
    assert ([x] + rest)[1..] == rest;
  }

  lemma BagWithout<T>(b: seq<T>, i: nat)
    requires i < |b|
    ensures multiset(b[..i] + b[i + 1..]) == multiset(b) - multiset{b[i]}
  {
    assert b == b[..i] + [b[i]] + b[i + 1..];
  }

  lemma FoldOne<T>(g: T -> real, x: T)
    ensures Fold(g, [x]) == g(x)
  {
    assert [x][1..] == [];
  }
}
