/** Sums of real amounts over sequences. */
module Sums {
  import opened Sequences

  function Pos(x: real): (r: real)
    ensures r >= 0.0
  {
    if x > 0.0 then x else 0.0
  }

  function Min(x: real, y: real): (r: real)
    ensures r <= x && r <= y && (r == x || r == y)
  {
    if x < y then x else y
  }

  function Sum<T(!new)>(f: T -> real, s: seq<T>): real {
    if s == [] then 0.0 else Sum(f, s[..|s| - 1]) + f(s[|s| - 1])
  }

  lemma SumSnoc<T(!new)>(f: T -> real, s: seq<T>, x: T)
    ensures Sum(f, s + [x]) == Sum(f, s) + f(x)
  {
    assert (s + [x])[..|s|] == s;
  }

  lemma SumOfOne<T(!new)>(f: T -> real, x: T)
    ensures Sum(f, [x]) == f(x) && Sum(f, []) == 0.0
  {
    assert [x][..0] == [];
  }

  lemma {:induction false} SumAppend<T(!new)>(f: T -> real, a: seq<T>, b: seq<T>)
    ensures Sum(f, a + b) == Sum(f, a) + Sum(f, b)
  {
    if b == [] {
      assert a + b == a;
    } else {
      var n := |b| - 1;
      assert a + b == (a + b[..n]) + [b[n]];
      SumSnoc(f, a + b[..n], b[n]);
      SumAppend(f, a, b[..n]);
    }
  }

  lemma SumCons<T(!new)>(f: T -> real, s: seq<T>)
    requires s != []
    ensures Sum(f, s) == f(s[0]) + Sum(f, s[1..])
  {
    assert s == [s[0]] + s[1..];
    SumAppend(f, [s[0]], s[1..]);
    SumOfOne(f, s[0]);
  }

  lemma {:induction false} SumSame<T(!new)>(f: T -> real, g: T -> real, s: seq<T>)
    requires forall x :: x in s ==> f(x) == g(x)
    ensures Sum(f, s) == Sum(g, s)
  {
    if s != [] {
      SumSame(f, g, s[..|s| - 1]);
    }
  }

  lemma {:induction false} SumPlus<T(!new)>(f: T -> real, g: T -> real, h: T -> real, s: seq<T>)
    requires forall x :: x in s ==> f(x) + g(x) == h(x)
    ensures Sum(f, s) + Sum(g, s) == Sum(h, s)
  {
    if s != [] {
      SumPlus(f, g, h, s[..|s| - 1]);
    }
  }

  /** Elements that add nothing can be left out. */
  lemma {:induction false} SumFilter<T(!new)>(f: T -> real, p: T -> bool, s: seq<T>)
    requires forall x :: x in s && !p(x) ==> f(x) == 0.0
    ensures Sum(f, Filter(p, s)) == Sum(f, s)
  {
    if s != [] {
      SumFilter(f, p, s[1..]);
      SumCons(f, s);
      if p(s[0]) {
        SumCons(f, Filter(p, s));
        assert Filter(p, s)[1..] == Filter(p, s[1..]);
      }
    }
  }

  lemma SumRemove<T(!new)>(f: T -> real, s: seq<T>, k: nat)
    requires k < |s|
    ensures Sum(f, s) == f(s[k]) + Sum(f, s[..k] + s[k + 1..])
  {
    assert s == s[..k] + s[k..] && s[k..][1..] == s[k + 1..];
    SumAppend(f, s[..k], s[k..]);
    SumCons(f, s[k..]);
    SumAppend(f, s[..k], s[k + 1..]);
  }

  lemma WithoutOne<T>(s: seq<T>, k: nat)
    requires k < |s|
    ensures multiset(s[..k] + s[k + 1..]) == multiset(s) - multiset{s[k]}
  {
    assert s == s[..k] + ([s[k]] + s[k + 1..]);
    calc {
      multiset(s);
      multiset(s[..k]) + (multiset{s[k]} + multiset(s[k + 1..]));
      multiset(s[..k] + s[k + 1..]) + multiset{s[k]};
    }
  }

  lemma RemovePermutes<T>(a: seq<T>, b: seq<T>, k: nat)
    requires a != [] && multiset(a) == multiset(b) && k < |b| && b[k] == a[|a| - 1]
    ensures multiset(a[..|a| - 1]) == multiset(b[..k] + b[k + 1..])
  {
    WithoutOne(a, |a| - 1);
    WithoutOne(b, k);
    assert a[..|a| - 1] + a[|a|..] == a[..|a| - 1];
  }

  /** A sum does not depend on the order. */
  lemma {:induction false} SumPermutes<T(!new)>(f: T -> real, a: seq<T>, b: seq<T>)
    requires multiset(a) == multiset(b)
    ensures Sum(f, a) == Sum(f, b)
  {
    assert |multiset(a)| == |a| && |multiset(b)| == |b|;
    if a != [] {
      var n := |a| - 1;
      assert a[n] in multiset(b);
      var k :| 0 <= k < |b| && b[k] == a[n];
      RemovePermutes(a, b, k);
      SumPermutes(f, a[..n], b[..k] + b[k + 1..]);
      SumRemove(f, b, k);
    }
  }
}
