/** Facts about sequences that several models share: filtering, subsequences and distinctness. */
module Sequences {

  predicate Distinct<T(==)>(s: seq<T>) {
    forall i, j :: 0 <= i < j < |s| ==> s[i] != s[j]
  }

  lemma AppendAssociates<T>(a: seq<T>, b: seq<T>, c: seq<T>)
    ensures a + (b + c) == (a + b) + c
  {
  }

  function Reversed<T>(s: seq<T>): (r: seq<T>)
    ensures |r| == |s| && forall i :: 0 <= i < |s| ==> r[i] == s[|s| - 1 - i]
  {
    seq(|s|, i requires 0 <= i < |s| => s[|s| - 1 - i])
  }

  lemma ReversedTwice<T>(s: seq<T>)
    ensures Reversed(Reversed(s)) == s
  {
  }

  /** The elements of `s` that satisfy `p`, in order. */
  function Filter<T(!new)>(p: T -> bool, s: seq<T>): (r: seq<T>)
    ensures |r| <= |s|
  {
    if s == [] then []
    else if p(s[0]) then [s[0]] + Filter(p, s[1..])
    else Filter(p, s[1..])
  }

  lemma {:induction false} FilterMembers<T(!new)>(p: T -> bool, s: seq<T>)
    ensures forall x :: x in Filter(p, s) <==> x in s && p(x)
  {
    if s != [] {
      FilterMembers(p, s[1..]);
    }
  }

  lemma {:induction false} FilterAppend<T(!new)>(p: T -> bool, a: seq<T>, b: seq<T>)
    ensures Filter(p, a + b) == Filter(p, a) + Filter(p, b)
  {
    if a == [] {
      assert a + b == b;
    } else {
      assert (a + b)[1..] == a[1..] + b;
      FilterAppend(p, a[1..], b);
    }
  }

  lemma {:induction false} FilterAll<T(!new)>(p: T -> bool, s: seq<T>)
    requires forall x :: x in s ==> p(x)
    ensures Filter(p, s) == s
  {
    if s != [] {
      FilterAll(p, s[1..]);
    }
  }

  lemma {:induction false} FilterNone<T(!new)>(p: T -> bool, s: seq<T>)
    requires forall x :: x in s ==> !p(x)
    ensures Filter(p, s) == []
  {
    if s != [] {
      FilterNone(p, s[1..]);
    }
  }

  lemma {:induction false} FilterMultiset<T(!new)>(p: T -> bool, s: seq<T>, x: T)
    ensures multiset(Filter(p, s))[x] == if p(x) then multiset(s)[x] else 0
  {
    if s != [] {
      FilterMultiset(p, s[1..], x);
      assert s == [s[0]] + s[1..];
      assert multiset(s) == multiset{s[0]} + multiset(s[1..]);
      if p(s[0]) {
        assert multiset(Filter(p, s)) == multiset{s[0]} + multiset(Filter(p, s[1..]));
      }
    }
  }

  lemma {:induction false} FilterSame<T(!new)>(p: T -> bool, q: T -> bool, s: seq<T>)
    requires forall x :: x in s ==> p(x) == q(x)
    ensures Filter(p, s) == Filter(q, s)
  {
    if s != [] {
      FilterSame(p, q, s[1..]);
    }
  }

  lemma {:induction false} FilterTwice<T(!new)>(p: T -> bool, q: T -> bool, both: T -> bool, s: seq<T>)
    requires forall x :: x in s ==> both(x) == (p(x) && q(x))
    ensures Filter(q, Filter(p, s)) == Filter(both, s)
  {
    if s != [] {
      FilterTwice(p, q, both, s[1..]);
    }
  }

  /** The parts numbered below `n`, one after the other. */
  ghost function Gather<T>(n: nat, part: nat -> seq<T>): seq<T> {
    if n == 0 then [] else Gather(n - 1, part) + part(n - 1)
  }

  lemma {:induction false} GatherMembers<T(!new)>(n: nat, part: nat -> seq<T>)
    ensures forall x :: x in Gather(n, part) <==> exists k: nat :: k < n && x in part(k)
  {
    if n > 0 {
      GatherMembers(n - 1, part);
    }
  }

  /** `a` can be obtained from `b` by deleting elements. */
  ghost predicate IsSubsequence<T>(a: seq<T>, b: seq<T>)
    decreases b
  {
    if a == [] then true
    else if b == [] then false
    else (a[0] == b[0] && IsSubsequence(a[1..], b[1..])) || IsSubsequence(a, b[1..])
  }

  lemma {:induction false} SubsequenceMember<T>(a: seq<T>, b: seq<T>, x: T)
    requires IsSubsequence(a, b) && x in a
    ensures x in b
    decreases b
  {
    if a[0] == b[0] && IsSubsequence(a[1..], b[1..]) {
      if x != a[0] {
        SubsequenceMember(a[1..], b[1..], x);
      }
    } else {
      SubsequenceMember(a, b[1..], x);
    }
  }

  lemma {:induction false} SubsequenceTail<T>(a: seq<T>, b: seq<T>)
    requires IsSubsequence(a, b) && a != []
    ensures b != [] && IsSubsequence(a[1..], b[1..])
    decreases b
  {
    if !(a[0] == b[0] && IsSubsequence(a[1..], b[1..])) {
      SubsequenceTail(a, b[1..]);
      SubsequenceWeaken(a[1..], b[2..], b[1]);
      assert [b[1]] + b[2..] == b[1..];
    }
  }

  lemma SubsequenceWeaken<T>(a: seq<T>, b: seq<T>, x: T)
    requires IsSubsequence(a, b)
    ensures IsSubsequence(a, [x] + b)
  {
    assert ([x] + b)[1..] == b;
  }

  lemma SubsequenceDropFirst<T>(a: seq<T>, b: seq<T>)
    requires IsSubsequence(a, b) && a != []
    ensures IsSubsequence(a[1..], b)
  {
    SubsequenceTail(a, b);
    SubsequenceWeaken(a[1..], b[1..], b[0]);
    assert [b[0]] + b[1..] == b;
  }

  /** Dropping at least as much from the front of the shorter sequence keeps the relation. */
  lemma {:induction false} SubsequenceDrop<T>(a: seq<T>, b: seq<T>, da: nat, db: nat)
    requires IsSubsequence(a, b) && db <= da <= |a| && db <= |b|
    ensures IsSubsequence(a[da..], b[db..])
    decreases da
  {
    if da == 0 {
      assert a[da..] == a && b[db..] == b;
    } else if db == 0 {
      SubsequenceDropFirst(a, b);
      SubsequenceDrop(a[1..], b, da - 1, 0);
      assert a[da..] == a[1..][da - 1..];
    } else {
      SubsequenceTail(a, b);
      SubsequenceDrop(a[1..], b[1..], da - 1, db - 1);
      assert a[da..] == a[1..][da - 1..] && b[db..] == b[1..][db - 1..];
    }
  }

  lemma {:induction false} SubsequenceAppend<T>(a: seq<T>, b: seq<T>, x: T)
    requires IsSubsequence(a, b)
    ensures IsSubsequence(a + [x], b + [x]) && IsSubsequence(a, b + [x])
    decreases b
  {
    if b == [] {
      assert a + [x] == b + [x] == [x];
    } else {
      assert (b + [x])[1..] == b[1..] + [x];
      if a == [] {
        SubsequenceAppend(a, b[1..], x);
        assert [] + [x] == [x];
      } else if a[0] == b[0] && IsSubsequence(a[1..], b[1..]) {
        assert (a + [x])[1..] == a[1..] + [x];
        SubsequenceAppend(a[1..], b[1..], x);
      } else {
        SubsequenceAppend(a, b[1..], x);
      }
    }
  }

  /** Filtering both sides keeps the relation and can only narrow the gap in length. */
  lemma {:induction false} SubsequenceFilter<T(!new)>(p: T -> bool, a: seq<T>, b: seq<T>)
    requires IsSubsequence(a, b)
    ensures IsSubsequence(Filter(p, a), Filter(p, b))
    ensures |Filter(p, b)| - |Filter(p, a)| <= |b| - |a|
    decreases b
  {
    if a == [] {
    } else if a[0] == b[0] && IsSubsequence(a[1..], b[1..]) {
      SubsequenceFilter(p, a[1..], b[1..]);
      if p(a[0]) {
        assert Filter(p, a)[1..] == Filter(p, a[1..]) && Filter(p, b)[1..] == Filter(p, b[1..]);
      }
    } else {
      SubsequenceFilter(p, a, b[1..]);
      if p(b[0]) {
        SubsequenceWeaken(Filter(p, a), Filter(p, b[1..]), b[0]);
      }
    }
  }
}
