/** The order of strings by code points, and stable sorting by a string key. */
module StringOrder {
  import opened Sequences

  predicate Leq(a: string, b: string) {
    a == "" || (b != "" && (a[0] < b[0] || (a[0] == b[0] && Leq(a[1..], b[1..]))))
  }

  /** A string is below another if it is a prefix of it, or smaller at the first character that differs. */
  lemma {:induction false} LeqIs(a: string, b: string)
    ensures Leq(a, b) <==>
              a <= b || exists k :: 0 <= k < |a| && k < |b| && a[..k] == b[..k] && a[k] < b[k]
  {
    if a != "" && b != "" {
      LeqIs(a[1..], b[1..]);
      if Leq(a, b) && a[0] == b[0] && !(a[1..] <= b[1..]) {
        var k :| 0 <= k < |a[1..]| && k < |b[1..]| && a[1..][..k] == b[1..][..k] && a[1..][k] < b[1..][k];
        assert a[..k + 1] == [a[0]] + a[1..][..k] && b[..k + 1] == [b[0]] + b[1..][..k];
        assert a[k + 1] < b[k + 1];
      }
      if Leq(a, b) && a[0] == b[0] && a[1..] <= b[1..] {
        assert a == [a[0]] + a[1..] && b[..|a|] == [b[0]] + b[1..][..|a| - 1];
      }
      if a[0] < b[0] {
        assert a[..0] == b[..0];
      }
      if a <= b {
        assert a[1..] == b[1..][..|a| - 1];
      }
      if k :| 0 <= k < |a| && k < |b| && a[..k] == b[..k] && a[k] < b[k] && k > 0 {
        assert a[..k][0] == b[..k][0];
        assert a[1..][..k - 1] == a[..k][1..] && b[1..][..k - 1] == b[..k][1..];
        assert a[1..][k - 1] < b[1..][k - 1];
      }
    }
  }

  lemma {:induction false} LeqTotal(a: string, b: string)
    ensures Leq(a, b) || Leq(b, a)
  {
    if a != "" && b != "" && a[0] == b[0] {
      LeqTotal(a[1..], b[1..]);
    }
  }

  lemma {:induction false} LeqAntisymmetric(a: string, b: string)
    requires Leq(a, b) && Leq(b, a)
    ensures a == b
  {
    if a != "" && b != "" && a[0] == b[0] {
      LeqAntisymmetric(a[1..], b[1..]);
      assert a == [a[0]] + a[1..] && b == [b[0]] + b[1..];
    }
  }

  lemma {:induction false} LeqTransitive(a: string, b: string, c: string)
    requires Leq(a, b) && Leq(b, c)
    ensures Leq(a, c)
  {
    if a != "" && b != "" && c != "" && a[0] == b[0] == c[0] {
      LeqTransitive(a[1..], b[1..], c[1..]);
    }
  }

  ghost predicate Ordered<T(!new)>(key: T -> string, s: seq<T>) {
    forall i, j :: 0 <= i < j < |s| ==> Leq(key(s[i]), key(s[j]))
  }

  ghost predicate DistinctKeys<T(!new)>(key: T -> string, s: seq<T>) {
    forall i, j :: 0 <= i < j < |s| ==> key(s[i]) != key(s[j])
  }

  /** The elements with the given key. */
  function Keyed<T(!new)>(key: T -> string, k: string): T -> bool {
    (x: T) => key(x) == k
  }

  /** In the order of the keys, with the elements that share a key as they were. */
  ghost predicate IsStableSort<T(!new)>(key: T -> string, sorted: seq<T>, s: seq<T>) {
    && Ordered(key, sorted)
    && multiset(sorted) == multiset(s)
    && forall k :: Filter(Keyed(key, k), sorted) == Filter(Keyed(key, k), s)
  }

  function Insert<T(!new)>(key: T -> string, x: T, s: seq<T>): (r: seq<T>)
    ensures |r| == |s| + 1
  {
    if s == [] || Leq(key(x), key(s[0])) then [x] + s else [s[0]] + Insert(key, x, s[1..])
  }

  /** `sorted(s, key=key)` */
  function SortBy<T(!new)>(key: T -> string, s: seq<T>): (r: seq<T>)
    ensures |r| == |s|
  {
    if s == [] then [] else Insert(key, s[0], SortBy(key, s[1..]))
  }

  lemma {:induction false} InsertIs<T(!new)>(key: T -> string, x: T, s: seq<T>)
    requires Ordered(key, s)
    ensures Ordered(key, Insert(key, x, s))
    ensures multiset(Insert(key, x, s)) == multiset(s) + multiset{x}
  {
    if s == [] {
    } else if Leq(key(x), key(s[0])) {
      forall j | 0 <= j < |s| ensures Leq(key(x), key(s[j])) {
        if j > 0 {
          LeqTransitive(key(x), key(s[0]), key(s[j]));
        }
      }
      assert multiset([x] + s) == multiset{x} + multiset(s);
    } else {
      LeqTotal(key(x), key(s[0]));
      var rest := Insert(key, x, s[1..]);
      InsertIs(key, x, s[1..]);
      assert s == [s[0]] + s[1..];
      forall j | 0 <= j < |rest| ensures Leq(key(s[0]), key(rest[j])) {
        assert rest[j] in multiset(rest);
        if rest[j] != x {
          assert rest[j] in multiset(s[1..]);
          var i :| 0 <= i < |s[1..]| && s[1..][i] == rest[j];
          assert s[i + 1] == rest[j];
        }
      }
      assert multiset([s[0]] + rest) == multiset{s[0]} + multiset(rest);
    }
  }

  lemma {:induction false} InsertIsStable<T(!new)>(key: T -> string, x: T, s: seq<T>, k: string)
    ensures Filter(Keyed(key, k), Insert(key, x, s)) == (if key(x) == k then [x] else []) + Filter(Keyed(key, k), s)
  {
    hide Leq;
    var inserted, first := Insert(key, x, s), if key(x) == k then [x] else [];
    if s == [] || Leq(key(x), key(s[0])) {
      assert inserted[1..] == s;
    } else {
      InsertIsStable(key, x, s[1..], k);
      LeqTotal(key(x), key(x));
      assert inserted[1..] == Insert(key, x, s[1..]);
      assert key(s[0]) == k ==> first == [];
    }
  }

  lemma {:induction false} SortByIs<T(!new)>(key: T -> string, s: seq<T>)
    ensures IsStableSort(key, SortBy(key, s), s)
  {
    hide Insert;
    if s != [] {
      SortByIs(key, s[1..]);
      InsertIs(key, s[0], SortBy(key, s[1..]));
      assert s == [s[0]] + s[1..];
      forall k ensures Filter(Keyed(key, k), SortBy(key, s)) == Filter(Keyed(key, k), s) {
        InsertIsStable(key, s[0], SortBy(key, s[1..]), k);
      }
    }
  }

  lemma FirstKeyed<T(!new)>(key: T -> string, a: seq<T>, b: seq<T>, x: T)
    requires Ordered(key, b) && x in a
    requires forall k :: Filter(Keyed(key, k), a) == Filter(Keyed(key, k), b)
    ensures b != [] && Leq(key(b[0]), key(x))
  {
    FilterMembers(Keyed(key, key(x)), a);
    FilterMembers(Keyed(key, key(x)), b);
    assert x in Filter(Keyed(key, key(x)), a);
    var i :| 0 <= i < |b| && b[i] == x;
    LeqTotal(key(x), key(x));
  }

  /** Only one sequence is in order and has the elements of each key as given. */
  lemma {:induction false} StableSortIsUnique<T(!new)>(key: T -> string, a: seq<T>, b: seq<T>)
    requires Ordered(key, a) && Ordered(key, b)
    requires forall k :: Filter(Keyed(key, k), a) == Filter(Keyed(key, k), b)
    ensures a == b
  {
    hide Leq;
    if a != [] || b != [] {
      if a != [] { FirstKeyed(key, a, b, a[0]); }
      if b != [] { FirstKeyed(key, b, a, b[0]); }
      LeqAntisymmetric(key(a[0]), key(b[0]));
      assert Filter(Keyed(key, key(a[0])), a)[0] == Filter(Keyed(key, key(a[0])), b)[0];
      assert a[0] == b[0];
      forall k ensures Filter(Keyed(key, k), a[1..]) == Filter(Keyed(key, k), b[1..]) {
        if key(a[0]) == k {
          assert Filter(Keyed(key, k), a)[1..] == Filter(Keyed(key, k), a[1..]);
          assert Filter(Keyed(key, k), b)[1..] == Filter(Keyed(key, k), b[1..]);
        }
      }
      StableSortIsUnique(key, a[1..], b[1..]);
      assert a == [a[0]] + a[1..] && b == [b[0]] + b[1..];
    }
  }

  lemma {:induction false} SortByMembers<T(!new)>(key: T -> string, s: seq<T>)
    ensures forall x :: x in SortBy(key, s) <==> x in s
  {
    SortByIs(key, s);
    assert forall x :: x in SortBy(key, s) <==> x in multiset(SortBy(key, s));
    assert forall x :: x in s <==> x in multiset(s);
  }

  /** Only one sequence has given members in strictly increasing order. */
  lemma {:induction false} StrictOrderIsUnique<T(!new)>(key: T -> string, a: seq<T>, b: seq<T>)
    requires Ordered(key, a) && DistinctKeys(key, a) && Ordered(key, b) && DistinctKeys(key, b)
    requires forall x :: x in a <==> x in b
    ensures a == b
  {
    assert a != [] ==> a[0] in b;
    assert b != [] ==> b[0] in a;
    if a != [] && b != [] {
      var i :| 0 <= i < |b| && b[i] == a[0];
      var j :| 0 <= j < |a| && a[j] == b[0];
      if i > 0 {
        LeqAntisymmetric(key(a[0]), key(b[0]));
      }
      assert a[0] == b[0];
      forall x ensures x in a[1..] <==> x in b[1..] {
        if x in a[1..] {
          var k :| 0 <= k < |a[1..]| && a[1..][k] == x;
          assert a[k + 1] == x && x in b && x != b[0];
        }
        if x in b[1..] {
          var k :| 0 <= k < |b[1..]| && b[1..][k] == x;
          assert b[k + 1] == x && x in a && x != a[0];
        }
      }
      StrictOrderIsUnique(key, a[1..], b[1..]);
      assert a == [a[0]] + a[1..] && b == [b[0]] + b[1..];
    }
  }

  lemma {:induction false} InsertDistinct<T(!new)>(key: T -> string, x: T, s: seq<T>)
    requires DistinctKeys(key, s) && forall y :: y in s ==> key(y) != key(x)
    ensures DistinctKeys(key, Insert(key, x, s))
    ensures forall y :: y in Insert(key, x, s) <==> y == x || y in s
  {
    assert x in [x] + s;
    if s != [] && !Leq(key(x), key(s[0])) {
      assert s == [s[0]] + s[1..];
      InsertDistinct(key, x, s[1..]);
      var rest := Insert(key, x, s[1..]);
      forall j | 0 <= j < |rest| ensures key(rest[j]) != key(s[0]) {
        assert rest[j] in rest;
        if rest[j] != x {
          assert rest[j] in s[1..];
          var i :| 0 <= i < |s[1..]| && s[1..][i] == rest[j];
          assert s[i + 1] == rest[j];
        }
      }
    }
  }

  lemma {:induction false} SortByDistinct<T(!new)>(key: T -> string, s: seq<T>)
    requires DistinctKeys(key, s)
    ensures DistinctKeys(key, SortBy(key, s))
  {
    if s != [] {
      SortByDistinct(key, s[1..]);
      SortByMembers(key, s[1..]);
      forall y | y in SortBy(key, s[1..]) ensures key(y) != key(s[0]) {
        assert y in s[1..];
        var i :| 0 <= i < |s[1..]| && s[1..][i] == y;
        assert s[i + 1] == y;
      }
      InsertDistinct(key, s[0], SortBy(key, s[1..]));
    }
  }
}
