/** Python dictionaries: keys are unique and keep the position of their first insertion. */
module OrderedDicts {
  import opened Wrappers

  datatype Item<K, V> = Item(key: K, value: V)

  type Dict<K, V> = seq<Item<K, V>>

  function Keys<K, V>(d: Dict<K, V>): (r: seq<K>)
    ensures |r| == |d| && forall i :: 0 <= i < |d| ==> r[i] == d[i].key
  {
    seq(|d|, i requires 0 <= i < |d| => d[i].key)
  }

  ghost predicate UniqueKeys<K, V>(d: Dict<K, V>) {
    forall i, j :: 0 <= i < j < |d| ==> d[i].key != d[j].key
  }

  function Get<K(==), V>(d: Dict<K, V>, key: K): Option<V> {
    if d == [] then None
    else if d[0].key == key then Some(d[0].value)
    else Get(d[1..], key)
  }

  /** `d[key] = value` */
  function Put<K(==), V>(d: Dict<K, V>, key: K, value: V): Dict<K, V> {
    if d == [] then [Item(key, value)]
    else if d[0].key == key then [Item(key, value)] + d[1..]
    else [d[0]] + Put(d[1..], key, value)
  }

  lemma {:induction false} PutGet<K, V>(d: Dict<K, V>, key: K, value: V, other: K)
    ensures Get(Put(d, key, value), other) == if other == key then Some(value) else Get(d, other)
  {
    if d != [] && d[0].key != key {
      PutGet(d[1..], key, value, other);
    }
  }

  lemma {:induction false} PutNew<K, V>(d: Dict<K, V>, key: K, value: V)
    requires forall i :: 0 <= i < |d| ==> d[i].key != key
    ensures Put(d, key, value) == d + [Item(key, value)]
  {
    if d != [] {
      PutNew(d[1..], key, value);
    }
  }

  lemma {:induction false} GetMissing<K, V>(d: Dict<K, V>, key: K)
    ensures Get(d, key).None? <==> forall i :: 0 <= i < |d| ==> d[i].key != key
  {
    if d != [] {
      GetMissing(d[1..], key);
      if d[0].key != key && Get(d, key).None? {
        forall i | 0 <= i < |d| ensures d[i].key != key {
          if i > 0 { assert d[i] == d[1..][i - 1]; }
        }
      }
      if d[0].key != key && forall i :: 0 <= i < |d| ==> d[i].key != key {
        forall i | 0 <= i < |d[1..]| ensures d[1..][i].key != key {
          assert d[1..][i] == d[i + 1];
        }
      }
    }
  }

  lemma {:induction false} GetAt<K, V>(d: Dict<K, V>, i: nat)
    requires UniqueKeys(d) && i < |d|
    ensures Get(d, d[i].key) == Some(d[i].value)
  {
    if i > 0 {
      GetAt(d[1..], i - 1);
    }
  }

  lemma {:induction false} PutKeepsUniqueKeys<K, V>(d: Dict<K, V>, key: K, value: V)
    requires UniqueKeys(d)
    ensures UniqueKeys(Put(d, key, value))
    ensures forall i :: 0 <= i < |Put(d, key, value)| ==>
              Put(d, key, value)[i].key == key || exists j :: 0 <= j < |d| && d[j].key == Put(d, key, value)[i].key
  {
    if d != [] && d[0].key != key {
      PutKeepsUniqueKeys(d[1..], key, value);
      var rest := Put(d[1..], key, value);
      forall i | 0 <= i < |rest|
        ensures rest[i].key != d[0].key
        ensures rest[i].key == key || exists j :: 0 <= j < |d| && d[j].key == rest[i].key
      {
        if rest[i].key != key {
          var j :| 0 <= j < |d[1..]| && d[1..][j].key == rest[i].key;
          assert d[j + 1].key == rest[i].key;
        }
      }
    }
  }

  // ----- a dictionary from its items -----

  /** The items put one after the other. */
  function DictOf<K(==), V>(items: seq<Item<K, V>>): Dict<K, V> {
    if items == [] then []
    else
      var n := |items| - 1;
      Put(DictOf(items[..n]), items[n].key, items[n].value)
  }

  /** The value that the last item with the key gives. */
  function LastValue<K(==), V>(items: seq<Item<K, V>>, key: K): Option<V> {
    if items == [] then None
    else
      var n := |items| - 1;
      if items[n].key == key then Some(items[n].value) else LastValue(items[..n], key)
  }

  lemma {:induction false} LastValueIs<K, V>(items: seq<Item<K, V>>, key: K)
    ensures LastValue(items, key).None? <==> forall i :: 0 <= i < |items| ==> items[i].key != key
    ensures LastValue(items, key).Some? ==>
              exists i :: 0 <= i < |items| && items[i] == Item(key, LastValue(items, key).value) &&
                          forall j :: i < j < |items| ==> items[j].key != key
  {
    if items != [] && items[|items| - 1].key != key {
      LastValueIs(items[..|items| - 1], key);
    }
  }

  lemma {:induction false} DictOfKeysUnique<K, V>(items: seq<Item<K, V>>)
    ensures UniqueKeys(DictOf(items))
  {
    if items != [] {
      var n := |items| - 1;
      DictOfKeysUnique(items[..n]);
      PutKeepsUniqueKeys(DictOf(items[..n]), items[n].key, items[n].value);
    }
  }

  lemma {:induction false} DictOfGet<K, V>(items: seq<Item<K, V>>, key: K)
    ensures Get(DictOf(items), key) == LastValue(items, key)
  {
    if items != [] {
      var n := |items| - 1;
      DictOfGet(items[..n], key);
      PutGet(DictOf(items[..n]), items[n].key, items[n].value, key);
    }
  }
}
