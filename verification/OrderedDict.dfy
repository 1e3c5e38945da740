/** Python dictionaries keyed by user id: the entries in insertion order. */
module OrderedDict {

  datatype Option<+T> = None | Some(value: T)

  type Dict<V> = seq<(string, V)>

  function KeySet<V>(d: Dict<V>): set<string> {
    set i | 0 <= i < |d| :: d[i].0
  }

  function Lookup<V>(d: Dict<V>, key: string): Option<V> {
    if d == [] then None
    else if d[0].0 == key then Some(d[0].1)
    else Lookup(d[1..], key)
  }

  /** `d[key] = value`: a present key keeps its place, a new one goes last. */
  function Put<V>(d: Dict<V>, key: string, value: V): Dict<V> {
    if d == [] then [(key, value)]
    else if d[0].0 == key then [(key, value)] + d[1..]
    else [d[0]] + Put(d[1..], key, value)
  }

  /** The entries whose key is not in `gone`, in order. */
  function Without<V>(d: Dict<V>, gone: set<string>): Dict<V> {
    if d == [] then []
    else if d[0].0 in gone then Without(d[1..], gone)
    else [d[0]] + Without(d[1..], gone)
  }

  /** `d.pop(key, None)` */
  function Pop<V>(d: Dict<V>, key: string): Dict<V> {
    Without(d, {key})
  }

  /** No key occurs twice. */
  ghost predicate Distinct<V>(d: Dict<V>) {
    d == [] || (d[0].0 !in KeySet(d[1..]) && Distinct(d[1..]))
  }

  lemma {:induction false} DistinctByIndex<V>(d: Dict<V>, i: nat, j: nat)
    requires Distinct(d) && i < j < |d|
    ensures d[i].0 != d[j].0
    decreases |d|
  {
    if i == 0 {
      assert d[1..][j - 1].0 in KeySet(d[1..]);
    } else {
      DistinctByIndex(d[1..], i - 1, j - 1);
    }
  }

  lemma KeySetHead<V>(d: Dict<V>)
    requires d != []
    ensures KeySet(d) == {d[0].0} + KeySet(d[1..])
  {
  }

  lemma KeySetCons<V>(e: (string, V), d: Dict<V>)
    ensures KeySet([e] + d) == {e.0} + KeySet(d)
  {
    KeySetHead([e] + d);
    assert ([e] + d)[1..] == d;
  }

  lemma {:induction false} LookupIffKey<V>(d: Dict<V>, key: string)
    ensures Lookup(d, key).Some? <==> key in KeySet(d)
    ensures Lookup(d, key).Some? ==> (key, Lookup(d, key).value) in d
    decreases |d|
  {
    if d != [] {
      KeySetHead(d);
      LookupIffKey(d[1..], key);
    }
  }

  lemma {:induction false} WithoutKeys<V>(d: Dict<V>, gone: set<string>)
    ensures KeySet(Without(d, gone)) == KeySet(d) - gone
    ensures forall e :: e in Without(d, gone) <==> e in d && e.0 !in gone
    decreases |d|
  {
    if d != [] {
      KeySetHead(d);
      WithoutKeys(d[1..], gone);
      if d[0].0 !in gone {
        KeySetCons(d[0], Without(d[1..], gone));
      }
    }
  }

  lemma {:induction false} WithoutDistinct<V>(d: Dict<V>, gone: set<string>)
    requires Distinct(d)
    ensures Distinct(Without(d, gone))
    decreases |d|
  {
    if d != [] {
      WithoutDistinct(d[1..], gone);
      WithoutKeys(d[1..], gone);
      if d[0].0 !in gone {
        assert Without(d, gone)[1..] == Without(d[1..], gone);
      }
    }
  }

  lemma {:induction false} WithoutWithout<V>(d: Dict<V>, a: set<string>, b: set<string>)
    ensures Without(Without(d, a), b) == Without(d, a + b)
    decreases |d|
  {
    if d != [] {
      WithoutWithout(d[1..], a, b);
      if d[0].0 !in a {
        assert ([d[0]] + Without(d[1..], a))[1..] == Without(d[1..], a);
      }
    }
  }

  lemma {:induction false} WithoutNone<V>(d: Dict<V>, gone: set<string>)
    requires KeySet(d) !! gone
    ensures Without(d, gone) == d
    decreases |d|
  {
    if d != [] {
      KeySetHead(d);
      WithoutNone(d[1..], gone);
    }
  }

  lemma {:induction false} LookupWithout<V>(d: Dict<V>, gone: set<string>, key: string)
    ensures Lookup(Without(d, gone), key) == if key in gone then None else Lookup(d, key)
    decreases |d|
  {
    if d != [] {
      LookupWithout(d[1..], gone, key);
      if d[0].0 !in gone {
        assert ([d[0]] + Without(d[1..], gone))[1..] == Without(d[1..], gone);
      }
    }
  }

  lemma {:induction false} PutEntries<V>(d: Dict<V>, key: string, value: V)
    requires Distinct(d)
    ensures Distinct(Put(d, key, value))
    ensures KeySet(Put(d, key, value)) == KeySet(d) + {key}
    ensures forall e :: e in Put(d, key, value) <==> e == (key, value) || (e in d && e.0 != key)
    decreases |d|
  {
    if d == [] {
    } else if d[0].0 == key {
      KeySetHead(d);
      KeySetCons((key, value), d[1..]);
      forall e | e in d[1..] ensures e.0 != key {
        assert e.0 in KeySet(d[1..]);
      }
      assert Put(d, key, value)[1..] == d[1..];
    } else {
      var rest := Put(d[1..], key, value);
      KeySetHead(d);
      PutEntries(d[1..], key, value);
      KeySetCons(d[0], rest);
      assert Put(d, key, value)[1..] == rest;
    }
  }

  lemma {:induction false} LookupPut<V>(d: Dict<V>, key: string, value: V, other: string)
    ensures Lookup(Put(d, key, value), other) == if other == key then Some(value) else Lookup(d, other)
    decreases |d|
  {
    if d != [] && d[0].0 != key {
      LookupPut(d[1..], key, value, other);
      assert Put(d, key, value)[1..] == Put(d[1..], key, value);
    }
  }

  lemma {:induction false} PutLength<V>(d: Dict<V>, key: string, value: V)
    ensures |Put(d, key, value)| == if key in KeySet(d) then |d| else |d| + 1
    decreases |d|
  {
    if d != [] {
      KeySetHead(d);
      if d[0].0 != key {
        PutLength(d[1..], key, value);
      }
    }
  }

  lemma {:induction false} WithoutLength<V>(d: Dict<V>, gone: set<string>)
    ensures |Without(d, gone)| <= |d|
    decreases |d|
  {
    if d != [] {
      WithoutLength(d[1..], gone);
    }
  }
}
