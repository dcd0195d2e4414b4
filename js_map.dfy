/** JavaScript's `Map` and `Set` as the chat server uses them: keyed tables that
    remember insertion order, because `Array.from(map.values())`,
    `Array.from(set)` and `find` over `entries()` all walk that order. */
module JsMap {
  import opened JsString

  /** No element occurs twice. */
  ghost predicate Distinct<K>(s: seq<K>) {
    forall i, j :: 0 <= i < j < |s| ==> s[i] != s[j]
  }

  /** `s` with every occurrence of `k` removed, the rest in order. */
  function Without<K(==, !new)>(s: seq<K>, k: K): (r: seq<K>)
    ensures |r| <= |s|
    ensures forall x :: x in r <==> x in s && x != k
    ensures Distinct(s) ==> Distinct(r)
    ensures k !in s ==> r == s
  {
    if s == [] then []
    else if s[0] == k then Without(s[1..], k)
    else
      assert Distinct(s) ==> s[0] !in s[1..] && Distinct(s[1..]) by {
        if Distinct(s) {
          forall j | 0 <= j < |s[1..]| ensures s[1..][j] != s[0] { assert s[1..][j] == s[j + 1]; }
        }
      }
      [s[0]] + Without(s[1..], k)
  }

  /** `set.add(k)` on a JavaScript `Set` kept as its insertion-ordered elements:
      a new element goes to the end, an existing one keeps its place. */
  function AddLast<K(==, !new)>(s: seq<K>, k: K): (r: seq<K>)
    ensures forall x :: x in r <==> x in s || x == k
    ensures Distinct(s) ==> Distinct(r)
    ensures k in s ==> r == s
    ensures k !in s ==> r == s + [k]
  {
    if k in s then s else s + [k]
  }

  /** A JavaScript `Map`: the keys in insertion order and the table they index. */
  datatype OMap<K(==, !new), V> = OMap(keys: seq<K>, table: map<K, V>) {

    /** Every key once, and exactly the keys of the table. */
    ghost predicate Valid() {
      Distinct(keys) && forall k :: k in table <==> k in keys
    }

    /** `map.set(k, v)`: a new key goes last, an existing key keeps its place. */
    function Set(k: K, v: V): (r: OMap<K, V>)
      requires Valid()
      ensures r.Valid()
      ensures r.table == table[k := v]
      ensures k in table ==> r.keys == keys
      ensures k !in table ==> r.keys == keys + [k]
    {
      OMap(AddLast(keys, k), table[k := v])
    }

    /** `map.delete(k)`: the key leaves both the order and the table. */
    function Delete(k: K): (r: OMap<K, V>)
      requires Valid()
      ensures r.Valid()
      ensures r.table == table - {k}
      ensures r.keys == Without(keys, k)
    {
      OMap(Without(keys, k), table - {k})
    }

    /** `Array.from(map.values())`. */
    function Values(): (r: seq<V>)
      requires Valid()
      ensures |r| == |keys|
      ensures forall i :: 0 <= i < |keys| ==> r[i] == table[keys[i]]
    {
      seq(|keys|, i requires 0 <= i < |keys| => table[keys[i]])
    }
  }

  /** `new Map()`. */
  function EmptyMap<K(==, !new), V>(): (r: OMap<K, V>)
    ensures r.Valid() && r.keys == [] && r.table == map[]
  {
    OMap([], map[])
  }

  /** The keys of `keys` whose value `drop` rejects are removed; the rest keep
      their order. */
  function KeptKeys<K(==, !new), V>(keys: seq<K>, table: map<K, V>, drop: V -> bool): seq<K>
    requires forall k :: k in keys ==> k in table
  {
    if keys == [] then []
    else
      var front, last := keys[..|keys| - 1], keys[|keys| - 1];
      assert forall k :: k in front ==> k in keys;
      KeptKeys(front, table, drop) + (if drop(table[last]) then [] else [last])
  }

  /** The entries of `table` that `drop` does not reject. */
  function KeptTable<K(!new), V>(table: map<K, V>, drop: V -> bool): (r: map<K, V>)
    ensures forall k :: k in r <==> k in table && !drop(table[k])
    ensures forall k :: k in r ==> r[k] == table[k]
  {
    map k | k in table && !drop(table[k]) :: table[k]
  }

  /** Exactly the keys `drop` rejects are gone. */
  lemma {:induction false} KeptKeysHas<K(!new), V>(keys: seq<K>, table: map<K, V>, drop: V -> bool)
    requires forall k :: k in keys ==> k in table
    ensures forall k :: k in KeptKeys(keys, table, drop) <==> k in keys && !drop(table[k])
  {
    if keys != [] {
      var front, last := keys[..|keys| - 1], keys[|keys| - 1];
      assert keys == front + [last];
      KeptKeysHas(front, table, drop);
    }
  }

  /** Filtering never repeats a key. */
  lemma {:induction false} KeptKeysDistinct<K(!new), V>(keys: seq<K>, table: map<K, V>, drop: V -> bool)
    requires forall k :: k in keys ==> k in table
    requires Distinct(keys)
    ensures Distinct(KeptKeys(keys, table, drop))
  {
    if keys != [] {
      var front, last := keys[..|keys| - 1], keys[|keys| - 1];
      assert keys == front + [last];
      forall j | 0 <= j < |front| ensures front[j] != last { assert front[j] == keys[j]; }
      assert Distinct(front);
      KeptKeysDistinct(front, table, drop);
      KeptKeysOmits(front, table, drop, last);
    }
  }

  /** A key that is not among `keys` is not among the kept ones. */
  lemma {:induction false} KeptKeysOmits<K(!new), V>(keys: seq<K>, table: map<K, V>, drop: V -> bool, x: K)
    requires forall k :: k in keys ==> k in table
    requires x !in keys
    ensures x !in KeptKeys(keys, table, drop)
  {
    if keys != [] {
      var front := keys[..|keys| - 1];
      assert forall k :: k in front ==> k in keys;
      KeptKeysOmits(front, table, drop, x);
    }
  }

  /** In a sequence without repeats, an element occurs neither before nor after
      its own position. */
  lemma DistinctAt<K>(s: seq<K>, i: int)
    requires Distinct(s) && 0 <= i < |s|
    ensures s[i] !in s[..i] && s[i] !in s[i + 1..]
  {
    var before, after := s[..i], s[i + 1..];
    forall j | 0 <= j < |before| ensures before[j] != s[i] {
      assert before[j] == s[j];
    }
    forall j | 0 <= j < |after| ensures after[j] != s[i] {
      assert after[j] == s[i + 1 + j];
    }
  }

  /** Filtering one more key at the end. */
  lemma KeptKeysSnoc<K(!new), V>(keys: seq<K>, last: K, table: map<K, V>, drop: V -> bool)
    requires forall k :: k in keys ==> k in table
    requires last in table
    ensures KeptKeys(keys + [last], table, drop) == KeptKeys(keys, table, drop) + (if drop(table[last]) then [] else [last])
  {
    assert (keys + [last])[..|keys|] == keys;
  }

  /** Removing `k` from a sequence that holds it once, between `a` and `b`. */
  lemma {:induction false} WithoutBetween<K(!new)>(a: seq<K>, k: K, b: seq<K>)
    requires k !in a && k !in b
    ensures Without(a + [k] + b, k) == a + b
  {
    if a == [] {
      assert [k] + b == [k] + b;
      assert ([k] + b)[1..] == b;
    } else {
      WithoutBetween(a[1..], k, b);
      assert (a + [k] + b)[1..] == a[1..] + [k] + b;
      assert a + b == [a[0]] + (a[1..] + b);
    }
  }

  /** The index of the first element of `s` that satisfies `p`: `arr.find`, or a
      `findOne` over a collection kept in insertion order. */
  function FindFirst<T>(s: seq<T>, p: T -> bool): (r: Option<nat>)
    ensures r.Some? ==> r.value < |s| && p(s[r.value])
    ensures r.Some? ==> forall j :: 0 <= j < r.value ==> !p(s[j])
    ensures r.None? <==> forall j :: 0 <= j < |s| ==> !p(s[j])
  {
    if s == [] then None
    else if p(s[0]) then Some(0)
    else
      match FindFirst(s[1..], p)
      case None => None
      case Some(i) => Some(i + 1)
  }
}
