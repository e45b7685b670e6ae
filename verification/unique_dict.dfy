/** `UniqueValueOrderedDict` (src/utils/__init__.py): an insertion-ordered
    dictionary whose item assignment refuses a value that is already stored
    under some key. The dictionary is an association list whose entry order
    is the key order of the underlying `OrderedDict`. */
module UniqueDict {
  import opened Outcomes

  type Dict<K, V> = seq<(K, V)>

  predicate Distinct<T(==)>(s: seq<T>) {
    forall i, j :: 0 <= i < j < |s| ==> s[i] != s[j]
  }

  function Keys<K, V>(d: Dict<K, V>): seq<K> {
    if d == [] then [] else [d[0].0] + Keys(d[1..])
  }

  function Values<K, V>(d: Dict<K, V>): seq<V> {
    if d == [] then [] else [d[0].1] + Values(d[1..])
  }

  /** A dictionary holds each key at most once. */
  predicate WellFormed<K(==), V>(d: Dict<K, V>) {
    Distinct(Keys(d))
  }

  /** No two keys are bound to equal values. */
  predicate Injective<K, V(==)>(d: Dict<K, V>) {
    Distinct(Values(d))
  }

  /** `d[k]`: the value bound to `k`, if any. */
  function Get<K(==), V>(d: Dict<K, V>, k: K): Option<V> {
    if d == [] then None
    else if d[0].0 == k then Some(d[0].1)
    else Get(d[1..], k)
  }

  lemma DistinctCons<T>(x: T, s: seq<T>)
    ensures Distinct([x] + s) <==> x !in s && Distinct(s)
  {
    var t := [x] + s;
    if x !in s && Distinct(s) {
      forall i, j | 0 <= i < j < |t| ensures t[i] != t[j] {
        if i > 0 {
          assert t[i] == s[i - 1] && t[j] == s[j - 1];
        } else {
          assert t[j] == s[j - 1];
        }
      }
    }
    if Distinct(t) {
      forall i, j | 0 <= i < j < |s| ensures s[i] != s[j] {
        assert s[i] == t[i + 1] && s[j] == t[j + 1];
      }
      forall j | 0 <= j < |s| ensures s[j] != x {
        assert s[j] == t[j + 1] && t[0] == x;
        assert t[0] != t[j + 1];
      }
    }
  }

  /** A key is bound exactly when it is among the keys. */
  lemma {:induction false} GetDefinedIffKey<K(!new), V>(d: Dict<K, V>, k: K)
    ensures Get(d, k).Some? <==> k in Keys(d)
    ensures Get(d, k).Some? ==> Get(d, k).value in Values(d)
    ensures Get(d, k).Some? ==> (k, Get(d, k).value) in d
  {
    if d != [] {
      GetDefinedIffKey(d[1..], k);
    }
  }

  /** `OrderedDict.__setitem__`: overwriting keeps the key's position, a new
      key goes to the end. */
  function Store<K(==,!new), V>(d: Dict<K, V>, k: K, v: V): (r: Dict<K, V>)
    ensures k in Keys(d) ==> Keys(r) == Keys(d)
    ensures k !in Keys(d) ==> Keys(r) == Keys(d) + [k]
    ensures k !in Keys(d) ==> Values(r) == Values(d) + [v]
    ensures Get(r, k) == Some(v)
    ensures forall k' :: k' != k ==> Get(r, k') == Get(d, k')
    ensures forall x :: x in Values(r) ==> x == v || x in Values(d)
  {
    if d == [] then [(k, v)]
    else if d[0].0 == k then [(k, v)] + d[1..]
    else [d[0]] + Store(d[1..], k, v)
  }

  lemma {:induction false} StoreKeepsInjective<K(!new), V>(d: Dict<K, V>, k: K, v: V)
    requires Injective(d)
    requires v !in Values(d)
    ensures Injective(Store(d, k, v))
  {
    if d != [] {
      DistinctCons(d[0].1, Values(d[1..]));
      if d[0].0 == k {
        assert Values(Store(d, k, v)) == [v] + Values(d[1..]);
        DistinctCons(v, Values(d[1..]));
      } else {
        StoreKeepsInjective(d[1..], k, v);
        assert Values(Store(d, k, v)) == [d[0].1] + Values(Store(d[1..], k, v));
        DistinctCons(d[0].1, Values(Store(d[1..], k, v)));
      }
    }
  }

  /** `UniqueValueOrderedDict.__setitem__`: raises ValueError, before storing
      anything, when `v` is already one of the values; otherwise stores it. */
  function SetItem<K(==,!new), V(==)>(d: Dict<K, V>, k: K, v: V): (r: Mutation<Dict<K, V>>)
    requires WellFormed(d)
    ensures r.raised.Some? <==> v in Values(d)
    ensures r.raised.Some? ==> r.raised == Some(ValueError) && r.state == d
    ensures r.raised.None? ==> Get(r.state, k) == Some(v)
    ensures r.raised.None? ==> forall k' :: k' != k ==> Get(r.state, k') == Get(d, k')
    ensures r.raised.None? && k in Keys(d) ==> Keys(r.state) == Keys(d)
    ensures r.raised.None? && k !in Keys(d) ==> Keys(r.state) == Keys(d) + [k]
    ensures WellFormed(r.state)
    ensures Injective(d) ==> Injective(r.state)
  {
    if v in Values(d) then
      Mutation(d, Some(ValueError))
    else
      if Injective(d) then StoreKeepsInjective(d, k, v); Mutation(Store(d, k, v), None)
      else Mutation(Store(d, k, v), None)
  }

  /** Re-assigning a key the value it already holds raises too: that value
      is among the values. */
  lemma SetSameValueRaises<K(!new), V>(d: Dict<K, V>, k: K, v: V)
    requires WellFormed(d)
    requires Get(d, k) == Some(v)
    ensures SetItem(d, k, v) == Mutation(d, Some(ValueError))
  {
    GetDefinedIffKey(d, k);
  }

  /** A run of assignments `d[k] = v`, one per pair, stopping at the first
      that raises. */
  function SetMany<K(==,!new), V(==)>(d: Dict<K, V>, items: seq<(K, V)>): Mutation<Dict<K, V>>
    requires WellFormed(d)
    decreases |items|
  {
    if items == [] then Mutation(d, None)
    else
      var r := SetItem(d, items[0].0, items[0].1);
      if r.raised.Some? then r else SetMany(r.state, items[1..])
  }

  /** Whatever assignments run, a dictionary in which no two keys share a
      value (the empty one, say) keeps that property. */
  lemma {:induction false} SetManyKeepsInjective<K(!new), V>(d: Dict<K, V>, items: seq<(K, V)>)
    requires WellFormed(d) && Injective(d)
    ensures WellFormed(SetMany(d, items).state)
    ensures Injective(SetMany(d, items).state)
    decreases |items|
  {
    if items != [] {
      var r := SetItem(d, items[0].0, items[0].1);
      if r.raised.None? {
        SetManyKeepsInjective(r.state, items[1..]);
      }
    }
  }
}
