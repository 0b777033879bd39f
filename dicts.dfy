/** Python's insertion-ordered dict: the keys in insertion order and the value of each. */
module Dicts {

  datatype Dict<K, V> = Dict(keys: seq<K>, vals: map<K, V>)
  {
    /** No key twice, and exactly the listed keys have values. */
    predicate Valid() {
      && (forall i, j :: 0 <= i < j < |keys| ==> keys[i] != keys[j])
      && vals.Keys == set k | k in keys
    }
  }

  function Empty<K, V>(): (d: Dict<K, V>)
    ensures d.Valid() && d.keys == []
  {
    Dict([], map[])
  }

  /** d[k] = v: a new key goes last, an existing key keeps its place. */
  function Set<K, V>(d: Dict<K, V>, k: K, v: V): (r: Dict<K, V>)
    requires d.Valid()
    ensures r.Valid()
    ensures r.keys == if k in d.keys then d.keys else d.keys + [k]
    ensures k in r.vals && r.vals[k] == v
    ensures forall j :: j in d.vals && j != k ==> j in r.vals && r.vals[j] == d.vals[j]
    ensures forall j :: j in r.vals ==> j == k || j in d.vals
  {
    if k in d.vals then Dict(d.keys, d.vals[k := v]) else Dict(d.keys + [k], d.vals[k := v])
  }

  /** Writing the value a key already holds changes nothing. */
  lemma SetSame<K, V>(d: Dict<K, V>, k: K, v: V)
    requires d.Valid() && k in d.vals && d.vals[k] == v
    ensures Set(d, k, v) == d
  {
    assert d.vals[k := v] == d.vals;
  }

  /** The elements of ks, first occurrences only, in order. */
  function Dedup<K(==)>(ks: seq<K>): seq<K> {
    if ks == [] then []
    else
      var p := Dedup(ks[..|ks| - 1]);
      if ks[|ks| - 1] in p then p else p + [ks[|ks| - 1]]
  }

  /** The elements of ks that are not in existing, in order. */
  function Absent<K(==)>(existing: seq<K>, ks: seq<K>): seq<K> {
    if ks == [] then []
    else Absent(existing, ks[..|ks| - 1]) + (if ks[|ks| - 1] in existing then [] else [ks[|ks| - 1]])
  }

  lemma {:induction false} AbsentMembers<K>(existing: seq<K>, ks: seq<K>)
    ensures forall k :: k in Absent(existing, ks) <==> k in ks && k !in existing
  {
    if ks != [] {
      AbsentMembers(existing, ks[..|ks| - 1]);
      assert ks == ks[..|ks| - 1] + [ks[|ks| - 1]];
    }
  }

  /** Absent only asks about membership in existing. */
  lemma {:induction false} AbsentSameMembers<K>(a: seq<K>, b: seq<K>, ks: seq<K>)
    requires forall k :: k in a <==> k in b
    ensures Absent(a, ks) == Absent(b, ks)
  {
    if ks != [] {
      AbsentSameMembers(a, b, ks[..|ks| - 1]);
    }
  }

  /** {k: v for k in ks}. */
  function FromKeys<K, V>(ks: seq<K>, v: V): (r: Dict<K, V>)
    ensures r.Valid()
  {
    if ks == [] then Empty() else Set(FromKeys(ks[..|ks| - 1], v), ks[|ks| - 1], v)
  }

  lemma {:induction false} FromKeysLaw<K, V>(ks: seq<K>, v: V)
    ensures FromKeys(ks, v).keys == Dedup(ks)
    ensures forall k :: k in FromKeys(ks, v).vals <==> k in ks
    ensures forall k :: k in FromKeys(ks, v).vals ==> FromKeys(ks, v).vals[k] == v
  {
    if ks != [] {
      var init := ks[..|ks| - 1];
      FromKeysLaw(init, v);
      assert ks == init + [ks[|ks| - 1]];
    }
  }

  /** d.update(...) with the keys ks, in order, taking each value from vals. */
  function UpdateKeys<K, V>(d: Dict<K, V>, ks: seq<K>, vals: map<K, V>): (r: Dict<K, V>)
    requires d.Valid()
    requires forall k :: k in ks ==> k in vals
    ensures r.Valid()
  {
    if ks == [] then d
    else Set(UpdateKeys(d, ks[..|ks| - 1], vals), ks[|ks| - 1], vals[ks[|ks| - 1]])
  }

  /** d.update(src). */
  function Update<K, V>(d: Dict<K, V>, src: Dict<K, V>): (r: Dict<K, V>)
    requires d.Valid() && src.Valid()
    ensures r.Valid()
  {
    UpdateKeys(d, src.keys, src.vals)
  }

  lemma {:induction false} UpdateKeysLaw<K, V>(d: Dict<K, V>, ks: seq<K>, vals: map<K, V>)
    requires d.Valid()
    requires forall k :: k in ks ==> k in vals
    requires forall i, j :: 0 <= i < j < |ks| ==> ks[i] != ks[j]
    ensures UpdateKeys(d, ks, vals).keys == d.keys + Absent(d.keys, ks)
    ensures forall k :: k in UpdateKeys(d, ks, vals).vals <==> k in d.vals || k in ks
    ensures forall k :: k in ks ==> UpdateKeys(d, ks, vals).vals[k] == vals[k]
    ensures forall k :: k in d.vals && k !in ks ==> UpdateKeys(d, ks, vals).vals[k] == d.vals[k]
  {
    if ks != [] {
      var init, last := ks[..|ks| - 1], ks[|ks| - 1];
      assert ks == init + [last];
      UpdateKeysLaw(d, init, vals);
      AbsentMembers(d.keys, init);
      assert last !in init;
    }
  }
}
