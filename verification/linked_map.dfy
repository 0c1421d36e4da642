/**
  An insertion-ordered map, as the Kotlin standard library's `LinkedHashMap`
  behaves (the `mutableMapOf`, `toMutableMap`, `toMap` and `mapValues` maps of
  coil's `Parameters`). It is a sequence of key/value pairs in iteration order;
  `UniqueKeys` is its representation invariant and `ToMap` its abstract value.
 */
module LinkedMap {
  import opened Wrappers

  /** The keys of `s`, in iteration order. */
  function Keys<K, W>(s: seq<(K, W)>): (ks: seq<K>)
    ensures |ks| == |s|
    ensures forall i :: 0 <= i < |s| ==> ks[i] == s[i].0
  {
    if s == [] then [] else [s[0].0] + Keys(s[1..])
  }

  /** No key occurs twice. */
  ghost predicate UniqueKeys<K, W>(s: seq<(K, W)>)
  {
    s == [] || (s[0].0 !in Keys(s[1..]) && UniqueKeys(s[1..]))
  }

  /** A map: a sequence of pairs whose keys are distinct. */
  type Linked<K, W> = s: seq<(K, W)> | UniqueKeys(s) witness []

  /** Lookup (`map[key]`): the value of the first pair with key `k`, if any. */
  function Get<K(==), W>(s: seq<(K, W)>, k: K): (r: Option<W>)
    ensures r.None? <==> k !in Keys(s)
    ensures r.Some? ==> (k, r.value) in s
  {
    if s == [] then None
    else if s[0].0 == k then Some(s[0].1)
    else Get(s[1..], k)
  }

  /** In a map, the lookup of a stored key yields its stored value. */
  lemma {:induction false} GetAt<K(!new), W>(s: seq<(K, W)>, i: nat)
    requires UniqueKeys(s) && i < |s|
    ensures Get(s, s[i].0) == Some(s[i].1)
  {
    if i > 0 {
      assert s[1..][i - 1] == s[i];
      assert Keys(s[1..])[i - 1] == s[i].0;
      GetAt(s[1..], i - 1);
    }
  }

  /** The abstract value: the key/value relation, ignoring the order. */
  ghost function ToMap<K(!new), W>(s: seq<(K, W)>): (m: map<K, W>)
    ensures forall k :: k in m <==> k in Keys(s)
    ensures forall k :: k in m ==> Get(s, k) == Some(m[k])
  {
    if s == [] then map[] else ToMap(s[1..])[s[0].0 := s[0].1]
  }

  /** Sequences whose lookups all agree have the same abstract value. */
  lemma SameLookupsSameMap<K(!new), W>(s: seq<(K, W)>, t: seq<(K, W)>)
    requires forall k :: Get(s, k) == Get(t, k)
    ensures ToMap(s) == ToMap(t)
  {
    var ms, mt := ToMap(s), ToMap(t);
    assert ms.Keys == mt.Keys;
    forall k | k in ms ensures ms[k] == mt[k] {
      assert Some(ms[k]) == Get(s, k) == Get(t, k) == Some(mt[k]);
    }
  }

  /** The size of a map is the number of its pairs (`count()`). */
  lemma {:induction false} ToMapSize<K(!new), W>(s: seq<(K, W)>)
    requires UniqueKeys(s)
    ensures |ToMap(s)| == |s|
  {
    if s != [] {
      ToMapSize(s[1..]);
      assert ToMap(s).Keys == ToMap(s[1..]).Keys + {s[0].0};
    }
  }

  /**
    `map[key] = value`: overwrites the value of an existing key where it stands,
    or appends a new pair at the end of the iteration order.
   */
  function Put<K(==,!new), W>(s: seq<(K, W)>, k: K, w: W): (r: seq<(K, W)>)
    ensures Get(r, k) == Some(w)
    ensures forall j :: j != k ==> Get(r, j) == Get(s, j)
    ensures UniqueKeys(s) ==> UniqueKeys(r)
  {
    if s == [] then [(k, w)]
    else if s[0].0 == k then
      assert ([(k, w)] + s[1..])[1..] == s[1..];
      [(k, w)] + s[1..]
    else
      var t := Put(s[1..], k, w);
      assert ([s[0]] + t)[1..] == t;
      assert Get(t, s[0].0) == Get(s[1..], s[0].0);
      [s[0]] + t
  }

  /** A key not yet present is appended at the end of the iteration order. */
  lemma {:induction false} PutNew<K(!new), W>(s: seq<(K, W)>, k: K, w: W)
    requires k !in Keys(s)
    ensures Put(s, k, w) == s + [(k, w)]
  {
    if s != [] {
      var t := s[1..];
      assert Keys(s) == [s[0].0] + Keys(t);
      assert s[0].0 != k && k !in Keys(t);
      PutNew(t, k, w);
      assert Put(s, k, w) == [s[0]] + (t + [(k, w)]);
      assert [s[0]] + (t + [(k, w)]) == s + [(k, w)];
    }
  }

  /** A key already present keeps its place; only its value changes. */
  lemma {:induction false} PutAt<K(!new), W>(s: seq<(K, W)>, i: nat, w: W)
    requires UniqueKeys(s) && i < |s|
    ensures Put(s, s[i].0, w) == s[i := (s[i].0, w)]
  {
    var k := s[i].0;
    if i > 0 {
      var t := s[1..];
      assert t[i - 1] == s[i];
      assert Keys(t)[i - 1] == k;
      assert s[0].0 != k;
      PutAt(t, i - 1, w);
      assert Put(s, k, w) == [s[0]] + Put(t, k, w);
      assert [s[0]] + t[i - 1 := (k, w)] == s[i := (k, w)];
    }
  }

  /** The abstract effect of `Put`: a map update. */
  lemma ToMapPut<K(!new), W>(s: seq<(K, W)>, k: K, w: W)
    ensures ToMap(Put(s, k, w)) == ToMap(s)[k := w]
  {
    var m, m' := ToMap(Put(s, k, w)), ToMap(s)[k := w];
    forall j ensures j in m <==> j in m' {
      if j != k {
        assert Get(Put(s, k, w), j) == Get(s, j);
      }
    }
    assert m.Keys == m'.Keys;
    forall j | j in m ensures m[j] == m'[j] {
      if j != k {
        assert Get(Put(s, k, w), j) == Get(s, j);
      }
    }
  }

  /** `map.remove(key)`: drops the pairs of key `k`, keeping the others in order. */
  function Delete<K(==,!new), W>(s: seq<(K, W)>, k: K): (r: seq<(K, W)>)
    ensures Get(r, k) == None
    ensures forall j :: j != k ==> Get(r, j) == Get(s, j)
    ensures UniqueKeys(s) ==> UniqueKeys(r)
  {
    if s == [] then []
    else if s[0].0 == k then Delete(s[1..], k)
    else
      var t := Delete(s[1..], k);
      assert ([s[0]] + t)[1..] == t;
      assert Get(t, s[0].0) == Get(s[1..], s[0].0);
      [s[0]] + t
  }

  /** Removing an absent key changes nothing. */
  lemma {:induction false} DeleteAbsent<K(!new), W>(s: seq<(K, W)>, k: K)
    requires k !in Keys(s)
    ensures Delete(s, k) == s
  {
    if s != [] {
      assert k !in Keys(s[1..]);
      DeleteAbsent(s[1..], k);
    }
  }

  /** Removing a stored key cuts exactly its pair out of the sequence. */
  lemma {:induction false} DeleteAt<K(!new), W>(s: seq<(K, W)>, i: nat)
    requires UniqueKeys(s) && i < |s|
    ensures Delete(s, s[i].0) == s[..i] + s[i + 1..]
  {
    var k, t := s[i].0, s[1..];
    if i == 0 {
      DeleteAbsent(t, k);
    } else {
      assert t[i - 1] == s[i];
      assert Keys(t)[i - 1] == k;
      assert s[0].0 != k;
      DeleteAt(t, i - 1);
      assert Delete(s, k) == [s[0]] + Delete(t, k);
      assert [s[0]] + (t[..i - 1] + t[i..]) == s[..i] + s[i + 1..];
    }
  }

  /** The abstract effect of `Delete`: a map removal. */
  lemma ToMapDelete<K(!new), W>(s: seq<(K, W)>, k: K)
    ensures ToMap(Delete(s, k)) == ToMap(s) - {k}
  {
    var m, m' := ToMap(Delete(s, k)), ToMap(s) - {k};
    forall j ensures j in m <==> j in m' {
      if j != k {
        assert Get(Delete(s, k), j) == Get(s, j);
      }
    }
    assert m.Keys == m'.Keys;
    forall j | j in m ensures m[j] == m'[j] {
      assert Get(Delete(s, k), j) == Get(s, j);
    }
  }

  /** `map.mapValues(f)`: the same keys in the same order, each value transformed. */
  function MapValues<K(==,!new), W, X>(s: seq<(K, W)>, f: W -> X): (r: seq<(K, X)>)
    ensures Keys(r) == Keys(s)
    ensures UniqueKeys(s) ==> UniqueKeys(r)
    ensures forall k :: Get(r, k) == if Get(s, k).Some? then Some(f(Get(s, k).value)) else None
  {
    if s == [] then []
    else
      var t := MapValues(s[1..], f);
      assert ([(s[0].0, f(s[0].1))] + t)[1..] == t;
      [(s[0].0, f(s[0].1))] + t
  }

  /**
    `map.mapNotNullValues(f)`: the pairs whose transformed value is non-null,
    each carrying its transformed value.
   */
  function MapNotNullValues<K(==,!new), W, X>(s: seq<(K, W)>, f: W -> Option<X>): (r: seq<(K, X)>)
    ensures |r| <= |s|
    ensures forall j :: j in Keys(r) ==> j in Keys(s)
    ensures UniqueKeys(s) ==> UniqueKeys(r)
    ensures UniqueKeys(s) ==> forall k :: Get(r, k) == if Get(s, k).Some? then f(Get(s, k).value) else None
  {
    if s == [] then []
    else
      var t := MapNotNullValues(s[1..], f);
      match f(s[0].1)
      case None => t
      case Some(x) =>
        assert ([(s[0].0, x)] + t)[1..] == t;
        [(s[0].0, x)] + t
  }

  /** `MapNotNullValues` distributes over concatenation, so it keeps the iteration order. */
  lemma {:induction false} MapNotNullValuesAppend<K(!new), W, X>(s: seq<(K, W)>, t: seq<(K, W)>, f: W -> Option<X>)
    ensures MapNotNullValues(s + t, f) == MapNotNullValues(s, f) + MapNotNullValues(t, f)
  {
    if s == [] {
      assert s + t == t;
    } else {
      assert (s + t)[0] == s[0];
      assert (s + t)[1..] == s[1..] + t;
      MapNotNullValuesAppend(s[1..], t, f);
    }
  }

  /** The abstract effect of `MapValues`: every value of the map transformed. */
  lemma ToMapMapValues<K(!new), W, X>(s: seq<(K, W)>, f: W -> X)
    ensures ToMap(MapValues(s, f)) == map k | k in ToMap(s) :: f(ToMap(s)[k])
  {
    var m, m' := ToMap(MapValues(s, f)), map k | k in ToMap(s) :: f(ToMap(s)[k]);
    forall k ensures k in m <==> k in m' {
      assert Get(MapValues(s, f), k).Some? <==> Get(s, k).Some?;
    }
    assert m.Keys == m'.Keys;
    forall k | k in m ensures m[k] == m'[k] {
      assert Get(MapValues(s, f), k) == Some(f(Get(s, k).value));
    }
  }

  /** The abstract effect of `MapNotNullValues`: transform, then drop the keys mapped to null. */
  lemma ToMapMapNotNullValues<K(!new), W, X>(s: seq<(K, W)>, f: W -> Option<X>)
    requires UniqueKeys(s)
    ensures ToMap(MapNotNullValues(s, f)) == map k | k in ToMap(s) && f(ToMap(s)[k]).Some? :: f(ToMap(s)[k]).value
  {
    var m := ToMap(MapNotNullValues(s, f));
    var m' := map k | k in ToMap(s) && f(ToMap(s)[k]).Some? :: f(ToMap(s)[k]).value;
    forall k ensures k in m <==> k in m' {
      assert Get(MapNotNullValues(s, f), k) == if Get(s, k).Some? then f(Get(s, k).value) else None;
    }
    assert m.Keys == m'.Keys;
    forall k | k in m ensures m[k] == m'[k] {
      assert Get(MapNotNullValues(s, f), k) == f(Get(s, k).value);
    }
  }

  /**
    The test of the JVM's `AbstractMap.equals`: as many pairs in `t` as in `s`,
    and every pair of `s` found under its key in `t`.
   */
  predicate SameEntries<K(==), W(==)>(s: seq<(K, W)>, t: seq<(K, W)>): (b: bool)
    ensures b ==> |s| == |t|
    ensures b ==> forall k :: k in Keys(s) ==> Get(t, k) == Get(s, k)
  {
    |s| == |t| && forall i :: 0 <= i < |s| ==> Get(t, s[i].0) == Some(s[i].1)
  }

  /** For maps, that test is exactly equality of the abstract values. */
  lemma SameEntriesIsEquality<K(!new), W>(s: seq<(K, W)>, t: seq<(K, W)>)
    requires UniqueKeys(s) && UniqueKeys(t)
    ensures SameEntries(s, t) <==> ToMap(s) == ToMap(t)
  {
    if SameEntries(s, t) {
      SameEntriesGivesEquality(s, t);
    }
    if ToMap(s) == ToMap(t) {
      ToMapSize(s);
      ToMapSize(t);
      forall i | 0 <= i < |s| ensures Get(t, s[i].0) == Some(s[i].1) {
        GetAt(s, i);
      }
    }
  }

  lemma SameEntriesGivesEquality<K(!new), W>(s: seq<(K, W)>, t: seq<(K, W)>)
    requires UniqueKeys(s) && UniqueKeys(t) && SameEntries(s, t)
    ensures ToMap(s) == ToMap(t)
  {
    ToMapSize(s);
    ToMapSize(t);
    var ms, mt := ToMap(s), ToMap(t);
    forall k | k in ms ensures k in mt && mt[k] == ms[k] {
      var i :| 0 <= i < |s| && s[i] == (k, ms[k]);
      assert Get(t, s[i].0) == Some(s[i].1);
    }
    SubsetOfSameSize(ms.Keys, mt.Keys);
  }

  lemma SubsetOfSameSize<K>(a: set<K>, b: set<K>)
    requires a <= b && |a| == |b|
    ensures a == b
  {
    assert b == a + (b - a);
    assert |b - a| == 0;
  }
}
