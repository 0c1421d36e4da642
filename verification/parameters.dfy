/**
  coil's request `Parameters`: an immutable, insertion-ordered table from
  string keys to `Entry(value, cacheKey)` pairs, and its mutable `Builder`.

  The source's `Any?` values are `Option<V>` here (`None` is Kotlin's null),
  and `String?` cache keys are `Option<string>`.
 */
module Request {
  import opened Wrappers
  import LinkedMap

  /** One parameter: its value and the cache key it contributes, if any. */
  datatype Entry<V> = Entry(value: Option<V>, cacheKey: Option<string>)

  /** The table both `Parameters` and `Builder` hold: keys are distinct, order is insertion order. */
  type Table<V> = LinkedMap.Linked<string, Entry<V>>

  /**
    The cache key `Builder.set` uses when the caller gives none: the value's
    string form (`value?.toString()`), or null for a null value. The JVM's
    `toString` is the parameter `toString`.
   */
  function DefaultCacheKey<V>(value: Option<V>, toString: V -> string): (c: Option<string>)
    ensures c.Some? <==> value.Some?
    ensures value.Some? ==> c.value == toString(value.value)
  {
    match value
    case None => None
    case Some(v) => Some(toString(v))
  }

  /** The key-to-value map that `values()` describes. */
  ghost function ValuesOf<V>(m: map<string, Entry<V>>): map<string, Option<V>>
  {
    map k | k in m :: m[k].value
  }

  /** The key-to-cache-key map that `cacheKeys()` describes: null cache keys are left out. */
  ghost function CacheKeysOf<V>(m: map<string, Entry<V>>): map<string, string>
  {
    map k | k in m && m[k].cacheKey.Some? :: m[k].cacheKey.value
  }

  datatype Parameters<V(==)> = Parameters(entries: Table<V>)
  {
    /** The abstract value: the `Map<String, Entry>` the source holds, without its order. */
    ghost function AsMap(): map<string, Entry<V>>
    {
      LinkedMap.ToMap(entries)
    }

    /** `value(key)`: the stored value, or null when `key` has no mapping. */
    function Value(key: string): (r: Option<V>)
      ensures key !in AsMap() ==> r == None
      ensures key in AsMap() ==> r == AsMap()[key].value
    {
      match LinkedMap.Get(entries, key)
      case None => None
      case Some(e) => e.value
    }

    /** `cacheKey(key)`: the stored cache key, or null when `key` has no mapping. */
    function CacheKey(key: string): (r: Option<string>)
      ensures key !in AsMap() ==> r == None
      ensures key in AsMap() ==> r == AsMap()[key].cacheKey
    {
      match LinkedMap.Get(entries, key)
      case None => None
      case Some(e) => e.cacheKey
    }

    /** `entry(key)`: the stored entry, null exactly when `key` has no mapping. */
    function EntryOf(key: string): (r: Option<Entry<V>>)
      ensures r.None? <==> key !in AsMap()
      ensures r.Some? ==> r.value == AsMap()[key]
    {
      LinkedMap.Get(entries, key)
    }

    /** `count()`: the number of parameters. */
    function Count(): (n: nat)
      ensures n == |AsMap()|
    {
      LinkedMap.ToMapSize(entries);
      |entries|
    }

    /** `isEmpty()`: true iff there are no parameters. */
    function IsEmpty(): (b: bool)
      ensures b <==> Count() == 0
      ensures b <==> AsMap() == map[]
    {
      |entries| == 0
    }

    /**
      `values()`: every key with its value (null values included), in the
      parameters' own order, as an insertion-ordered map.
     */
    function Values(): (r: LinkedMap.Linked<string, Option<V>>)
      ensures LinkedMap.Keys(r) == LinkedMap.Keys(entries)
      ensures LinkedMap.ToMap(r) == ValuesOf(AsMap())
    {
      if IsEmpty() then []
      else
        LinkedMap.ToMapMapValues(entries, (e: Entry<V>) => e.value);
        LinkedMap.MapValues(entries, (e: Entry<V>) => e.value)
    }

    /**
      `cacheKeys()`: the keys whose cache key is non-null, each with its cache
      key; the others are left out.
     */
    function CacheKeys(): (r: LinkedMap.Linked<string, string>)
      ensures forall k :: k in LinkedMap.Keys(r) ==> k in LinkedMap.Keys(entries)
      ensures LinkedMap.ToMap(r) == CacheKeysOf(AsMap())
    {
      if IsEmpty() then []
      else
        LinkedMap.ToMapMapNotNullValues(entries, (e: Entry<V>) => e.cacheKey);
        LinkedMap.MapNotNullValues(entries, (e: Entry<V>) => e.cacheKey)
    }

    /** `iterator()`: every stored (key, entry) pair, each key once, in insertion order. */
    function Iterator(): (r: seq<(string, Entry<V>)>)
      ensures LinkedMap.Keys(r) == LinkedMap.Keys(entries)
      ensures LinkedMap.UniqueKeys(r)
      ensures forall i :: 0 <= i < |r| ==> EntryOf(r[i].0) == Some(r[i].1)
      ensures forall k :: k in AsMap() ==> k in LinkedMap.Keys(r)
    {
      forall i | 0 <= i < |entries| ensures EntryOf(entries[i].0) == Some(entries[i].1) {
        LinkedMap.GetAt(entries, i);
      }
      entries
    }

    /**
      `equals(other)` between two `Parameters`: the JVM's map comparison, which
      holds exactly when both hold the same key/entry relation, whatever the order.
     */
    function Equals(other: Parameters<V>): (r: bool)
      ensures r <==> AsMap() == other.AsMap()
    {
      LinkedMap.SameEntriesIsEquality(entries, other.entries);
      LinkedMap.SameEntries(entries, other.entries)
    }

    /** `newBuilder()`: a fresh builder holding a copy of these entries. */
    method NewBuilder() returns (b: Builder<V>)
      ensures fresh(b)
      ensures b.entries == entries && b.AsMap() == AsMap()
    {
      b := new Builder.From(this);
    }
  }

  /** `Parameters()` and `Parameters.EMPTY`: no parameters. */
  function Empty<V(==)>(): (p: Parameters<V>)
    ensures p.IsEmpty() && p.Count() == 0 && p.AsMap() == map[]
    ensures p.Values() == [] && p.CacheKeys() == []
  {
    Parameters([])
  }

  /** `Parameters.Builder`: a mutable copy of a table, frozen by `Build`. */
  class Builder<V(==)> {
    var entries: Table<V>

    /** The abstract value of the builder's `MutableMap`. */
    ghost function AsMap(): map<string, Entry<V>>
      reads this
    {
      LinkedMap.ToMap(entries)
    }

    /** `Builder()`: an empty builder. */
    constructor ()
      ensures entries == [] && AsMap() == map[]
    {
      entries := [];
    }

    /** `Builder(parameters)`: a builder seeded with a copy of `parameters`' entries. */
    constructor From(parameters: Parameters<V>)
      ensures entries == parameters.entries && AsMap() == parameters.AsMap()
    {
      entries := parameters.entries;
    }

    /**
      `set(key, value, cacheKey)`: inserts or overwrites the entry of `key`;
      returns the builder itself for chaining.
     */
    method Set(key: string, value: Option<V>, cacheKey: Option<string>) returns (self: Builder<V>)
      modifies this
      ensures self == this
      ensures entries == LinkedMap.Put(old(entries), key, Entry(value, cacheKey))
      ensures AsMap() == old(AsMap())[key := Entry(value, cacheKey)]
    {
      LinkedMap.ToMapPut(entries, key, Entry(value, cacheKey));
      entries := LinkedMap.Put(entries, key, Entry(value, cacheKey));
      self := this;
    }

    /** `set(key, value)`: `set` with the default cache key, the value's string form. */
    method SetWithDefaultCacheKey(key: string, value: Option<V>, toString: V -> string) returns (self: Builder<V>)
      modifies this
      ensures self == this
      ensures entries == LinkedMap.Put(old(entries), key, Entry(value, DefaultCacheKey(value, toString)))
      ensures AsMap() == old(AsMap())[key := Entry(value, DefaultCacheKey(value, toString))]
    {
      self := Set(key, value, DefaultCacheKey(value, toString));
    }

    /** `remove(key)`: deletes the entry of `key`, if any; returns the builder itself. */
    method Remove(key: string) returns (self: Builder<V>)
      modifies this
      ensures self == this
      ensures entries == LinkedMap.Delete(old(entries), key)
      ensures AsMap() == old(AsMap()) - {key}
    {
      LinkedMap.ToMapDelete(entries, key);
      entries := LinkedMap.Delete(entries, key);
      self := this;
    }

    /** `build()`: an immutable snapshot of the builder's current entries. */
    method Build() returns (p: Parameters<V>)
      ensures p.entries == entries && p.AsMap() == AsMap()
    {
      p := Parameters(entries);
    }
  }

  /**
    `set(key, value, cacheKey)` followed by `build()`: `key` now yields the new
    entry, every other key its previous one, and the count grows by one
    exactly when `key` was new.
   */
  lemma SetThenLookup<V>(p: Parameters<V>, key: string, value: Option<V>, cacheKey: Option<string>)
    ensures var q := Parameters(LinkedMap.Put(p.entries, key, Entry(value, cacheKey)));
      && q.EntryOf(key) == Some(Entry(value, cacheKey))
      && q.Value(key) == value
      && q.CacheKey(key) == cacheKey
      && (forall k :: k != key ==> q.EntryOf(k) == p.EntryOf(k))
      && q.Count() == (if p.EntryOf(key).Some? then p.Count() else p.Count() + 1)
  {
    var q := Parameters(LinkedMap.Put(p.entries, key, Entry(value, cacheKey)));
    var m := p.AsMap();
    LinkedMap.ToMapPut(p.entries, key, Entry(value, cacheKey));
    assert q.AsMap() == m[key := Entry(value, cacheKey)];
    assert q.AsMap().Keys == m.Keys + {key};
  }

  /** Updating a key of the table updates it in `values()`. */
  lemma ValuesOfUpdate<V>(m: map<string, Entry<V>>, key: string, e: Entry<V>)
    ensures ValuesOf(m[key := e]) == ValuesOf(m)[key := e.value]
  {
    assert ValuesOf(m[key := e]).Keys == ValuesOf(m)[key := e.value].Keys;
  }

  /** Updating a key of the table updates it in `cacheKeys()`, or drops it there for a null cache key. */
  lemma CacheKeysOfUpdate<V>(m: map<string, Entry<V>>, key: string, e: Entry<V>)
    ensures CacheKeysOf(m[key := e]) ==
      if e.cacheKey.Some? then CacheKeysOf(m)[key := e.cacheKey.value] else CacheKeysOf(m) - {key}
  {
    var updated := if e.cacheKey.Some? then CacheKeysOf(m)[key := e.cacheKey.value] else CacheKeysOf(m) - {key};
    assert CacheKeysOf(m[key := e]).Keys == updated.Keys;
  }

  /** Removing a key of the table removes it from `values()`. */
  lemma ValuesOfRemove<V>(m: map<string, Entry<V>>, key: string)
    ensures ValuesOf(m - {key}) == ValuesOf(m) - {key}
  {
    assert ValuesOf(m - {key}).Keys == (ValuesOf(m) - {key}).Keys;
  }

  /** Removing a key of the table removes it from `cacheKeys()`. */
  lemma CacheKeysOfRemove<V>(m: map<string, Entry<V>>, key: string)
    ensures CacheKeysOf(m - {key}) == CacheKeysOf(m) - {key}
  {
    assert CacheKeysOf(m - {key}).Keys == (CacheKeysOf(m) - {key}).Keys;
  }

  /**
    `set(key, value, cacheKey)` followed by `build()`, seen through the
    projections: in `values()` `key` maps to the new value; in `cacheKeys()`
    to the new cache key, or it is left out when that cache key is null; no
    other key changes in either.
   */
  lemma SetThenProjections<V>(p: Parameters<V>, key: string, value: Option<V>, cacheKey: Option<string>)
    ensures var q := Parameters(LinkedMap.Put(p.entries, key, Entry(value, cacheKey)));
      && LinkedMap.ToMap(q.Values()) == LinkedMap.ToMap(p.Values())[key := value]
      && LinkedMap.ToMap(q.CacheKeys()) ==
           if cacheKey.Some? then LinkedMap.ToMap(p.CacheKeys())[key := cacheKey.value]
           else LinkedMap.ToMap(p.CacheKeys()) - {key}
  {
    LinkedMap.ToMapPut(p.entries, key, Entry(value, cacheKey));
    ValuesOfUpdate(p.AsMap(), key, Entry(value, cacheKey));
    CacheKeysOfUpdate(p.AsMap(), key, Entry(value, cacheKey));
  }

  /**
    `set(key, value)` without a cache key, followed by `build()`: the cache key
    of `key` is the value's string form, or null for a null value, so
    `cacheKeys()` holds `key` exactly when the value is non-null.
   */
  lemma SetDefaultThenLookup<V>(p: Parameters<V>, key: string, value: Option<V>, toString: V -> string)
    ensures var q := Parameters(LinkedMap.Put(p.entries, key, Entry(value, DefaultCacheKey(value, toString))));
      && q.Value(key) == value
      && q.CacheKey(key) == (if value.Some? then Some(toString(value.value)) else None)
      && (key in LinkedMap.ToMap(q.CacheKeys()) <==> value.Some?)
      && (value.Some? ==> LinkedMap.ToMap(q.CacheKeys())[key] == toString(value.value))
  {
    SetThenLookup(p, key, value, DefaultCacheKey(value, toString));
    SetThenProjections(p, key, value, DefaultCacheKey(value, toString));
  }

  /**
    `remove(key)` followed by `build()`: `key` has no mapping any more, every
    other key keeps its entry, the count drops by one exactly when `key` was
    present, and removing an absent key changes nothing at all.
   */
  lemma RemoveThenLookup<V>(p: Parameters<V>, key: string)
    ensures var q := Parameters(LinkedMap.Delete(p.entries, key));
      && q.EntryOf(key) == None && q.Value(key) == None && q.CacheKey(key) == None
      && (forall k :: k != key ==> q.EntryOf(k) == p.EntryOf(k))
      && q.Count() == (if p.EntryOf(key).Some? then p.Count() - 1 else p.Count())
      && (p.EntryOf(key).None? ==> q == p)
  {
    var m := p.AsMap();
    LinkedMap.ToMapDelete(p.entries, key);
    if key in m {
      assert (m - {key}).Keys + {key} == m.Keys;
    } else {
      LinkedMap.DeleteAbsent(p.entries, key);
    }
  }

  /** `remove(key)` followed by `build()`, seen through the projections: both lose `key` and nothing else. */
  lemma RemoveThenProjections<V>(p: Parameters<V>, key: string)
    ensures var q := Parameters(LinkedMap.Delete(p.entries, key));
      && LinkedMap.ToMap(q.Values()) == LinkedMap.ToMap(p.Values()) - {key}
      && LinkedMap.ToMap(q.CacheKeys()) == LinkedMap.ToMap(p.CacheKeys()) - {key}
  {
    LinkedMap.ToMapDelete(p.entries, key);
    ValuesOfRemove(p.AsMap(), key);
    CacheKeysOfRemove(p.AsMap(), key);
  }

  /** Two `Parameters` are `equals` exactly when every key yields the same entry from both. */
  lemma EqualsByEntries<V>(p: Parameters<V>, q: Parameters<V>)
    ensures p.Equals(q) <==> forall k :: p.EntryOf(k) == q.EntryOf(k)
  {
    if p.Equals(q) {
      forall k ensures p.EntryOf(k) == q.EntryOf(k) {
        if k in p.AsMap() {
          assert p.EntryOf(k) == Some(p.AsMap()[k]);
        }
      }
    }
    if forall k :: p.EntryOf(k) == q.EntryOf(k) {
      forall k ensures LinkedMap.Get(p.entries, k) == LinkedMap.Get(q.entries, k) {
        assert p.EntryOf(k) == q.EntryOf(k);
      }
      LinkedMap.SameLookupsSameMap(p.entries, q.entries);
    }
  }

  /**
    Setting two distinct keys in either order builds `Parameters` that are
    `equals`, although, when both keys are new, they iterate in different orders.
   */
  lemma EqualsIgnoresSetOrder<V>(p: Parameters<V>, k1: string, e1: Entry<V>, k2: string, e2: Entry<V>)
    requires k1 != k2
    ensures var a := Parameters(LinkedMap.Put(LinkedMap.Put(p.entries, k1, e1), k2, e2));
            var b := Parameters(LinkedMap.Put(LinkedMap.Put(p.entries, k2, e2), k1, e1));
      && a.Equals(b)
      && (p.EntryOf(k1).None? && p.EntryOf(k2).None? ==> a.Iterator() != b.Iterator())
  {
    var s := p.entries;
    var a := LinkedMap.Put(LinkedMap.Put(s, k1, e1), k2, e2);
    var b := LinkedMap.Put(LinkedMap.Put(s, k2, e2), k1, e1);
    LinkedMap.SameLookupsSameMap(a, b);
    if p.EntryOf(k1).None? && p.EntryOf(k2).None? {
      LinkedMap.PutNew(s, k1, e1);
      LinkedMap.PutNew(s + [(k1, e1)], k2, e2);
      LinkedMap.PutNew(s, k2, e2);
      LinkedMap.PutNew(s + [(k2, e2)], k1, e1);
      assert a[|s|] == (k1, e1) && b[|s|] == (k2, e2);
    }
  }

  /**
    Copy-on-write, as a caller sees it: a builder made by `newBuilder()` starts
    from the source's entries, a snapshot taken by `build()` keeps what the
    builder held at that moment though the builder is edited afterwards, and
    the source itself is a value that no builder can change.
   */
  method CopyOnWrite<V(==)>(source: Parameters<V>, key: string, value: Option<V>, cacheKey: Option<string>)
    returns (edited: Parameters<V>, removed: Parameters<V>)
    ensures edited.AsMap() == source.AsMap()[key := Entry(value, cacheKey)]
    ensures removed.AsMap() == source.AsMap() - {key}
  {
    var b := source.NewBuilder();
    b := b.Set(key, value, cacheKey);
    edited := b.Build();
    b := b.Remove(key);
    removed := b.Build();
  }
}
