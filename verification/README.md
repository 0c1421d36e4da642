# coil request `Parameters`, modelled in Dafny

coil is an image-loading library. A request carries a `Parameters` object:
an immutable table from string keys to `Entry(value, cacheKey)` pairs, which
the pipeline's fetchers and decoders read by key. A parameter whose cache key
is non-null contributes that key to the request's cache identity; one whose
cache key is null is stored but left out. Every edit goes through a
`Parameters.Builder`. The builder holds a mutable copy of the table, edits it
in place with `set` and `remove`, and freezes a snapshot with `build`.

The model has three modules:

- `Wrappers` (`wrappers.dfy`) defines `Option`. Its `None` is Kotlin's `null`.
- `LinkedMap` (`linked_map.dfy`) models the insertion-ordered maps the Kotlin
  code relies on. The maps that `mutableMapOf`, `toMutableMap`, `toMap` and
  `mapValues` produce all keep insertion order.
  - A map is a sequence of key/value pairs with distinct keys (`UniqueKeys`,
    the subset type `Linked`).
  - Its abstract value is `ToMap`.
  - `Put` is `map[key] = v`: it overwrites in place or appends at the end.
  - `Delete` is `map.remove(key)`.
  - `MapValues` is `mapValues`.
  - `MapNotNullValues` is coil's `mapNotNullValues`.
  - The lemmas tie each operation to its effect on the abstract map and on
    the iteration order.
- `Request` (`parameters.dfy`) models `Parameters.kt` itself.
  - `Entry` is a datatype.
  - `Parameters` is a datatype over a `Table` (a `Linked` sequence), with the
    query functions of the source.
  - `Builder` is a class whose `entries` field is the source's `MutableMap`.
    `Set`, `SetWithDefaultCacheKey` and `Remove` reassign that field, declare
    `modifies this`, and return the builder itself, as Kotlin's `apply` does.

A `Parameters` is a Dafny value, so a built snapshot cannot alias a
builder's table. Copy-on-write holds by construction: `Build` and
`NewBuilder`/`Builder.From` copy the sequence. `CopyOnWrite` states the
property from a caller's side.

Stored values are of a type parameter `V`. The source's `Any?` is `Option<V>`.
The JVM's `toString()`, used for the default cache key, is a function
parameter `toString: V -> string`.

`value(key)` and `cacheKey(key)` are documented as returning null when `key`
has no mapping. The code also returns null for a mapped key whose stored
value (or cache key) is null. The contracts state both cases: absent key
gives null, present key gives the stored field. Only `entry(key)` is null
exactly when the key is absent.

## Model

| member | source | states |
|---|---|---|
| `LinkedMap.Get` | coil-base/src/main/java/coil/request/Parameters.kt:31-37 | `map[key]` is null exactly when the key is absent, and otherwise is a value stored under that key |
| `LinkedMap.GetAt` | coil-base/src/main/java/coil/request/Parameters.kt:37 | in a map with distinct keys, looking up a stored key yields that key's stored value |
| `LinkedMap.ToMap` | coil-base/src/main/java/coil/request/Parameters.kt:12 | the abstract map has exactly the sequence's keys, and each maps to what lookup returns |
| `LinkedMap.SameLookupsSameMap` | coil-base/src/main/java/coil/request/Parameters.kt:71 | two tables whose lookups agree on every key have equal abstract maps |
| `LinkedMap.ToMapSize` | coil-base/src/main/java/coil/request/Parameters.kt:40 | with distinct keys, the number of pairs is the size of the abstract map |
| `LinkedMap.Put` | coil-base/src/main/java/coil/request/Parameters.kt:105 | after `map[k] = w`, `k` maps to `w`, every other key's lookup is unchanged, and distinct keys stay distinct |
| `LinkedMap.PutNew` | coil-base/src/main/java/coil/request/Parameters.kt:105 | a new key is appended at the end of the iteration order |
| `LinkedMap.PutAt` | coil-base/src/main/java/coil/request/Parameters.kt:105 | an existing key keeps its position and only its value is replaced |
| `LinkedMap.ToMapPut` | coil-base/src/main/java/coil/request/Parameters.kt:105 | the abstract effect of `Put` is the map update `m[k := w]` |
| `LinkedMap.Delete` | coil-base/src/main/java/coil/request/Parameters.kt:114 | after `map.remove(k)`, `k` is absent, every other key's lookup is unchanged, and distinct keys stay distinct |
| `LinkedMap.DeleteAbsent` | coil-base/src/main/java/coil/request/Parameters.kt:114 | removing an absent key leaves the table identical |
| `LinkedMap.DeleteAt` | coil-base/src/main/java/coil/request/Parameters.kt:114 | removing a stored key cuts exactly its pair out and keeps the order of the rest |
| `LinkedMap.ToMapDelete` | coil-base/src/main/java/coil/request/Parameters.kt:114 | the abstract effect of `Delete` is the map removal `m - {k}` |
| `LinkedMap.MapValues` | coil-base/src/main/java/coil/request/Parameters.kt:50 | `mapValues` keeps the keys and their order and transforms each looked-up value |
| `LinkedMap.ToMapMapValues` | coil-base/src/main/java/coil/request/Parameters.kt:50 | the abstract map of `mapValues` is the original map with each value transformed |
| `LinkedMap.MapNotNullValues` | coil-base/src/main/java/coil/request/Parameters.kt:59 | `mapNotNullValues` introduces no key, keeps keys distinct, and looks up the transformed value, dropping keys whose transformed value is null |
| `LinkedMap.ToMapMapNotNullValues` | coil-base/src/main/java/coil/request/Parameters.kt:59 | the abstract map of `mapNotNullValues` holds exactly the keys with a non-null transformed value, mapped to it |
| `LinkedMap.MapNotNullValuesAppend` | coil-base/src/main/java/coil/request/Parameters.kt:59 | `mapNotNullValues` distributes over concatenation, so the surviving pairs keep their relative order |
| `LinkedMap.SameEntries` | coil-base/src/main/java/coil/request/Parameters.kt:71 | defines the JVM's map comparison behind `map != other.map`: same size, and every pair of one found under its key in the other. When it holds, every key of one has the same lookup in the other |
| `LinkedMap.SameEntriesIsEquality` | coil-base/src/main/java/coil/request/Parameters.kt:71 | the JVM's map comparison holds iff the abstract maps are equal. That comparison is: same size, and every pair of one found in the other |
| `LinkedMap.SameEntriesGivesEquality` | coil-base/src/main/java/coil/request/Parameters.kt:71 | same size plus containment of every pair implies equal abstract maps |
| `Request.DefaultCacheKey` | coil-base/src/main/java/coil/request/Parameters.kt:104 | defines the default argument `value?.toString()`: it is null exactly when the value is null, and otherwise is the value's string form |
| `Request.Parameters.Value` | coil-base/src/main/java/coil/request/Parameters.kt:30-31 | `value(key)` is null for an absent key and the stored value otherwise |
| `Request.Parameters.CacheKey` | coil-base/src/main/java/coil/request/Parameters.kt:33-34 | `cacheKey(key)` is null for an absent key and the stored cache key otherwise |
| `Request.Parameters.EntryOf` | coil-base/src/main/java/coil/request/Parameters.kt:36-37 | `entry(key)` is null exactly when the key is absent, and otherwise is the stored entry |
| `Request.Parameters.Count` | coil-base/src/main/java/coil/request/Parameters.kt:39-40 | `count()` is the number of keys in the table |
| `Request.Parameters.IsEmpty` | coil-base/src/main/java/coil/request/Parameters.kt:42-43 | `isEmpty()` holds iff `count() == 0`, and iff the table is the empty map |
| `Request.Parameters.Values` | coil-base/src/main/java/coil/request/Parameters.kt:45-52 | `values()` has the same keys in the same order, each mapped to its entry's value, null values included |
| `Request.Parameters.CacheKeys` | coil-base/src/main/java/coil/request/Parameters.kt:54-61 | `cacheKeys()` holds exactly the keys whose cache key is non-null, each mapped to that cache key, and no other key |
| `Request.Parameters.Iterator` | coil-base/src/main/java/coil/request/Parameters.kt:63-66 | iteration yields the table's keys in insertion order, each exactly once and paired with its stored entry |
| `Request.Parameters.Equals` | coil-base/src/main/java/coil/request/Parameters.kt:68-73 | `equals` holds iff both hold the same key-to-entry map, whatever their iteration orders |
| `Request.Parameters.NewBuilder` | coil-base/src/main/java/coil/request/Parameters.kt:77 | `newBuilder()` returns a fresh builder holding exactly these entries |
| `Request.Empty` | coil-base/src/main/java/coil/request/Parameters.kt:15-18 | `Parameters()` / `EMPTY` is empty, has count 0, and has empty `values()` and `cacheKeys()` |
| `Request.Builder.constructor` | coil-base/src/main/java/coil/request/Parameters.kt:88-90 | `Builder()` starts with no entries |
| `Request.Builder.From` | coil-base/src/main/java/coil/request/Parameters.kt:92-94 | `Builder(parameters)` starts with exactly the source's entries, in its order |
| `Request.Builder.Set` | coil-base/src/main/java/coil/request/Parameters.kt:103-106 | `set` puts the entry into the builder's table, which becomes the old map updated at `key`, and returns the builder itself |
| `Request.Builder.SetWithDefaultCacheKey` | coil-base/src/main/java/coil/request/Parameters.kt:103-106 | `set(key, value)` stores the entry whose cache key is the value's string form, or null for a null value |
| `Request.Builder.Remove` | coil-base/src/main/java/coil/request/Parameters.kt:113-115 | `remove` deletes the key from the builder's table, which becomes the old map minus `key`, and returns the builder itself |
| `Request.Builder.Build` | coil-base/src/main/java/coil/request/Parameters.kt:117-118 | `build()` returns a snapshot with the builder's current entries |
| `Request.SetThenLookup` | coil-base/src/main/java/coil/request/Parameters.kt:104-106 | after `set(k, v, c)` and `build()`: `entry(k)` is `Entry(v, c)`, `value(k) == v`, `cacheKey(k) == c`, and every other key's entry is unchanged. The count grows by one iff `k` was new |
| `Request.ValuesOfUpdate` | coil-base/src/main/java/coil/request/Parameters.kt:45-52 | updating one key of the table updates only that key of `values()` |
| `Request.CacheKeysOfUpdate` | coil-base/src/main/java/coil/request/Parameters.kt:54-61 | updating one key of the table updates only that key of `cacheKeys()`, or drops it there when the new cache key is null |
| `Request.ValuesOfRemove` | coil-base/src/main/java/coil/request/Parameters.kt:45-52 | removing a key of the table removes only that key from `values()` |
| `Request.CacheKeysOfRemove` | coil-base/src/main/java/coil/request/Parameters.kt:54-61 | removing a key of the table removes only that key from `cacheKeys()` |
| `Request.SetThenProjections` | coil-base/src/main/java/coil/request/Parameters.kt:104-106 | after `set(k, v, c)` and `build()`, `values()` maps `k` to `v`. `cacheKeys()` maps `k` to `c`, or omits `k` when `c` is null. No other key changes in either |
| `Request.SetDefaultThenLookup` | coil-base/src/main/java/coil/request/Parameters.kt:104 | after `set(k, v)` and `build()`, `cacheKey(k)` is `v`'s string form, or null when `v` is null. `cacheKeys()` holds `k` iff `v` is non-null |
| `Request.RemoveThenLookup` | coil-base/src/main/java/coil/request/Parameters.kt:113-115 | after `remove(k)` and `build()`: `k` is unmapped and other keys are unchanged. The count drops by one iff `k` was present. Removing an absent key changes nothing |
| `Request.RemoveThenProjections` | coil-base/src/main/java/coil/request/Parameters.kt:113-115 | after `remove(k)` and `build()`, `values()` and `cacheKeys()` lose `k` and nothing else |
| `Request.EqualsByEntries` | coil-base/src/main/java/coil/request/Parameters.kt:68-73 | two `Parameters` are `equals` iff every key yields the same `entry` from both |
| `Request.EqualsIgnoresSetOrder` | coil-base/src/main/java/coil/request/Parameters.kt:68-73 | setting two distinct keys in either order gives `equals` results. When both keys are new, the two results still iterate in different orders |
| `Request.CopyOnWrite` | coil-base/src/main/java/coil/request/Parameters.kt:92-118 | editing a builder from `newBuilder()` leaves the source as it was. A snapshot from `build()` keeps its contents through later `remove`s on the same builder |

## Left out

- `hashCode()` (line 75) depends on the JVM hashing of arbitrary objects. Equality is modelled as equality of the abstract maps.
- `Request.Parameters.Equals`: the reference-identity shortcut (line 69) is not modelled, since a Dafny datatype has no identity. Neither is the type test against a non-`Parameters` argument (line 70), since the model's argument is always a `Parameters`.
- The deprecated `invoke` operator (lines 20-27) is left out. It is `Builder().apply(block).build()`, which the `Builder` members already cover.
- The `@JvmField` and `@JvmOverloads` annotations are Java interop only. The default argument of `set` is modelled by `SetWithDefaultCacheKey`.
- `toString()` of arbitrary values is a foreign JVM call. It is the parameter `toString: V -> string`.
- `Request.Parameters.Count`: `count()` returns a 32-bit `Int`; the model's count is unbounded. A JVM map cannot hold more than `Int.MAX_VALUE` entries, so no wrap-around can occur.
- `mapNotNullValues` (coil's `coil.util`) is not part of this model. Only its effect is modelled, and `LinkedMap.MapNotNullValues` assumes it keeps the source order, as a loop into a `LinkedHashMap` does.
- `toMap()` returns different concrete map classes for sizes 0, 1 and more. The model keeps only contents and order, which all of them share.
- Values are Dafny values. A mutable object stored as a parameter value, and mutated behind the table's back, is outside the model.
- The `Fetcher` and `Decoder` consumers are not part of this model, and neither is thread confinement of a `Builder`.
