# cachex cache facade, modelled in Dafny

This project models the core of cachex's cache facade. It has two parts.

`CacheManager` is a registry of named `ICache` backends with a default. It dispatches single and batch reads, writes and removes to the backend a cache name resolves to, and it contains every failure.

`ResultConvertUtils` turns the raw cache-key → value map of a batch read into an id-keyed map or a plain collection. On the way it drops the anti-penetration placeholder (`PreventObjects`).

Files:

- `base.dfy`: `Option` and `Result`, which stand for Java's null and exceptions. It also holds `CacheValue`, whose constructor `Prevent` is the placeholder.
- `linked.dfy`: Java's `LinkedHashMap` and `LinkedHashSet` (insertion order, and `put`/`add` keep a present key in place). It also defines "listed in order of first occurrence".
- `cache_manager.dfy`: the `CacheManager` class with its two fields, `defaultCache` and `cachePool`. It also has the backend oracle, the batch partition `Partition`, and the lemmas about them.
- `result_convert.dfy`: `toMap` and `toCollection`. Both are pure functions over the raw map's entries in iteration order.

The backend is an abstract `Oracle`: for each backend reference and each call, it either answers or `Raised` (throws). Every dispatch method returns three things:

- its Java result;
- the backend `Call` it issued (`sent`), or `None` when it issued none;
- the `Failure` it caught and logged (`caught`).

So "no backend call" and "the failure never reaches the caller" are postconditions of the dispatch methods.

`getCacheImpl` throws `CacheXException` for an unregistered name (CacheManager.java:152-154). Every operation calls it inside its `try`, so that exception is caught like a backend failure and degrades to null, an empty result or a no-op. The model does the same: `caught == Some(NoSuchCache(name))`.

## Model

| member | source | states |
|---|---|---|
| `Manager.CacheManager.constructor` | src/main/java/com/github/cachex/manager/CacheManager.java:27-29 | a new manager has a null default and an empty pool, and satisfies the registry invariant |
| `Manager.CacheManager.SetCachePool` | src/main/java/com/github/cachex/manager/CacheManager.java:31-38 | the default becomes the first entry in iteration order; the pool becomes the old pool overwritten by `(name, cache)` for every registered name, and other names keep their pairs; resolving a registered non-empty name then gives exactly its pair, and the empty name gives the first entry; an empty map throws before anything is assigned; the registry invariant is kept |
| `Manager.PoolOf` | src/main/java/com/github/cachex/manager/CacheManager.java:37 | the pool the `forEach` of `put`s builds keys every entry by its own name |
| `Manager.PoolOfDomain` | src/main/java/com/github/cachex/manager/CacheManager.java:37 | the `put` loop's pool holds exactly the registered names, and each entry is keyed by its own name |
| `Manager.PoolOfRegisters` | src/main/java/com/github/cachex/manager/CacheManager.java:37 | every registered name maps to the pair of that name and its own backend |
| `Manager.PoolMerge` | src/main/java/com/github/cachex/manager/CacheManager.java:29-37 | putting the registrations over an already filled pool registers each name with its own pair, and keeps every pool entry keyed by its name |
| `Manager.CacheManager.GetCacheImpl` | src/main/java/com/github/cachex/manager/CacheManager.java:148-156 | a null or empty name gives the default (a failure while the default is still null); a non-empty name gives its registered pair exactly when it is registered, and is never replaced by the default; an unregistered name fails with `NoSuchCache(name)` and the pool is left as it was; a resolved pair is always one of the pool's entries |
| `Manager.CacheManager.ReadSingle` | src/main/java/com/github/cachex/manager/CacheManager.java:40-56 | resolves the name and issues exactly one single read to that backend, returning its value; an unknown name issues no call; any caught failure yields null without raising |
| `Manager.CacheManager.WriteSingle` | src/main/java/com/github/cachex/manager/CacheManager.java:58-74 | a null value makes no backend call; otherwise one write of that key, value and expiry goes to the resolved backend; a failure is caught exactly when the backend throws, the name is unknown (`NoSuchCache`), or the name is null or empty while the default is still null (`NullDefault`) |
| `Manager.CacheManager.ReadBatch` | src/main/java/com/github/cachex/manager/CacheManager.java:76-112 | no keys gives the empty result and no backend call; otherwise one batch read goes to the resolved backend, and its map is split by `Partition` over the request keys (the loop is proved against `Partition`); an unknown name or a backend failure gives the empty result without raising |
| `Manager.CacheManager.WriteBatch` | src/main/java/com/github/cachex/manager/CacheManager.java:114-128 | the whole map is forwarded to the resolved backend, even when it is empty; a failure is caught exactly when the backend throws, the name is unknown (`NoSuchCache`), or the name is null or empty while the default is still null (`NullDefault`) |
| `Manager.CacheManager.Remove` | src/main/java/com/github/cachex/manager/CacheManager.java:130-146 | a null or empty key array makes no backend call; otherwise one remove of those keys goes to the resolved backend; failures are caught |
| `Manager.Partition` | src/main/java/com/github/cachex/manager/CacheManager.java:90-101 | the hit map and miss set the loop builds are well-formed insertion-ordered containers (no key listed twice), and together they hold no more keys than were requested |
| `Manager.PartitionMembership` | src/main/java/com/github/cachex/manager/CacheManager.java:93-101 | every requested key lands in exactly one of hit map and miss set; it is a hit exactly when the backend map holds a non-null value for it, and the hit map stores that same value; unrequested keys land in neither |
| `Manager.PartitionOrder` | src/main/java/com/github/cachex/manager/CacheManager.java:90-101 | the hit map's keys and the miss set's keys are each free of repetition, and each lists its keys in the order of their first occurrence in the request |
| `Manager.FullShotKeepsOrder` | src/main/java/com/github/cachex/manager/CacheManager.java:90-101 | when every key of a repetition-free request hits, the hit map's keys are the request in order, and nothing is missed |
| `ResultConvert.Collect` | src/main/java/com/github/cachex/utils/ResultConvertUtils.java:20-26 | the map built by `put(id, value)` over the surviving entries is a well-formed insertion-ordered map with no placeholder value |
| `ResultConvert.ToMap` | src/main/java/com/github/cachex/utils/ResultConvertUtils.java:17-29 | the result holds no placeholder value; its contents are those of `Collect`; the linked flavour is exactly `Collect`'s insertion-ordered map (whose key order `ToMapOrder` states), and the hash flavour keeps only its contents |
| `ResultConvert.ToMapKeys` | src/main/java/com/github/cachex/utils/ResultConvertUtils.java:21-26 | the result's keys are exactly the ids (`keyIdMap.get`, null for an unmapped key) of the entries whose value is not the placeholder |
| `ResultConvert.ToMapLastWins` | src/main/java/com/github/cachex/utils/ResultConvertUtils.java:23-26 | a surviving entry whose id no later surviving entry shares maps, in the result, to its own value: when cache keys share an id, the later entry in iteration order wins |
| `ResultConvert.ToMapOrder` | src/main/java/com/github/cachex/utils/ResultConvertUtils.java:21-26 | the linked flavour lists its keys in the order in which their ids first occur among the surviving entries, without repetition; a shared id keeps the place of its first entry |
| `ResultConvert.ToMapSize` | src/main/java/com/github/cachex/utils/ResultConvertUtils.java:21-26 | if the ids of the entries are distinct and no value is the placeholder, the result has as many entries as the raw map |
| `ResultConvert.Retained` | src/main/java/com/github/cachex/utils/ResultConvertUtils.java:35-37 | the values the filtered stream adds contain no placeholder, and there are no more of them than raw entries |
| `ResultConvert.ToCollection` | src/main/java/com/github/cachex/utils/ResultConvertUtils.java:31-40 | the result contains no placeholder; the list flavour is the filtered values in order; the set flavour is the set of them |
| `ResultConvert.ToCollectionInOrder` | src/main/java/com/github/cachex/utils/ResultConvertUtils.java:34-37 | the list flavour is exactly the non-placeholder values of the raw map, in iteration order: a strictly increasing index sequence picks every surviving entry and no other |
| `ResultConvert.ToCollectionCount` | src/main/java/com/github/cachex/utils/ResultConvertUtils.java:34-37 | the list flavour's length equals the number of raw entries whose value is not the placeholder |
| `ResultConvert.ToCollectionMembers` | src/main/java/com/github/cachex/utils/ResultConvertUtils.java:34-37 | the set flavour holds a value exactly when that value is not the placeholder and some raw entry holds it |

Both conversions are pure functions of their arguments. So neither can change `cacheMap` or `keyIdMap`. `getCacheImpl` is a function that only reads the manager. So the failed `computeIfAbsent` inserts nothing into `cachePool`.

## Left out

- Timing and logging: the wall-clock reads and the logger calls have no effect on the results. The model keeps only which failure was caught (`caught`).
- Concrete `ICache` backends and their I/O: they are the `Oracle` parameter. A backend that answers a batch read with a null map makes `readBatch` throw inside its `try`; the oracle's `Raised` covers that case.
- Guice injection and the thread safety of `ConcurrentHashMap`: the model is sequential, and the pool is a plain `map`.
- `MapSuppliers` and `CollectionSupplier` (reflective instantiation and `convertInstanceType`) are not part of this model. They are replaced by the flavours `HashMapKind`/`LinkedHashMapKind` and `ListKind`/`SetKind`. An unsupported container class therefore cannot be requested, and its error is not modelled.
- `PreventObjects` is not part of this model. Its identity test is the constructor test `IsPrevent` on `CacheValue`.
- `writeBatch` catches `Exception` where the other operations catch `Throwable`. JVM `Error`s are outside the model, so the two are the same here.
- Null keys are not modelled: keys are `string`. The Java code forwards a null key to the backend inside its `try` (CacheManager.java:45, :94, :136).
- The text of the `CacheXException` message is reduced to the cache name it carries.
- Null arguments that make the Java code throw outside its `try` are not modelled: a null key collection in `readBatch`, and a null `keyValueMap` whose logging fails in `writeBatch`'s `catch`. A null value inside a raw map given to the conversions is not modelled either. A null `defaultCache` (before `setCachePool`) is modelled: `GetCacheImpl` reports it as `NullDefault`, which stands for the `NullPointerException` the caller then hits inside its `try`.
- A registered cache named `""` stays in the pool, but it cannot be reached by name, because an empty name resolves to the default. `SetCachePool` states the round trip only for non-empty names.
