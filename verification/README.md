# csrkey-cache in Dafny

A model of `csrkey-cache`, a small TypeScript library that wraps a key-value
cache and hands out a cryptographically secure random key for every value it
stores. `set(val, expire?)` draws `keylength` random bytes (32 by default),
encodes them in base64, draws again while the backing cache already `has`
that key, stores the value under the fresh key, and returns the key, or
`false` when the backing cache did not keep the write. `get`, `has` and `del`
hand the call to the backing cache. The factory resolves the configuration:
a `cache` option that has `set`, `get`, `del` and `has` functions is used
as-is, and anything else is taken as options for a default LRU cache
(1024 entries, 15-minute max age). The `csrng` option falls back to the
host's `crypto.randomBytes`.

The model is functional. It has these parts:

- `Backing.Store` is the backing cache: a map from keys to values, plus an
  `admits` policy that lets a write be silently declined.
- `Random.Source` is the random generator, an oracle stream: `gen(i, n)` is
  what the `i`-th call returns when asked for `n` bytes.
- The operations in `KeyCache` return their result, the instance afterwards,
  and the log of calls they made on the two collaborators.
- `getNewKey` retries without bound. Its termination is a precondition,
  `EventuallyFree`: some unused draw encodes to a key the cache does not hold.
- `Config.Factory` holds the module-level `lruDefaults` object as explicit
  state, because `getLruCache` writes the caller's LRU options into it.

Files:

- `wrappers.dfy`: `Option`.
- `js.dfy`: JavaScript values, truthiness, property reads, tslib `__assign`.
- `config.dfy`: `getInstance`, `isCache`, `getLruCache` and the defaults.
- `random.dfy`: bytes and the random source.
- `base64.dfy`: the base64 encoder of section 4 of RFC 4648.
- `backing.dfy`: the backing cache contract.
- `keycache.dfy`: the facade: `getNewKey`, `set`, `get`, `has`, `del`.
- `keycache_props.dfy`: properties that span several calls.

Two behaviours of the code are easy to miss, and the model keeps both:

- **Shared LRU defaults.** Default caches built by separate factory calls
  are not independent. `getLruCache` merges the caller's LRU options into
  the module-level `lruDefaults` object itself (src/index.ts:253). So an
  option given to one factory call carries over into every later default
  cache, until some later call gives that option again. `Config.LruOptionLeaks` proves this in
  general. `Config.LeakExample` shows one case: after `{cache: {max: 2}}`, a
  call with no configuration gets `max: 2`. This is the source's behaviour,
  and the model does not correct it.
- **Explicit `undefined` keylength.** `{keylength: undefined}` does not fall
  back to 32. `assign` copies an own property even when its value is
  `undefined`, so it replaces the default (src/index.ts:193).
  `Config.GetInstance` states this.

## Model

| member | source | states |
|---|---|---|
| Js.Assign | src/index.ts:193 | the merged object has the keys of both; the source's own fields win and every other target field is kept |
| Config.GetLruCache | src/index.ts:252-254 | the options given to `LRU` are the module defaults overridden field by field by the caller's own fields, and the module defaults become exactly those options |
| Config.GetInstance | src/index.ts:191-199 | keylength is the caller's own field if present (even `undefined`), else 32; the cache is used as-is exactly when `isCache` holds of the caller's `cache` field, and the module state is then untouched; otherwise the LRU options and the new module state are what `getLruCache` makes of that field, so exactly the defaults' keys and the field's own keys, with the field's values winning; `csrng` is the caller's value when truthy, else the host generator |
| Config.IsCacheExactly | src/index.ts:239-245 | `isCache(v)` holds exactly when `v` is an object whose `set`, `get`, `del` and `has` all read as functions; no primitive qualifies |
| Config.NoConfiguration | src/index.ts:179-199 | with no configuration on a freshly loaded module: 32-byte keys, the host generator, and an LRU cache with max 1024 and maxAge 900000 ms |
| Config.LruDefaultsFieldByField | src/index.ts:247-253 | on a freshly loaded module, an LRU option the caller leaves out keeps its default (max 1024, maxAge 900000) |
| Config.LruDefaultPersists | src/index.ts:247-253 | a field of the module's LRU defaults reaches every later default cache until some call sets that field again |
| Config.GivenOptionBecomesDefault | src/index.ts:252-254 | a factory call that gives LRU option `p` leaves that value in the module's defaults |
| Config.DefaultKeptUnlessGiven | src/index.ts:252-254 | a factory call that does not give LRU option `p` leaves its default value unchanged |
| Config.LeakFromFirst | src/index.ts:252-254 | an LRU option the first call gives is seen by every later default cache until some call gives it again |
| Config.LruOptionLeaks | src/index.ts:252-254 | an LRU option given to one factory call is the value seen by every later default cache, until some later call gives that option again |
| Config.LeakExample | src/index.ts:247-254 | after a call with `{cache: {max: 2}}`, a call with no configuration gets a default cache of max 2 and maxAge 900000 |
| Random.Draw | src/index.ts:69-77 | one call consumes exactly one draw of the stream and leaves the stream otherwise unchanged; a generator that keeps its promise returns `length` bytes |
| Base64.Encode | src/index.ts:234 | n bytes encode to 4·⌈n/3⌉ characters, each from the base64 alphabet or the `=` pad |
| Backing.Set | src/index.ts:138-147 | after a write, the key is present exactly when the policy admits the write or the key was already there; an admitted value reads back; every other key reads as before |
| Backing.Get | src/index.ts:156-165 | yields a value exactly when the key is present, and that value is the one stored under the key |
| Backing.Del | src/index.ts:148-155 | the key is absent afterwards and every other key reads as before |
| KeyCache.NewKey | src/index.ts:232-236 | the key is the encoding of the last draw consumed; the cache did not hold it; every earlier draw collided; at least one draw is consumed; the calls alternate one `keylength`-byte request with one `has` probe of that draw's key |
| KeyCache.Set | src/index.ts:201-205 | only the backing cache and the generator's position change; every draw before the last collided, so no free draw is skipped; the key is the encoding of the last draw and was absent before, so nothing is overwritten; the calls are the key search, then exactly one backing `set` with the key, `val` and `expire` unchanged, then one `has`; the result is the key exactly when the backing cache admitted the write, and `false` otherwise; on success the cache gains exactly that entry, and on `false` it is unchanged |
| KeyCache.Get | src/index.ts:211-213 | yields the stored value exactly when the key is present; no randomness drawn, nothing changed, one backing `get` |
| KeyCache.Has | src/index.ts:215-217 | true exactly when the key is present; no randomness drawn, nothing changed, one backing `has` |
| KeyCache.Del | src/index.ts:207-209 | only that key is removed and nothing else in the instance changes; no randomness drawn; one backing `del` |
| KeyCache.Construct | src/index.ts:219-234 | an instance exists exactly for a non-negative integer `keylength`, which becomes the byte count asked of the generator; keys are base64; the cache and generator are the ones given |
| KeyCacheProps.AttemptsDraw | src/index.ts:232-235 | n attempts make exactly n requests to the generator, each for `keylength` bytes |
| KeyCacheProps.SetAfterCollisions | src/index.ts:201-236 | if the first N draws collide and draw N+1 does not, `set` consumes exactly N+1 draws, makes N+1 generator requests, writes under the key of draw N+1, and returns that key exactly when the write is admitted |
| KeyCacheProps.SetThenGet | src/index.ts:201-213 | `get` of the key a successful `set` returned yields the stored value |
| KeyCacheProps.SetThenDel | src/index.ts:201-209 | `del` of the key a successful `set` returned restores the backing cache's previous contents |
| KeyCacheProps.SetThenHas | src/index.ts:201-217 | `has` of the key a successful `set` returned is true |
| KeyCacheProps.DelThenHas | src/index.ts:207-217 | `has` of a key right after `del` of it is false |
| KeyCacheProps.SetOnlyAdds | src/index.ts:201-205 | `set` removes no entry, and a key it returns is new and present afterwards |
| KeyCacheProps.SetAllFresh | src/index.ts:201-205 | over a run of `set` calls without `del`, no entry is lost, and every returned key was absent before the run and is present after it |
| KeyCacheProps.SetAllDistinct | src/index.ts:232-236 | over a run of `set` calls without `del`, no two returned keys are equal |
| KeyCacheProps.DefaultKeyShape | src/index.ts:233-234 | with 32-byte draws, an honest generator and base64 keys, every draw encodes to 44 characters from the base64 alphabet or the pad, so every key `set` returns has that shape |
| KeyCacheProps.DefaultInstanceKeys | src/index.ts:179-199 | the instance built from no configuration asks for 32 bytes per key and encodes in base64, so with an honest generator every key has 44 characters of the base64 alphabet or the pad |

## Left out

- The LRU cache (`lru-cache`) is a separate library. The model does not cover its eviction, its expiry clock, its size function or its stale reads. The backing cache is only its four-operation contract, and `admits` decides whether a write is kept.
- Backing.Set: an LRU cache that declines an oversized value also drops any value already under that key. The model's declined write changes nothing. Because `set` writes only fresh keys, this makes no difference to the facade.
- Backing.Set: a write that evicts OTHER entries, as an LRU cache at capacity does, is not modelled. A write touches only its own key. So `SetAllFresh` and `SetAllDistinct` describe a cache that does not evict during the run. The source makes no promise beyond that either.
- The `expire` argument is passed through as an opaque value (`Backing.Expire`). Expiry between the write and the `has` check is a matter of time, and the model has no clock.
- The random generator is an oracle stream. What happens when it throws, or when `keylength` is not a non-negative integer, is up to the generator, so the facade takes `keylength` as a `nat`. The resolved configuration keeps the caller's raw `keylength` value, as the source does.
- KeyCache.Construct: a `keylength` that is not a non-negative integer (`undefined`, a negative number, a string) gives no instance, because what `randomBytes` does with it is the generator's business, which the model does not describe.
- KeyCache.NewKey: the source's retry is recursion, so a long enough run of collisions would overflow the JavaScript stack. The model assumes only that the stream eventually yields a free key (`EventuallyFree`).
- KeyCache.NewKey: a `keylength` of 0 is accepted. Every draw then encodes to the empty key, so the first `set` returns `""`, which JavaScript treats as falsy. Every later `set` in the source recurses until the stack overflows, and in the model its `EventuallyFree` precondition does not hold.
- The key encoding is a field of the instance. The source always uses `Buffer.from(rnd).toString('base64')`, which `Base64.Encode` implements. `KeyCache.Construct` sets it to `Base64.Encode`, as the constructor does. Only `DefaultKeyShape` and `DefaultInstanceKeys` depend on which encoding is used. Base64 decoding is never used by the library and is not modelled.
- JavaScript numbers are integers here, so NaN and -0 are not modelled. Three things about property enumeration are not modelled either: a string's index properties, which `for…in` would copy; properties attached to function objects; and enumerability itself. `Js.Value` has no non-enumerable properties, so `Read` and `Assign` treat every own property alike, whereas `__assign` skips non-enumerable ones. Property getters that throw are not modelled.
- `require('crypto')` and the `LRU(...)` constructor are foreign calls. The model stops at the choice of generator and at the options object handed to `LRU`.
- Sharing one backing cache between several instances, and any concurrent use, are not modelled.
- `getCsrKeyCache` (src/index.ts:261) is the same function as `getInstance`. `spec/karma-coverage.conf.js` is test tooling with no behaviour to model.
