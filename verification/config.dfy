/**
 * Configuration resolution of the factory `getInstance` (src/index.ts): the
 * merge of the caller's configuration over the defaults, the duck-typed choice
 * between a caller-supplied cache and a default LRU cache, and the fallback of
 * the random generator to the host's `crypto.randomBytes`.
 *
 * The module-level `lruDefaults` object is state: `getLruCache` merges the
 * caller's LRU options INTO it and hands that same object to the LRU
 * constructor, so every later default cache starts from the merged options.
 * `Factory` makes that state explicit.
 */
module Config {
  import opened Js

  /** `configDefaults.keylength`: key length in bytes. */
  const DefaultKeyLength: int := 32
  /** `lruDefaults.max`: maximum number of entries of a default cache. */
  const DefaultMax: int := 1024
  /** `lruDefaults.maxAge`: 15 minutes, in milliseconds. */
  const DefaultMaxAge: int := 15 * 60 * 1000

  /** `configDefaults` */
  function ConfigDefaults(): map<string, Value> {
    map["keylength" := Number(DefaultKeyLength)]
  }

  /** `lruDefaults` as the module initialises it. */
  function PristineLruDefaults(): map<string, Value> {
    map["max" := Number(DefaultMax), "maxAge" := Number(DefaultMaxAge)]
  }

  /** `isCache(v)`: `v` is truthy and `v.set`, `v.get`, `v.del` and `v.has`
      are all functions. */
  predicate IsCache(v: Value) {
    && Truthy(v)
    && IsFunction(Read(v, "set")) && IsFunction(Read(v, "get"))
    && IsFunction(Read(v, "del")) && IsFunction(Read(v, "has"))
  }

  /** Which backing cache the instance uses. */
  datatype CacheChoice =
    | Provided(cache: Value)                  // the caller's object, as-is
    | DefaultLru(options: map<string, Value>) // `LRU(options)`

  /** Which random generator the instance uses. */
  datatype RngChoice =
    | Supplied(csrng: Value)  // the caller's `csrng`
    | HostRandomBytes         // `require('crypto').randomBytes`

  /** The three constructor arguments of `CsrKeyCacheClass`. */
  datatype Resolved = Resolved(cache: CacheChoice, keylength: Value, csrng: RngChoice)

  /** Module-level state that survives between factory calls. */
  datatype Factory = Factory(lruDefaults: map<string, Value>)

  /** The state of a freshly loaded module. */
  function Loaded(): Factory {
    Factory(PristineLruDefaults())
  }

  /** The value the caller supplied for option `name`: an own property of
      `config`, or `undefined`. */
  function Given(config: Value, name: string): Value {
    if name in OwnProps(config) then OwnProps(config)[name] else Undefined
  }

  /** A field of the merged options object `opts`, which is a plain object:
      a name it does not own reads `undefined`. */
  function Field(opts: map<string, Value>, name: string): Value {
    Read(Plain(opts), name)
  }

  /** `getLruCache(opts)`: the options handed to `LRU`, which are the module's
      `lruDefaults` after `opts` has been merged into them, and the module
      state afterwards. */
  function GetLruCache(f: Factory, opts: Value): (r: (map<string, Value>, Factory))
    ensures r.1.lruDefaults == r.0
    ensures forall p :: p in r.0 <==> p in f.lruDefaults || p in OwnProps(opts)
    ensures forall p :: p in OwnProps(opts) ==> r.0[p] == OwnProps(opts)[p]
    ensures forall p :: p in f.lruDefaults && p !in OwnProps(opts) ==> r.0[p] == f.lruDefaults[p]
  {
    var merged := Assign(f.lruDefaults, opts);
    (merged, Factory(merged))
  }

  /** `getInstance(config)`: resolve the constructor arguments, threading the
      module state. `config` is `undefined` when the caller passes none. */
  function GetInstance(f: Factory, config: Value): (r: (Resolved, Factory))
    // keylength: the caller's own field when present (even if it is `undefined`), else 32
    ensures r.0.keylength
            == if "keylength" in OwnProps(config) then Given(config, "keylength")
               else Number(DefaultKeyLength)
    // a duck-typed cache is used as-is and the module state is untouched
    ensures r.0.cache.Provided? <==> IsCache(Given(config, "cache"))
    ensures r.0.cache.Provided? ==> r.0.cache.cache == Given(config, "cache") && r.1 == f
    // otherwise the caller's cache field holds LRU options, which
    // `getLruCache` merges over the module's defaults (and keeps as the new
    // defaults); its contract gives the merged options key by key
    ensures r.0.cache.DefaultLru? ==> (r.0.cache.options, r.1) == GetLruCache(f, Given(config, "cache"))
    // a falsy csrng falls back to the host generator
    ensures r.0.csrng == if Truthy(Given(config, "csrng")) then Supplied(Given(config, "csrng"))
                         else HostRandomBytes
  {
    var opts := Assign(Assign(map[], Plain(ConfigDefaults())), config);
    var cacheOpt := Field(opts, "cache");
    var csrngOpt := Field(opts, "csrng");
    var rng := if Truthy(csrngOpt) then Supplied(csrngOpt) else HostRandomBytes;
    if IsCache(cacheOpt) then
      (Resolved(Provided(cacheOpt), Field(opts, "keylength"), rng), f)
    else
      var lru := GetLruCache(f, cacheOpt);
      (Resolved(DefaultLru(lru.0), Field(opts, "keylength"), rng), lru.1)
  }

  /** Only an object whose `set`, `get`, `del` and `has` all read as
      functions is taken for a cache; in this model, where a function value
      carries no properties, a primitive or function never is. */
  lemma IsCacheExactly(v: Value)
    ensures IsCache(v) <==>
              && v.Obj?
              && IsFunction(Read(v, "set")) && IsFunction(Read(v, "get"))
              && IsFunction(Read(v, "del")) && IsFunction(Read(v, "has"))
  {
  }

  /** With no configuration at all, a freshly loaded module resolves 32-byte
      keys, the host generator, and a default LRU cache of 1024 entries
      expiring after 15 minutes. */
  lemma NoConfiguration()
    ensures GetInstance(Loaded(), Undefined).0
            == Resolved(DefaultLru(map["max" := Number(1024), "maxAge" := Number(900000)]),
                        Number(32), HostRandomBytes)
  {
  }

  /** LRU options override the defaults field by field: a field the caller
      leaves out keeps its default on a freshly loaded module. */
  lemma LruDefaultsFieldByField(config: Value)
    requires !IsCache(Given(config, "cache"))
    ensures var options := GetInstance(Loaded(), config).0.cache.options;
            && ("max" !in OwnProps(Given(config, "cache")) ==> options["max"] == Number(DefaultMax))
            && ("maxAge" !in OwnProps(Given(config, "cache")) ==> options["maxAge"] == Number(DefaultMaxAge))
  {
  }

  /** The results and module state of successive factory calls. */
  function GetInstances(f: Factory, configs: seq<Value>): (r: (seq<Resolved>, Factory))
    ensures |r.0| == |configs|
    decreases |configs|
  {
    if |configs| == 0 then ([], f)
    else
      var first := GetInstance(f, configs[0]);
      var rest := GetInstances(first.1, configs[1..]);
      ([first.0] + rest.0, rest.1)
  }

  /** `config` asks for a default LRU cache and gives its option `p`. */
  predicate GivesLruOption(config: Value, p: string) {
    !IsCache(Given(config, "cache")) && p in OwnProps(Given(config, "cache"))
  }

  /** The `j`-th of successive factory calls is the `(j-1)`-th of the calls
      after the first. */
  lemma GetInstancesShift(f: Factory, configs: seq<Value>, j: nat)
    requires 0 < j < |configs|
    ensures GetInstances(f, configs).0[j]
            == GetInstances(GetInstance(f, configs[0]).1, configs[1..]).0[j - 1]
  {
  }

  /** A call that gives LRU option `p` leaves it in the module's defaults. */
  lemma GivenOptionBecomesDefault(f: Factory, config: Value, p: string)
    requires GivesLruOption(config, p)
    ensures var next := GetInstance(f, config).1;
            p in next.lruDefaults && next.lruDefaults[p] == OwnProps(Given(config, "cache"))[p]
  {
  }

  /** A call that does not give LRU option `p` keeps its default. */
  lemma DefaultKeptUnlessGiven(f: Factory, config: Value, p: string)
    requires p in f.lruDefaults && !GivesLruOption(config, p)
    ensures var next := GetInstance(f, config).1;
            p in next.lruDefaults && next.lruDefaults[p] == f.lruDefaults[p]
  {
  }

  /** A field of the module's LRU defaults is seen by every later default
      cache until some call gives that field again. */
  lemma {:induction false} LruDefaultPersists(f: Factory, configs: seq<Value>, j: nat, p: string)
    requires j < |configs| && p in f.lruDefaults
    requires forall k | 0 <= k <= j :: !GivesLruOption(configs[k], p)
    ensures var r := GetInstances(f, configs).0[j];
            r.cache.DefaultLru? ==> p in r.cache.options && r.cache.options[p] == f.lruDefaults[p]
    decreases j
  {
    var next := GetInstance(f, configs[0]).1;
    DefaultKeptUnlessGiven(f, configs[0], p);
    if j > 0 {
      assert forall k | 0 <= k <= j - 1 :: configs[1..][k] == configs[k + 1];
      LruDefaultPersists(next, configs[1..], j - 1, p);
      GetInstancesShift(f, configs, j);
    }
  }

  /** Dropping the first call shifts the calls that do not give `p` down by one. */
  lemma NoneGiveAfterFirst(configs: seq<Value>, i: nat, j: nat, p: string)
    requires 0 < i < j < |configs|
    requires forall k | i < k <= j :: !GivesLruOption(configs[k], p)
    ensures forall k | i - 1 < k <= j - 1 :: !GivesLruOption(configs[1..][k], p)
  {
    forall k | i - 1 < k <= j - 1
      ensures !GivesLruOption(configs[1..][k], p)
    {
      assert configs[1..][k] == configs[k + 1];
    }
  }

  /** The first call gives LRU option `p`, and every later call up to the
      `j`-th that builds a default cache without giving `p` gets its value. */
  lemma LeakFromFirst(f: Factory, configs: seq<Value>, j: nat, p: string)
    requires 0 < j < |configs|
    requires GivesLruOption(configs[0], p)
    requires forall k | 0 < k <= j :: !GivesLruOption(configs[k], p)
    ensures var r := GetInstances(f, configs).0[j];
            r.cache.DefaultLru? ==>
              p in r.cache.options && r.cache.options[p] == OwnProps(Given(configs[0], "cache"))[p]
  {
    var next := GetInstance(f, configs[0]).1;
    var rest := configs[1..];
    GetInstancesShift(f, configs, j);
    GivenOptionBecomesDefault(f, configs[0], p);
    assert forall k | 0 <= k <= j - 1 :: rest[k] == configs[k + 1];
    LruDefaultPersists(next, rest, j - 1, p);
  }

  /** The shared `lruDefaults` leak: once a factory call gives LRU option
      `p`, every later call that builds a default cache without giving `p`
      itself gets that same value, so default caches built by separate calls
      are not independent. */
  lemma {:induction false} LruOptionLeaks(f: Factory, configs: seq<Value>, i: nat, j: nat, p: string)
    requires i < j < |configs|
    requires GivesLruOption(configs[i], p)
    requires forall k | i < k <= j :: !GivesLruOption(configs[k], p)
    ensures var r := GetInstances(f, configs).0[j];
            r.cache.DefaultLru? ==>
              p in r.cache.options && r.cache.options[p] == OwnProps(Given(configs[i], "cache"))[p]
    decreases i
  {
    if i == 0 {
      LeakFromFirst(f, configs, j, p);
    } else {
      GetInstancesShift(f, configs, j);
      NoneGiveAfterFirst(configs, i, j, p);
      LruOptionLeaks(GetInstance(f, configs[0]).1, configs[1..], i - 1, j - 1, p);
    }
  }

  /** A concrete instance of the leak: after `{cache: {max: 2}}`, a call with
      no configuration at all gets a default cache of 2 entries, not 1024. */
  lemma LeakExample()
    ensures var configs := [Plain(map["cache" := Plain(map["max" := Number(2)])]), Undefined];
            var second := GetInstances(Loaded(), configs).0[1];
            && second.cache.DefaultLru?
            && second.cache.options["max"] == Number(2)
            && second.cache.options["maxAge"] == Number(DefaultMaxAge)
  {
  }
}
