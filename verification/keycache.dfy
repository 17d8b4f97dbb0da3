/**
 * `CsrKeyCacheClass`: the secure-random-key cache facade of src/index.ts.
 *
 * An instance holds the backing cache, the key length in bytes and the random
 * generator. `set` draws `keylength` random bytes, encodes them in base64 and,
 * when the backing cache already `has` that key, draws again, with no bound
 * on the number of attempts; it then stores the value under the fresh key
 * and returns the key if the backing cache `has` it afterwards, `false`
 * otherwise. `get`, `has` and `del` hand the call to the backing cache.
 *
 * Every operation is a function from the instance to its result, the
 * instance afterwards, and the calls it made on its two collaborators, in
 * order.
 */
module KeyCache {
  import opened Wrappers
  import opened Random
  import Base64
  import Backing
  import Js

  /** An instance: the backing cache, the key length in bytes, the random
      generator, and the encoding of random bytes into a key string. The
      source always encodes with `Buffer.from(rnd).toString('base64')`, which
      is `Base64.Encode`; the facade's properties hold for any encoding, so
      here it is a field rather than a fixed call. */
  datatype Instance<!V> = Instance(
    store: Backing.Store<V>,
    keylength: nat,
    csrng: Source,
    encode: seq<byte> -> string)

  /** An instance as the constructor builds it: base64 keys. */
  ghost predicate UsesBase64<V>(c: Instance<V>) {
    c.encode == Base64.Encode
  }

  /** `new CsrKeyCacheClass(cache, opts.keylength, csrng)`: the resolved
      `keylength` becomes the byte count handed to the generator, and keys
      are base64. A `keylength` that is not a non-negative integer is left to
      the generator, which the model does not describe, so it gives no
      instance. */
  function Construct<V>(store: Backing.Store<V>, keylength: Js.Value, csrng: Source): (r: Option<Instance<V>>)
    ensures r.Some? <==> keylength.Number? && keylength.n >= 0
    ensures r.Some? ==>
              && UsesBase64(r.value) && Js.Number(r.value.keylength) == keylength
              && r.value.store == store && r.value.csrng == csrng
  {
    if keylength.Number? && keylength.n >= 0 then
      Some(Instance(store, keylength.n, csrng, Base64.Encode))
    else None
  }

  /** One call on a collaborator: the random generator or the backing cache. */
  datatype Call<V> =
    | RandomBytes(length: nat)
    | CacheHas(key: string)
    | CacheSet(key: string, val: V, expire: Backing.Expire)
    | CacheGet(key: string)
    | CacheDel(key: string)

  /** What `set` returns: `string|false`. */
  datatype Stored = Key(key: string) | Failed

  /** An operation's result, the instance afterwards, and the calls it made. */
  datatype Step<!V, R> = Step(result: R, after: Instance<V>, calls: seq<Call<V>>)

  /** What `getNewKey` produces: the key, the generator afterwards, the calls. */
  datatype Fresh<V> = Fresh(key: string, csrng: Source, calls: seq<Call<V>>)

  /** The key the `i`-th draw of the generator encodes to. */
  function KeyAt<V>(c: Instance<V>, i: nat): string {
    c.encode(c.csrng.gen(i, c.keylength))
  }

  /** The `i`-th draw encodes to a key the backing cache already holds. */
  predicate Collides<V>(c: Instance<V>, i: nat) {
    Backing.Has(c.store, KeyAt(c, i))
  }

  /** Some draw not yet consumed yields a key the backing cache does not hold,
      so the collision retry of `getNewKey` stops. */
  ghost predicate EventuallyFree<V>(c: Instance<V>) {
    exists i: nat :: c.csrng.drawn <= i && !Collides(c, i)
  }

  /** `g` more collisions precede the first free draw. */
  ghost predicate FirstFreeAfter<V>(c: Instance<V>, g: nat) {
    && !Collides(c, c.csrng.drawn + g)
    && forall i | c.csrng.drawn <= i < c.csrng.drawn + g :: Collides(c, i)
  }

  lemma LeastFreeExists<V>(c: Instance<V>)
    requires EventuallyFree(c)
    ensures exists g: nat :: FirstFreeAfter(c, g)
  {
    var d := c.csrng.drawn;
    var j: nat :| d <= j && !Collides(c, j);
    var g: nat := 0;
    while Collides(c, d + g)
      invariant d + g <= j
      invariant forall i | d <= i < d + g :: Collides(c, i)
      decreases j - (d + g)
    {
      g := g + 1;
    }
    assert FirstFreeAfter(c, g);
  }

  /** The number of collisions before the first free draw: what the retry
      loop of `getNewKey` counts down. */
  ghost function Gap<V>(c: Instance<V>): (g: nat)
    requires EventuallyFree(c)
    ensures FirstFreeAfter(c, g)
  {
    LeastFreeExists(c);
    var g: nat :| FirstFreeAfter(c, g);
    g
  }

  /** The calls of `n` attempts starting at the generator's current draw:
      each requests `keylength` bytes, then probes the backing cache for the
      key they encode to. */
  function Attempts<V>(c: Instance<V>, n: nat): (calls: seq<Call<V>>)
    ensures |calls| == 2 * n
  {
    seq(2 * n, i requires 0 <= i < 2 * n =>
      if i % 2 == 0 then RandomBytes(c.keylength)
      else CacheHas(KeyAt(c, c.csrng.drawn + i / 2)))
  }

  /** The instance with the generator moved past its current draw. */
  function Advance<V>(c: Instance<V>): (c': Instance<V>)
    ensures forall i: nat :: KeyAt(c', i) == KeyAt(c, i)
    ensures forall i: nat :: Collides(c', i) == Collides(c, i)
  {
    c.(csrng := Draw(c.csrng, c.keylength).1)
  }

  /** `n` attempts are one attempt at the current draw, then `n - 1` more
      from the next one. */
  lemma AttemptsUnfold<V>(c: Instance<V>, n: nat)
    requires n >= 1
    ensures Attempts(c, n)
            == [RandomBytes(c.keylength), CacheHas(KeyAt(c, c.csrng.drawn))] + Attempts(Advance(c), n - 1)
  {
  }

  /** `getNewKey()`: the key is the encoding of the first draw that does not
      collide; every earlier draw did collide; the generator has advanced past
      exactly those draws, and each attempt made one request for `keylength`
      bytes followed by one `has` probe. */
  function NewKey<V>(c: Instance<V>): (r: Fresh<V>)
    requires EventuallyFree(c)
    ensures r.csrng.gen == c.csrng.gen && c.csrng.drawn < r.csrng.drawn
    ensures r.key == KeyAt(c, r.csrng.drawn - 1)
    ensures !Backing.Has(c.store, r.key)
    ensures forall i | c.csrng.drawn <= i < r.csrng.drawn - 1 :: Collides(c, i)
    ensures r.calls == Attempts(c, r.csrng.drawn - c.csrng.drawn)
    decreases Gap(c)
  {
    var draw := Draw(c.csrng, c.keylength);
    var key := c.encode(draw.0);
    var attempt := [RandomBytes(c.keylength), CacheHas(key)];
    if !Backing.Has(c.store, key) then
      Fresh(key, draw.1, attempt)
    else
      var next := Advance(c);
      assert !Collides(next, c.csrng.drawn + Gap(c));
      var f := NewKey(next);
      AttemptsUnfold(c, f.csrng.drawn - c.csrng.drawn);
      Fresh(f.key, f.csrng, attempt + f.calls)
  }

  /** `set(val, expire)`. The key is the encoding of the last draw, which the
      backing cache did not hold before the call, so no entry is overwritten;
      the value is written once, under that key, with `expire` unchanged; the
      result is the key exactly when the backing cache kept the write, and
      `false` (with the backing cache unchanged) when it declined it. */
  function Set<V>(c: Instance<V>, val: V, expire: Backing.Expire): (r: Step<V, Stored>)
    requires EventuallyFree(c)
    ensures r.after == c.(store := r.after.store, csrng := r.after.csrng)
    ensures r.after.store.admits == c.store.admits
    ensures r.after.csrng.gen == c.csrng.gen && c.csrng.drawn < r.after.csrng.drawn
    ensures forall i | c.csrng.drawn <= i < r.after.csrng.drawn - 1 :: Collides(c, i)
    ensures var k := KeyAt(c, r.after.csrng.drawn - 1);
            && !Backing.Has(c.store, k)
            && r.calls == Attempts(c, r.after.csrng.drawn - c.csrng.drawn)
                          + [CacheSet(k, val, expire), CacheHas(k)]
            && (r.result == Key(k) <==> c.store.admits(k, val, expire))
            && (r.result == Failed <==> !c.store.admits(k, val, expire))
    ensures r.result.Key? ==> r.after.store.entries == c.store.entries[r.result.key := val]
    ensures r.result.Failed? ==> r.after.store.entries == c.store.entries
  {
    var f := NewKey(c);
    var store := Backing.Set(c.store, f.key, val, expire);
    var result := if Backing.Has(store, f.key) then Key(f.key) else Failed;
    Step(result, c.(store := store, csrng := f.csrng),
         f.calls + [CacheSet(f.key, val, expire), CacheHas(f.key)])
  }

  /** `get(key)`: what the backing cache holds under `key`, if anything; no
      randomness is drawn and nothing changes. */
  function Get<V>(c: Instance<V>, key: string): (r: Step<V, Option<V>>)
    ensures r.after == c && r.calls == [CacheGet(key)]
    ensures r.result.Some? <==> key in c.store.entries
    ensures r.result.Some? ==> r.result.value == c.store.entries[key]
  {
    Step(Backing.Get(c.store, key), c, [CacheGet(key)])
  }

  /** `has(key)`: whether the backing cache holds `key`; no randomness is
      drawn and nothing changes. */
  function Has<V>(c: Instance<V>, key: string): (r: Step<V, bool>)
    ensures r.after == c && r.calls == [CacheHas(key)]
    ensures r.result <==> key in c.store.entries
  {
    Step(Backing.Has(c.store, key), c, [CacheHas(key)])
  }

  /** `del(key)`: the backing cache loses `key` and nothing else; no
      randomness is drawn. */
  function Del<V>(c: Instance<V>, key: string): (r: Step<V, ()>)
    ensures r.calls == [CacheDel(key)]
    ensures r.after == c.(store := r.after.store)
    ensures r.after.store.admits == c.store.admits
    ensures key !in r.after.store.entries
    ensures forall k | k in c.store.entries && k != key :: k in r.after.store.entries && r.after.store.entries[k] == c.store.entries[k]
    ensures forall k | k in r.after.store.entries :: k in c.store.entries
  {
    var store := Backing.Del(c.store, key);
    assert forall k | k in store.entries :: k != key && Backing.Get(store, k) == Backing.Get(c.store, k);
    Step((), c.(store := store), [CacheDel(key)])
  }
}
