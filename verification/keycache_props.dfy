/**
 * Properties of the key cache that relate several calls: the exact cost of
 * collisions, the inverse pairs set/get and set/del, distinct keys across a
 * run of `set` calls, and the shape of keys under the default configuration.
 */
module KeyCacheProps {
  import opened Wrappers
  import opened Random
  import Base64
  import Backing
  import opened KeyCache
  import Js
  import Config

  /** The number of requests to the random generator in a call log. */
  function CountDraws<V>(calls: seq<Call<V>>): (n: nat)
    ensures n <= |calls|
  {
    if |calls| == 0 then 0
    else (if calls[0].RandomBytes? then 1 else 0) + CountDraws(calls[1..])
  }

  lemma {:induction false} CountDrawsAppend<V>(a: seq<Call<V>>, b: seq<Call<V>>)
    ensures CountDraws(a + b) == CountDraws(a) + CountDraws(b)
    decreases |a|
  {
    if |a| > 0 {
      assert (a + b)[1..] == a[1..] + b;
      CountDrawsAppend(a[1..], b);
    } else {
      assert a + b == b;
    }
  }

  /** `n` attempts request randomness `n` times, each for `keylength` bytes. */
  lemma {:induction false} AttemptsDraw<V>(c: Instance<V>, n: nat)
    ensures CountDraws(Attempts(c, n)) == n
    ensures forall i | 0 <= i < 2 * n && Attempts(c, n)[i].RandomBytes? ::
              Attempts(c, n)[i].length == c.keylength
    decreases n
  {
    if n > 0 {
      AttemptsUnfold(c, n);
      AttemptsDraw(Advance(c), n - 1);
      var first := [RandomBytes(c.keylength), CacheHas(KeyAt(c, c.csrng.drawn))];
      CountDrawsAppend(first, Attempts(Advance(c), n - 1));
    }
  }

  /** Only one draw can be the first that does not collide. */
  lemma FirstFreeIsUnique<V>(c: Instance<V>, a: nat, b: nat)
    requires c.csrng.drawn <= a && c.csrng.drawn <= b
    requires !Collides(c, a) && forall i | c.csrng.drawn <= i < a :: Collides(c, i)
    requires !Collides(c, b) && forall i | c.csrng.drawn <= i < b :: Collides(c, i)
    ensures a == b
  {
  }

  /** When the first `n` draws collide and the next one does not, `set` asks
      the generator exactly `n + 1` times, stores under the key of draw
      `n + 1`, and returns that key if the backing cache keeps the write. */
  lemma SetAfterCollisions<V>(c: Instance<V>, val: V, expire: Backing.Expire, n: nat)
    requires forall i | c.csrng.drawn <= i < c.csrng.drawn + n :: Collides(c, i)
    requires !Collides(c, c.csrng.drawn + n)
    ensures EventuallyFree(c)
    ensures var r := Set(c, val, expire);
            var k := KeyAt(c, c.csrng.drawn + n);
            && r.after.csrng.drawn == c.csrng.drawn + n + 1
            && CountDraws(r.calls) == n + 1
            && r.calls[2 * n + 2] == CacheSet(k, val, expire)
            && (r.result == Key(k) <==> c.store.admits(k, val, expire))
  {
    var d := c.csrng.drawn;
    assert d <= d + n && !Collides(c, d + n);
    var r := Set(c, val, expire);
    var last := r.after.csrng.drawn - 1;
    FirstFreeIsUnique(c, last, d + n);
    var k := KeyAt(c, d + n);
    assert r.calls == Attempts(c, n + 1) + [CacheSet(k, val, expire), CacheHas(k)];
    AttemptsDraw(c, n + 1);
    CountDrawsAppend(Attempts(c, n + 1), [CacheSet(k, val, expire), CacheHas(k)]);
  }

  /** `get` right after a successful `set` yields the value stored. */
  lemma SetThenGet<V>(c: Instance<V>, val: V, expire: Backing.Expire)
    requires EventuallyFree(c)
    ensures var r := Set(c, val, expire);
            r.result.Key? ==> Get(r.after, r.result.key).result == Some(val)
  {
  }

  /** `del` of the key a successful `set` returned undoes the write: the
      backing cache holds exactly what it held before. */
  lemma SetThenDel<V>(c: Instance<V>, val: V, expire: Backing.Expire)
    requires EventuallyFree(c)
    ensures var r := Set(c, val, expire);
            r.result.Key? ==> Del(r.after, r.result.key).after.store.entries == c.store.entries
  {
  }

  /** `set` removes nothing, and a key it returns is new and now present. */
  lemma SetOnlyAdds<V>(c: Instance<V>, val: V, expire: Backing.Expire)
    requires EventuallyFree(c)
    ensures var r := Set(c, val, expire);
            && (forall k | k in c.store.entries :: k in r.after.store.entries)
            && (r.result.Key? ==> r.result.key !in c.store.entries && r.result.key in r.after.store.entries)
  {
  }

  /** A run of `set` calls, each of whose key generation terminates. */
  ghost predicate CanStoreAll<V>(c: Instance<V>, items: seq<(V, Backing.Expire)>)
    decreases |items|
  {
    |items| == 0
    || (EventuallyFree(c) && CanStoreAll(Set(c, items[0].0, items[0].1).after, items[1..]))
  }

  /** The results of a run of `set` calls, and the instance afterwards. */
  function SetAll<V>(c: Instance<V>, items: seq<(V, Backing.Expire)>): (r: (seq<Stored>, Instance<V>))
    requires CanStoreAll(c, items)
    ensures |r.0| == |items|
    decreases |items|
  {
    if |items| == 0 then ([], c)
    else
      var first := Set(c, items[0].0, items[0].1);
      var rest := SetAll(first.after, items[1..]);
      ([first.result] + rest.0, rest.1)
  }

  /** One step of a run: the first `set`, then the rest of the run from the
      instance it leaves. */
  lemma SetAllUnfold<V>(c: Instance<V>, items: seq<(V, Backing.Expire)>)
    requires 0 < |items| && CanStoreAll(c, items)
    ensures EventuallyFree(c)
    ensures var first := Set(c, items[0].0, items[0].1);
            && CanStoreAll(first.after, items[1..])
            && SetAll(c, items).0 == [first.result] + SetAll(first.after, items[1..]).0
            && SetAll(c, items).1 == SetAll(first.after, items[1..]).1
  {
  }

  /** Over a run of `set` calls with no `del` in between, no entry is lost,
      and every returned key was absent before the run and is present after
      it. */
  lemma {:induction false} SetAllFresh<V>(c: Instance<V>, items: seq<(V, Backing.Expire)>)
    requires CanStoreAll(c, items)
    ensures var r := SetAll(c, items);
            && (forall k | k in c.store.entries :: k in r.1.store.entries)
            && (forall i | 0 <= i < |r.0| && r.0[i].Key? ::
                  r.0[i].key !in c.store.entries && r.0[i].key in r.1.store.entries)
    decreases |items|
  {
    if |items| > 0 {
      SetAllUnfold(c, items);
      var first := Set(c, items[0].0, items[0].1);
      var rest := SetAll(first.after, items[1..]);
      var r := SetAll(c, items);
      SetAllFresh(first.after, items[1..]);
      assert forall k | k in first.after.store.entries :: k in rest.1.store.entries;
      assert forall m | 0 <= m < |rest.0| && rest.0[m].Key? ::
               rest.0[m].key !in first.after.store.entries && rest.0[m].key in rest.1.store.entries;
      SetOnlyAdds(c, items[0].0, items[0].1);
      forall k | k in c.store.entries
        ensures k in r.1.store.entries
      {
        assert k in first.after.store.entries;
      }
      forall i | 0 <= i < |r.0| && r.0[i].Key?
        ensures r.0[i].key !in c.store.entries && r.0[i].key in r.1.store.entries
      {
        if i == 0 {
          assert r.0[0] == first.result;
        } else {
          assert r.0[i] == rest.0[i - 1];
          assert r.0[i].key !in first.after.store.entries;
        }
      }
    }
  }

  /** Prepending a result whose key is held to results that are pairwise
      distinct and none of whose keys is held keeps them pairwise distinct. */
  lemma DistinctCons(first: Stored, rest: seq<Stored>, held: set<string>)
    requires forall i, j | 0 <= i < j < |rest| && rest[i].Key? && rest[j].Key? :: rest[i].key != rest[j].key
    requires forall m | 0 <= m < |rest| && rest[m].Key? :: rest[m].key !in held
    requires first.Key? ==> first.key in held
    ensures var s := [first] + rest;
            forall i, j | 0 <= i < j < |s| && s[i].Key? && s[j].Key? :: s[i].key != s[j].key
  {
    var s := [first] + rest;
    forall i, j | 0 <= i < j < |s| && s[i].Key? && s[j].Key?
      ensures s[i].key != s[j].key
    {
      assert s[j] == rest[j - 1];
      if i > 0 {
        assert s[i] == rest[i - 1];
      }
    }
  }

  /** Over a run of `set` calls with no `del` in between, no two returned
      keys are equal. */
  lemma {:induction false} SetAllDistinct<V>(c: Instance<V>, items: seq<(V, Backing.Expire)>)
    requires CanStoreAll(c, items)
    ensures var r := SetAll(c, items);
            forall i, j | 0 <= i < j < |r.0| && r.0[i].Key? && r.0[j].Key? :: r.0[i].key != r.0[j].key
    decreases |items|
  {
    if |items| > 0 {
      SetAllUnfold(c, items);
      var first := Set(c, items[0].0, items[0].1);
      var rest := SetAll(first.after, items[1..]);
      SetAllDistinct(first.after, items[1..]);
      // the later keys were all absent once the first key was stored
      SetAllFresh(first.after, items[1..]);
      SetOnlyAdds(c, items[0].0, items[0].1);
      DistinctCons(first.result, rest.0, first.after.store.entries.Keys);
    }
  }

  /** With the default key length of 32 bytes, base64 keys and a generator
      that returns the number of bytes asked for, every draw encodes to a key
      of 44 characters of the base64 alphabet or the pad; `Set` returns the
      key of one such draw. */
  lemma DefaultKeyShape<V>(c: Instance<V>, i: nat)
    requires c.keylength == 32
    ensures UsesBase64(c) && HonoursLength(c.csrng) ==>
              |KeyAt(c, i)| == 44 && forall j | 0 <= j < 44 :: Base64.IsBase64Char(KeyAt(c, i)[j])
  {
  }

  /** The instance built from no configuration at all asks the generator for
      32 bytes per key and encodes them in base64, so with a generator that
      returns the number of bytes asked for, every key it can produce has 44
      characters of the base64 alphabet or the pad. */
  lemma DefaultInstanceKeys<V>(store: Backing.Store<V>, csrng: Source, i: nat)
    ensures var c := Construct(store, Config.GetInstance(Config.Loaded(), Js.Undefined).0.keylength, csrng);
            && c.Some? && c.value.keylength == 32 && UsesBase64(c.value)
            && (HonoursLength(csrng) ==>
                  |KeyAt(c.value, i)| == 44
                  && forall j | 0 <= j < 44 :: Base64.IsBase64Char(KeyAt(c.value, i)[j]))
  {
    Config.NoConfiguration();
    var c := Construct(store, Js.Number(32), csrng).value;
    DefaultKeyShape(c, i);
  }

  /** `has` of the key a successful `set` returned is true. */
  lemma SetThenHas<V>(c: Instance<V>, val: V, expire: Backing.Expire)
    requires EventuallyFree(c)
    ensures var s := Set(c, val, expire);
            s.result.Key? ==> KeyCache.Has(s.after, s.result.key).result
  {
  }

  /** `has` of a key right after `del` of that key is false. */
  lemma DelThenHas<V>(c: Instance<V>, key: string)
    ensures !KeyCache.Has(Del(c, key).after, key).result
  {
  }
}
