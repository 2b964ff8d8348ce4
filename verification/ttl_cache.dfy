/** The in-memory TTL cache of the sheets module: a string-keyed map of
    `{data, expires}` entries. Every operation takes the current instant
    `now` explicitly in place of `Date.now()`, and returns the new map
    instead of mutating a private field. */
module TtlCache {
  import opened Wrappers
  import opened Clock

  /** The default time to live: five minutes. */
  const DEFAULT_TTL: int := 5 * MINUTE_MS

  datatype Entry<T> = Entry(data: T, expires: Time)

  type Cache<T> = map<string, Entry<T>>

  /** An entry is stale once the clock has moved strictly past its expiry;
      an entry read exactly at its expiry instant is still served. */
  predicate Expired<T>(e: Entry<T>, now: Time) {
    now > e.expires
  }

  function LiveKeys<T>(c: Cache<T>, now: Time): set<string> {
    set k | k in c && !Expired(c[k], now)
  }

  function ExpiredKeys<T>(c: Cache<T>, now: Time): set<string> {
    set k | k in c && Expired(c[k], now)
  }

  /** Live and expired keys partition the key set. */
  lemma PartitionKeys<T>(c: Cache<T>, now: Time)
    ensures LiveKeys(c, now) + ExpiredKeys(c, now) == c.Keys
    ensures LiveKeys(c, now) !! ExpiredKeys(c, now)
    ensures |LiveKeys(c, now)| + |ExpiredKeys(c, now)| == |c|
  {
  }

  /** Moving one key out of the to-do set of a pass over the keys. */
  lemma RetireKey(a: set<string>, todo: set<string>, k: string)
    requires k in todo
    ensures k in a ==> a - (todo - {k}) == (a - todo) + {k} && k !in a - todo
    ensures k !in a ==> a - (todo - {k}) == a - todo
  {
  }

  /** The result of `get`: what it returned and the map it left behind. */
  datatype Lookup<T> = Lookup(found: Option<T>, cache: Cache<T>)

  /** `get`: an absent key reads as null; an expired entry reads as null and
      is evicted on the spot; a live entry is returned and nothing changes. */
  function Get<T>(c: Cache<T>, key: string, now: Time): (r: Lookup<T>)
    ensures r.found.Some? <==> key in LiveKeys(c, now)
    ensures r.found.Some? ==> r.found.value == c[key].data && r.cache == c
    ensures r.found.None? ==> r.cache == c - {key}
    ensures key !in c ==> r.cache == c
  {
    if key !in c then Lookup(None, c)
    else if Expired(c[key], now) then Lookup(None, c - {key})
    else Lookup(Some(c[key].data), c)
  }

  /** A `customTTL` that is missing or zero is falsy and falls back to the default. */
  function EffectiveTtl(ttl: Option<int>): (d: int)
    ensures ttl.None? ==> d == DEFAULT_TTL
    ensures ttl.Some? ==> d == (if ttl.value == 0 then DEFAULT_TTL else ttl.value)
  {
    match ttl
    case None => DEFAULT_TTL
    case Some(t) => if t == 0 then DEFAULT_TTL else t
  }

  /** `set`: unconditionally (over)writes `key`; all other keys keep their entries. */
  function Set<T>(c: Cache<T>, key: string, data: T, ttl: Option<int>, now: Time): (r: Cache<T>)
    ensures r.Keys == c.Keys + {key}
    ensures r[key].data == data && r[key].expires == now + EffectiveTtl(ttl)
    ensures forall k :: k in c && k != key ==> r[k] == c[k]
  {
    c[key := Entry(data, now + EffectiveTtl(ttl))]
  }

  /** The result of `delete`: whether the key was there, and the new map. */
  datatype Removal<T> = Removal(existed: bool, cache: Cache<T>)

  /** `delete`: reports whether `key` was present, expired or not, and drops only it. */
  function Delete<T>(c: Cache<T>, key: string): (r: Removal<T>)
    ensures r.existed <==> key in c
    ensures r.cache.Keys == c.Keys - {key}
    ensures forall k :: k in r.cache ==> r.cache[k] == c[k]
  {
    Removal(key in c, c - {key})
  }

  /** `clear`: the map is emptied. */
  function Clear<T>(): (r: Cache<T>)
    ensures forall k :: k !in r
  {
    map[]
  }

  /** `has`: a read-only liveness test; it never evicts. */
  function Has<T>(c: Cache<T>, key: string, now: Time): (b: bool)
    ensures b <==> key in LiveKeys(c, now)
  {
    if key in c then now <= c[key].expires else false
  }

  /** The counters `getStats` reports; the memory figure is not modelled. */
  datatype Stats = Stats(totalEntries: nat, validEntries: nat, expiredEntries: nat)

  /** `getStats`: one pass over the entries, classifying each as expired or valid. */
  method GetStats<T>(c: Cache<T>, now: Time) returns (s: Stats)
    ensures s.totalEntries == |c|
    ensures s.validEntries == |LiveKeys(c, now)|
    ensures s.expiredEntries == |ExpiredKeys(c, now)|
    ensures s.validEntries + s.expiredEntries == s.totalEntries
  {
    var valid, expired := 0, 0;
    var todo := c.Keys;
    ghost var seenLive: set<string> := {};
    ghost var seenStale: set<string> := {};
    while todo != {}
      invariant todo <= c.Keys
      invariant seenLive == LiveKeys(c, now) - todo
      invariant seenStale == ExpiredKeys(c, now) - todo
      invariant valid == |seenLive| && expired == |seenStale|
      decreases |todo|
    {
      var k :| k in todo;
      RetireKey(LiveKeys(c, now), todo, k);
      RetireKey(ExpiredKeys(c, now), todo, k);
      if now > c[k].expires {
        expired := expired + 1;
        seenStale := seenStale + {k};
      } else {
        valid := valid + 1;
        seenLive := seenLive + {k};
      }
      todo := todo - {k};
    }
    PartitionKeys(c, now);
    s := Stats(|c|, valid, expired);
  }

  /** The map after every expired entry is dropped: the reference for `cleanup`. */
  function Sweep<T>(c: Cache<T>, now: Time): (r: Cache<T>)
    ensures r.Keys == LiveKeys(c, now)
    ensures forall k :: k in r ==> r[k] == c[k]
  {
    map k | k in LiveKeys(c, now) :: c[k]
  }

  /** Any map holding exactly the live entries of `c` is the sweep of `c`,
      and is smaller than `c` by the number of expired entries. */
  lemma SweepIsUnique<T>(c: Cache<T>, now: Time, r: Cache<T>)
    requires r.Keys == c.Keys - ExpiredKeys(c, now)
    requires forall k :: k in r ==> r[k] == c[k]
    ensures r == Sweep(c, now)
    ensures |ExpiredKeys(c, now)| == |c| - |r|
  {
    PartitionKeys(c, now);
    assert r.Keys == LiveKeys(c, now);
  }

  /** `cleanup`: one pass that deletes each expired entry and counts it. */
  method Cleanup<T>(c: Cache<T>, now: Time) returns (count: nat, r: Cache<T>)
    ensures r == Sweep(c, now)
    ensures count == |ExpiredKeys(c, now)|
    ensures count == |c| - |r|
  {
    count := 0;
    r := c;
    var todo := c.Keys;
    while todo != {}
      invariant todo <= c.Keys
      invariant r.Keys == c.Keys - (ExpiredKeys(c, now) - todo)
      invariant forall k :: k in r ==> r[k] == c[k]
      invariant count == |ExpiredKeys(c, now) - todo|
      decreases |todo|
    {
      var k :| k in todo;
      RetireKey(ExpiredKeys(c, now), todo, k);
      if now > c[k].expires {
        r := r - {k};
        count := count + 1;
      }
      todo := todo - {k};
    }
    SweepIsUnique(c, now, r);
  }

  /** After `delete` the key reads as missing; deleting a key that `set`
      just added to a map without it restores the map. */
  lemma DeleteForgetsKey<T>(c: Cache<T>, key: string, data: T, ttl: Option<int>, now: Time)
    ensures Get(Delete(c, key).cache, key, now) == Lookup(None, Delete(c, key).cache)
    ensures !Has(Delete(c, key).cache, key, now)
    ensures key !in c ==> Delete(Set(c, key, data, ttl, now), key) == Removal(true, c)
  {
  }

  /** `has` and `get` agree, at the same instant, on whether data is there. */
  lemma HasAgreesWithGet<T>(c: Cache<T>, key: string, now: Time)
    ensures Has(c, key, now) <==> Get(c, key, now).found.Some?
    ensures Has(c, key, now) ==> Get(c, key, now).found == Some(c[key].data)
  {
  }

  /** Lazy eviction is unobservable: the entries that can still be read, and
      their data, are the same before and after a `get`. */
  lemma GetPreservesLiveEntries<T>(c: Cache<T>, key: string, now: Time)
    ensures LiveKeys(Get(c, key, now).cache, now) == LiveKeys(c, now)
    ensures forall k :: k in LiveKeys(c, now) ==> Get(c, key, now).cache[k] == c[k]
  {
  }

  /** A value written by `set` is served up to and including its expiry
      instant and is gone (and evicted) strictly after it. */
  lemma GetAfterSet<T>(c: Cache<T>, key: string, data: T, ttl: Option<int>, setAt: Time, readAt: Time)
    ensures readAt <= setAt + EffectiveTtl(ttl) ==>
      Get(Set(c, key, data, ttl, setAt), key, readAt).found == Some(data)
    ensures readAt > setAt + EffectiveTtl(ttl) ==>
      Get(Set(c, key, data, ttl, setAt), key, readAt).found == None &&
      key !in Get(Set(c, key, data, ttl, setAt), key, readAt).cache
  {
  }

  /** After `clear`, nothing can be read, nothing is counted and nothing is left to sweep. */
  lemma ClearForgetsEverything<T>(key: string, now: Time)
    ensures Get(Clear<T>(), key, now).found == None
    ensures !Has(Clear<T>(), key, now)
    ensures |LiveKeys(Clear<T>(), now)| == 0 && |ExpiredKeys(Clear<T>(), now)| == 0
  {
  }

  /** A sweep leaves nothing expired, so a second sweep at the same instant
      removes nothing and returns 0; it also keeps every live entry. */
  lemma SweepIdempotent<T>(c: Cache<T>, now: Time)
    ensures ExpiredKeys(Sweep(c, now), now) == {}
    ensures Sweep(Sweep(c, now), now) == Sweep(c, now)
    ensures LiveKeys(Sweep(c, now), now) == LiveKeys(c, now)
  {
  }
}
