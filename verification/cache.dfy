/**
 * The browser-side result cache of src/lib/cache/index.ts.
 *
 * `localStorage` is a map from string keys to stored entries, owned by a
 * `LocalCache` object; `isBrowser()` is the object's `browser` flag (when it
 * is false every operation does nothing and every read misses) and the clock
 * `Date.now()` is the `now` parameter of the operations that read it.
 */
module Cache {
  import opened Wrappers

  /** Entries written by another cache version are treated as expired. */
  const CACHE_VERSION := 1

  /** An entry expires once it is older than seven days, in milliseconds. */
  const CACHE_TTL := 7 * 24 * 60 * 60 * 1000

  /** A category holding this many entries evicts its oldest on the next write. */
  const MAX_CACHE_ENTRIES := 100

  /** The two cache categories. */
  datatype CacheType = Anime | Seiyuu

  /** A stored value with the time it was written and the cache version that wrote it. */
  datatype Entry<T> = Entry(data: T, timestamp: int, version: int)

  /** One result of `getCacheEntries`: a key of the category and its entry's timestamp. */
  datatype Listing = Listing(key: string, timestamp: int)

  /** What `getCacheStats` returns. */
  datatype CacheStats = CacheStats(anime: nat, seiyuu: nat, total: nat)

  // ---------------------------------------------------------------------------
  // Keys

  function TypeName(t: CacheType): string {
    match t
    case Anime => "anime"
    case Seiyuu => "seiyuu"
  }

  predicate IsDigit(c: char) {
    '0' <= c <= '9'
  }

  function DigitValue(c: char): nat
    requires IsDigit(c)
  {
    assert '0' as int <= c as int;
    c as int - '0' as int
  }

  function DigitChar(d: nat): char
    requires d < 10
  {
    ('0' as int + d) as char
  }

  /** The decimal digits of `n`, most significant first, without leading zeros. */
  function NatToDecimal(n: nat): (s: string)
    ensures |s| >= 1
    ensures forall i :: 0 <= i < |s| ==> IsDigit(s[i])
    decreases n
  {
    if n < 10 then [DigitChar(n)] else NatToDecimal(n / 10) + [DigitChar(n % 10)]
  }

  /** `${id}` for an integer id. */
  function IntToDecimal(i: int): (s: string)
    ensures |s| >= 1
    ensures i < 0 <==> s[0] == '-'
  {
    if i < 0 then "-" + NatToDecimal(-i) else NatToDecimal(i)
  }

  /** The number a string of decimal digits denotes. */
  function DecimalValue(s: string): nat
    requires forall i :: 0 <= i < |s| ==> IsDigit(s[i])
  {
    if s == [] then 0
    else 10 * DecimalValue(s[..|s| - 1]) + DigitValue(s[|s| - 1])
  }

  /** Reading the digits back gives the number that was printed. */
  lemma {:induction false} DecimalRoundTrip(n: nat)
    ensures DecimalValue(NatToDecimal(n)) == n
    decreases n
  {
    if n >= 10 {
      var s := NatToDecimal(n);
      assert s[..|s| - 1] == NatToDecimal(n / 10);
      DecimalRoundTrip(n / 10);
    }
  }

  /** Distinct ids print differently. */
  lemma IntToDecimalInjective(i: int, j: int)
    requires IntToDecimal(i) == IntToDecimal(j)
    ensures i == j
  {
    if i < 0 && j < 0 {
      assert NatToDecimal(-i) == IntToDecimal(i)[1..];
      assert NatToDecimal(-j) == IntToDecimal(j)[1..];
      DecimalRoundTrip(-i);
      DecimalRoundTrip(-j);
    } else if i >= 0 && j >= 0 {
      DecimalRoundTrip(i);
      DecimalRoundTrip(j);
    }
  }

  /** `cache:${type}:`, the prefix shared by every key of a category. */
  function Prefix(t: CacheType): (p: string)
    ensures |p| == |TypeName(t)| + 7
  {
    "cache:" + TypeName(t) + ":"
  }

  /** `getCacheKey`: `cache:${type}:${id}`. */
  function CacheKey(t: CacheType, id: int): (key: string)
    ensures Prefix(t) <= key
    ensures key[|Prefix(t)|..] == IntToDecimal(id)
  {
    Prefix(t) + IntToDecimal(id)
  }

  /** No key belongs to both categories: the prefixes differ at their seventh character. */
  lemma PrefixesDisjoint(key: string)
    ensures !(Prefix(Anime) <= key && Prefix(Seiyuu) <= key)
  {
    if Prefix(Anime) <= key {
      assert key[6] == Prefix(Anime)[6] == 'a';
      assert Prefix(Seiyuu)[6] == 's';
    }
  }

  /** Two (category, id) pairs share a key only if they are the same pair. */
  lemma CacheKeyInjective(t: CacheType, id: int, t': CacheType, id': int)
    requires CacheKey(t, id) == CacheKey(t', id')
    ensures t == t' && id == id'
  {
    var key := CacheKey(t, id);
    if t != t' {
      PrefixesDisjoint(key);
      assert false;
    }
    IntToDecimalInjective(id, id');
  }

  // ---------------------------------------------------------------------------
  // Expiry and the shape of the store

  /** `isExpired`: older than the TTL, or written by another cache version. */
  predicate IsExpired<T>(entry: Entry<T>, now: int) {
    now - entry.timestamp > CACHE_TTL || entry.version != CACHE_VERSION
  }

  /** Once expired, an entry stays expired as the clock advances. */
  lemma ExpiryIsPermanent<T>(entry: Entry<T>, now: int, later: int)
    requires IsExpired(entry, now) && now <= later
    ensures IsExpired(entry, later)
  {
  }

  /** The keys of the store that start with the category's prefix. */
  function KeysOfType<T>(store: map<string, Entry<T>>, t: CacheType): set<string> {
    set k | k in store && Prefix(t) <= k
  }

  /** The keys of a category whose entries are older than the TTL at `now`. */
  function StaleKeys<T>(store: map<string, Entry<T>>, t: CacheType, now: int): set<string> {
    set k | k in store && Prefix(t) <= k && now - store[k].timestamp > CACHE_TTL
  }

  /** The keys listed. */
  function ListedKeys(entries: seq<Listing>): set<string> {
    set e | e in entries :: e.key
  }

  /** `k` is an entry of category `t` with no older entry in that category. */
  ghost predicate OldestOfType<T>(store: map<string, Entry<T>>, t: CacheType, k: string) {
    && k in KeysOfType(store, t)
    && forall k' :: k' in KeysOfType(store, t) ==> store[k].timestamp <= store[k'].timestamp
  }

  /**
   * `after` is what `evictIfNeeded` leaves of `before`: a full category loses
   * one of its oldest entries, anything else stays.
   */
  ghost predicate Evicted<T>(before: map<string, Entry<T>>, t: CacheType, after: map<string, Entry<T>>) {
    if |KeysOfType(before, t)| >= MAX_CACHE_ENTRIES then
      exists k :: OldestOfType(before, t, k) && after == before - {k}
    else after == before
  }

  /** `getCache` on a store, as a value: a hit is a present, unexpired entry. */
  function Lookup<T>(store: map<string, Entry<T>>, t: CacheType, id: int, now: int): (r: Option<T>)
    ensures r.Some? <==> CacheKey(t, id) in store && !IsExpired(store[CacheKey(t, id)], now)
    ensures r.Some? ==> r.value == store[CacheKey(t, id)].data
  {
    var key := CacheKey(t, id);
    if key !in store then None
    else if IsExpired(store[key], now) then None
    else Some(store[key].data)
  }

  /**
   * A value written at `written` by this cache version is read back, as
   * written, until the TTL has passed, and missed afterwards.
   */
  lemma ReadAfterWrite<T>(store: map<string, Entry<T>>, t: CacheType, id: int, data: T, written: int, now: int)
    ensures var stored := store[CacheKey(t, id) := Entry(data, written, CACHE_VERSION)];
            Lookup(stored, t, id, now) == if now - written <= CACHE_TTL then Some(data) else None
  {
  }

  /** Adding a key of the category adds it to the category's keys. */
  lemma KeysOfTypeUpdate<T>(store: map<string, Entry<T>>, t: CacheType, key: string, e: Entry<T>)
    ensures Prefix(t) <= key ==> KeysOfType(store[key := e], t) == KeysOfType(store, t) + {key}
    ensures !(Prefix(t) <= key) ==> KeysOfType(store[key := e], t) == KeysOfType(store, t)
  {
  }

  /**
   * Writing one entry of category `t` after eviction never takes a category
   * within the limit over it, and leaves the other category as it was.
   */
  lemma {:induction false} WriteKeepsLimit<T>(before: map<string, Entry<T>>, t: CacheType,
                                              evicted: map<string, Entry<T>>, id: int, e: Entry<T>)
    requires Evicted(before, t, evicted)
    ensures var after := evicted[CacheKey(t, id) := e];
            |KeysOfType(before, t)| <= MAX_CACHE_ENTRIES ==> |KeysOfType(after, t)| <= MAX_CACHE_ENTRIES
    ensures var after := evicted[CacheKey(t, id) := e];
            forall u, k :: u != t && k in KeysOfType(before, u) ==> k in after && after[k] == before[k]
    ensures var after := evicted[CacheKey(t, id) := e];
            forall u :: u != t ==> KeysOfType(after, u) == KeysOfType(before, u)
  {
    var key := CacheKey(t, id);
    var after := evicted[key := e];
    KeysOfTypeUpdate(evicted, t, key, e);
    EvictionStaysInType(before, t, evicted);
    forall u, k | u != t && k in KeysOfType(before, u) ensures k in after && after[k] == before[k] {
      PrefixesDisjoint(k);
      PrefixesDisjoint(key);
      assert !(Prefix(t) <= k);
    }
    forall u | u != t ensures KeysOfType(after, u) == KeysOfType(before, u) {
      forall k | k in KeysOfType(after, u) ensures k in KeysOfType(before, u) {
        PrefixesDisjoint(k);
      }
    }
  }

  /**
   * Eviction leaves a category that was within the limit below it, and
   * removes nothing outside that category.
   */
  lemma EvictionStaysInType<T>(before: map<string, Entry<T>>, t: CacheType, evicted: map<string, Entry<T>>)
    requires Evicted(before, t, evicted)
    ensures |KeysOfType(before, t)| <= MAX_CACHE_ENTRIES ==> |KeysOfType(evicted, t)| < MAX_CACHE_ENTRIES
    ensures evicted.Keys <= before.Keys
    ensures forall k :: k in before && !(Prefix(t) <= k) ==> k in evicted && evicted[k] == before[k]
  {
    if |KeysOfType(before, t)| >= MAX_CACHE_ENTRIES {
      var k :| OldestOfType(before, t, k) && evicted == before - {k};
      assert KeysOfType(evicted, t) == KeysOfType(before, t) - {k};
    }
  }

  /** The store behind the cache functions. */
  class LocalCache<T> {
    /** Whether `window` and `localStorage` exist: `isBrowser()`. */
    const browser: bool
    /** The contents of `localStorage`. */
    var store: map<string, Entry<T>>

    constructor (browser: bool, store: map<string, Entry<T>>)
      ensures this.browser == browser && this.store == store
    {
      this.browser := browser;
      this.store := store;
    }

    /**
     * `getCacheEntries`: every key of the category, once each, with its
     * entry's timestamp, in the store's own key order.
     */
    method GetCacheEntries(t: CacheType) returns (entries: seq<Listing>)
      ensures !browser ==> entries == []
      ensures browser ==> ListedKeys(entries) == KeysOfType(store, t)
                          && |entries| == |KeysOfType(store, t)|
      ensures forall i :: 0 <= i < |entries| ==>
                entries[i].key in store && entries[i].timestamp == store[entries[i].key].timestamp
    {
      entries := [];
      if !browser {
        return;
      }
      var prefix := Prefix(t);
      var remaining := store.Keys;
      while remaining != {}
        invariant remaining <= store.Keys
        invariant ListedKeys(entries) == set k | k in store.Keys - remaining && prefix <= k
        invariant |entries| == |ListedKeys(entries)|
        invariant forall i :: 0 <= i < |entries| ==>
                    entries[i].key in store && entries[i].timestamp == store[entries[i].key].timestamp
        decreases |remaining|
      {
        var key :| key in remaining;
        if prefix <= key {
          var listing := Listing(key, store[key].timestamp);
          assert ListedKeys(entries + [listing]) == ListedKeys(entries) + {key};
          entries := entries + [listing];
        }
        remaining := remaining - {key};
      }
    }

    /**
     * The first of the oldest listings, if any: the head of the listings
     * after the stable sort by timestamp in `evictIfNeeded`.
     */
    method Oldest(entries: seq<Listing>) returns (oldest: Option<nat>)
      ensures entries == [] <==> oldest.None?
      ensures oldest.Some? ==>
                && oldest.value < |entries|
                && (forall j :: 0 <= j < |entries| ==> entries[oldest.value].timestamp <= entries[j].timestamp)
                && (forall j :: 0 <= j < oldest.value ==> entries[j].timestamp > entries[oldest.value].timestamp)
    {
      if entries == [] {
        return None;
      }
      var best := 0;
      var j := 1;
      while j < |entries|
        invariant 1 <= j <= |entries| && best < j
        invariant forall m :: 0 <= m < j ==> entries[best].timestamp <= entries[m].timestamp
        invariant forall m :: 0 <= m < best ==> entries[m].timestamp > entries[best].timestamp
      {
        if entries[j].timestamp < entries[best].timestamp {
          best := j;
        }
        j := j + 1;
      }
      return Some(best);
    }

    /** `evictIfNeeded`: a full category loses one of its oldest entries. */
    method EvictIfNeeded(t: CacheType)
      modifies this
      ensures !browser ==> store == old(store)
      ensures browser ==> Evicted(old(store), t, store)
    {
      var entries := GetCacheEntries(t);
      if |entries| >= MAX_CACHE_ENTRIES {
        var oldest := Oldest(entries);
        if oldest.Some? {
          var victim := entries[oldest.value].key;
          forall k' | k' in KeysOfType(store, t) ensures store[victim].timestamp <= store[k'].timestamp {
            var e :| e in entries && e.key == k';
            var j :| 0 <= j < |entries| && entries[j] == e;
          }
          assert OldestOfType(store, t, victim);
          store := store - {victim};
        }
      }
    }

    /**
     * `setCache`: make room in the category, then store the value under its
     * key, stamped with the current time and version.
     */
    method SetCache(t: CacheType, id: int, data: T, now: int)
      modifies this
      ensures !browser ==> store == old(store)
      ensures browser ==> exists evicted :: Evicted(old(store), t, evicted)
                            && store == evicted[CacheKey(t, id) := Entry(data, now, CACHE_VERSION)]
      ensures browser && |KeysOfType(old(store), t)| <= MAX_CACHE_ENTRIES ==>
                |KeysOfType(store, t)| <= MAX_CACHE_ENTRIES
      ensures forall u :: u != t ==> KeysOfType(store, u) == KeysOfType(old(store), u)
    {
      if !browser {
        return;
      }
      EvictIfNeeded(t);
      ghost var evicted := store;
      var key := CacheKey(t, id);
      var entry := Entry(data, now, CACHE_VERSION);
      store := store[key := entry];
      WriteKeepsLimit(old(store), t, evicted, id, entry);
    }

    /**
     * `getCache`: the stored value if present and unexpired; an expired
     * entry is removed on the way.
     */
    method GetCache(t: CacheType, id: int, now: int) returns (r: Option<T>)
      modifies this
      ensures !browser ==> r == None && store == old(store)
      ensures browser ==> r == Lookup(old(store), t, id, now)
      ensures browser ==>
                var key := CacheKey(t, id);
                store == if key in old(store) && IsExpired(old(store)[key], now)
                         then old(store) - {key} else old(store)
    {
      if !browser {
        return None;
      }
      var key := CacheKey(t, id);
      if key !in store {
        return None;
      }
      var entry := store[key];
      if IsExpired(entry, now) {
        store := store - {key};
        return None;
      }
      return Some(entry.data);
    }

    /** `clearOldEntries`: drop the category's entries older than the TTL. */
    method ClearOldEntries(t: CacheType, now: int)
      modifies this
      ensures !browser ==> store == old(store)
      ensures browser ==> store == old(store) - StaleKeys(old(store), t, now)
    {
      var entries := GetCacheEntries(t);
      ghost var removed: set<string> := {};
      var i := 0;
      while i < |entries|
        invariant 0 <= i <= |entries|
        invariant removed == set j | 0 <= j < i && now - entries[j].timestamp > CACHE_TTL :: entries[j].key
        invariant store == old(store) - removed
      {
        var listing := entries[i];
        if now - listing.timestamp > CACHE_TTL {
          store := store - {listing.key};
          removed := removed + {listing.key};
        }
        i := i + 1;
      }
      if browser {
        assert removed == StaleKeys(old(store), t, now) by {
          forall k | k in StaleKeys(old(store), t, now) ensures k in removed {
            assert k in ListedKeys(entries);
            var e :| e in entries && e.key == k;
            var j :| 0 <= j < |entries| && entries[j] == e;
          }
          forall k | k in removed ensures k in StaleKeys(old(store), t, now) {
            var j :| 0 <= j < |entries| && now - entries[j].timestamp > CACHE_TTL && entries[j].key == k;
            assert entries[j] in entries;
            assert k in ListedKeys(entries);
          }
        }
      }
    }

    /** The first loop of `clearCache`: every key of the store that starts with `prefix`. */
    method KeysWithPrefix(prefix: string) returns (keys: seq<string>)
      ensures (set k | k in keys) == set k | k in store && prefix <= k
    {
      keys := [];
      var remaining := store.Keys;
      while remaining != {}
        invariant remaining <= store.Keys
        invariant (set k | k in keys) == set k | k in store.Keys - remaining && prefix <= k
        decreases |remaining|
      {
        var key :| key in remaining;
        if prefix <= key {
          assert (set k | k in keys + [key]) == (set k | k in keys) + {key};
          keys := keys + [key];
        }
        remaining := remaining - {key};
      }
    }

    /** The second loop of `clearCache`: `removeItem` for each key given. */
    method RemoveKeys(keys: seq<string>)
      modifies this
      ensures store == old(store) - (set k | k in keys)
    {
      ghost var removed: set<string> := {};
      var i := 0;
      while i < |keys|
        invariant 0 <= i <= |keys|
        invariant removed == set k | k in keys[..i]
        invariant store == old(store) - removed
      {
        assert keys[..i + 1] == keys[..i] + [keys[i]];
        store := store - {keys[i]};
        removed := removed + {keys[i]};
        i := i + 1;
      }
      assert keys[..i] == keys;
    }

    /**
     * `clearCache`: drop every entry of the category, or of both categories
     * when none is given; other keys are kept.
     */
    method ClearCache(t: Option<CacheType>)
      modifies this
      decreases if t.None? then 1 else 0
      ensures !browser ==> store == old(store)
      ensures browser && t.Some? ==> store == old(store) - KeysOfType(old(store), t.value)
      ensures browser && t.None? ==>
                store == old(store) - KeysOfType(old(store), Anime) - KeysOfType(old(store), Seiyuu)
    {
      if !browser {
        return;
      }
      if t.Some? {
        var keysToRemove := KeysWithPrefix(Prefix(t.value));
        RemoveKeys(keysToRemove);
      } else {
        ClearCache(Some(Anime));
        ghost var mid := store;
        ClearCache(Some(Seiyuu));
        assert KeysOfType(mid, Seiyuu) == KeysOfType(old(store), Seiyuu) by {
          forall k | k in KeysOfType(old(store), Seiyuu) ensures k in mid {
            PrefixesDisjoint(k);
          }
        }
      }
    }

    /** `getCacheStats`: the number of entries per category, and their sum. */
    method GetCacheStats() returns (stats: CacheStats)
      ensures !browser ==> stats == CacheStats(0, 0, 0)
      ensures browser ==> stats.anime == |KeysOfType(store, Anime)|
                          && stats.seiyuu == |KeysOfType(store, Seiyuu)|
                          && stats.total == |KeysOfType(store, Anime) + KeysOfType(store, Seiyuu)|
      ensures stats.total == stats.anime + stats.seiyuu
    {
      var animeEntries := GetCacheEntries(Anime);
      var seiyuuEntries := GetCacheEntries(Seiyuu);
      forall k | k in KeysOfType(store, Anime) ensures k !in KeysOfType(store, Seiyuu) {
        PrefixesDisjoint(k);
      }
      stats := CacheStats(|animeEntries|, |seiyuuEntries|, |animeEntries| + |seiyuuEntries|);
    }
  }
}
