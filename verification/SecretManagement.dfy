/** The TTL secret cache and the providers in front of a changing store (`backend/app/core/secrets.py`). */
module SecretManagement {
  import opened Wrappers

  datatype Entry = Entry(value: string, expires: real)

  type Cache = map<string, Entry>

  /** The value while it is unexpired. */
  function Lookup(cache: Cache, name: string, now: real): Option<string> {
    if name in cache && now < cache[name].expires then Some(cache[name].value) else None
  }

  function AfterLookup(cache: Cache, name: string, now: real): Cache {
    if name in cache && now >= cache[name].expires then cache - {name} else cache
  }

  /** What `get_secret` returns when the store holds `current`: the cached value, or that. */
  function Fetched(cache: Cache, name: string, current: string, lookupTime: real): string {
    match Lookup(cache, name, lookupTime)
    case Some(value) => value
    case None => current
  }

  /** A miss caches what was read, unless it is empty. */
  function AfterFetch(cache: Cache, ttl: int, name: string, current: string, lookupTime: real, storeTime: real): Cache {
    var looked := AfterLookup(cache, name, lookupTime);
    if Lookup(cache, name, lookupTime).Some? || current == "" then looked
    else looked[name := Entry(current, storeTime + ttl as real)]
  }

  /** `os.getenv(name, "")` */
  function GetEnv(env: map<string, string>, name: string): string {
    if name in env then env[name] else ""
  }

  class SecretCache {
    const ttlSeconds: int
    var cache: Cache

    constructor (ttlSeconds: int)
      ensures this.ttlSeconds == ttlSeconds && cache == map[]
    {
      this.ttlSeconds, cache := ttlSeconds, map[];
    }

    method Get(name: string, now: real) returns (r: Option<string>)
      modifies this
      ensures r == Lookup(old(cache), name, now) && cache == AfterLookup(old(cache), name, now)
    {
      if name in cache {
        var entry := cache[name];
        if now < entry.expires {
          return Some(entry.value);
        }
        cache := cache - {name};
      }
      return None;
    }

    method Set(name: string, value: string, ttl: Option<int>, now: real)
      modifies this
      ensures cache == old(cache)[name := Entry(value, now + (if ttl.Some? then ttl.value else ttlSeconds) as real)]
    {
      var seconds := if ttl.Some? then ttl.value else ttlSeconds;
      cache := cache[name := Entry(value, now + seconds as real)];
    }

    method Evict(name: string)
      modifies this
      ensures cache == old(cache) - {name}
    {
      cache := cache - {name};
    }
  }

  class EnvSecretProvider {
    const cache: SecretCache

    constructor (cacheTtlSeconds: int)
      ensures fresh(cache) && cache.ttlSeconds == cacheTtlSeconds && cache.cache == map[]
    {
      cache := new SecretCache(cacheTtlSeconds);
    }

    /** The clock is read once for the lookup and once more when a value is stored. */
    method GetSecret(env: map<string, string>, name: string, lookupTime: real, storeTime: real) returns (val: string)
      modifies cache
      ensures val == Fetched(old(cache.cache), name, GetEnv(env, name), lookupTime)
      ensures Lookup(old(cache.cache), name, lookupTime).None? ==> val == if name in env then env[name] else ""
      ensures cache.cache
           == AfterFetch(old(cache.cache), cache.ttlSeconds, name, GetEnv(env, name), lookupTime, storeTime)
    {
      var cached := cache.Get(name, lookupTime);
      if cached.Some? {
        return cached.value;
      }
      val := GetEnv(env, name);
      if val != "" {
        cache.Set(name, val, None, storeTime);
      }
    }

    method RefreshSecret(name: string)
      modifies cache
      ensures cache.cache == old(cache.cache) - {name}
    {
      cache.Evict(name);
    }
  }

  class VaultKmsSecretProvider {
    const cache: SecretCache
    var secrets: map<string, string>
    var versions: map<string, map<string, string>>

    constructor (cacheTtlSeconds: int)
      ensures fresh(cache) && cache.ttlSeconds == cacheTtlSeconds && cache.cache == map[]
      ensures secrets == map[] && versions == map[]
    {
      cache := new SecretCache(cacheTtlSeconds);
      secrets, versions := map[], map[];
    }

    /** The store's current value of a name. */
    function Current(env: map<string, string>, name: string): string
      reads this
    {
      if name in secrets then secrets[name] else GetEnv(env, name)
    }

    /** Changes the store and leaves the cache alone. */
    method SetMockSecret(name: string, value: string, version: string)
      modifies this
      ensures secrets == old(secrets)[name := value]
      ensures versions
           == old(versions)[name := (if name in old(versions) then old(versions)[name] else map[])[version := value]]
    {
      secrets := secrets[name := value];
      if name !in versions {
        versions := versions[name := map[]];
      }
      versions := versions[name := versions[name][version := value]];
    }

    method GetSecret(env: map<string, string>, name: string, lookupTime: real, storeTime: real) returns (val: string)
      modifies cache
      ensures val == Fetched(old(cache.cache), name, Current(env, name), lookupTime)
      ensures Lookup(old(cache.cache), name, lookupTime).None? ==>
        val == if name in secrets then secrets[name] else if name in env then env[name] else ""
      ensures cache.cache
           == AfterFetch(old(cache.cache), cache.ttlSeconds, name, Current(env, name), lookupTime, storeTime)
    {
      var cached := cache.Get(name, lookupTime);
      if cached.Some? {
        return cached.value;
      }
      val := Current(env, name);
      if val != "" {
        cache.Set(name, val, None, storeTime);
      }
    }

    /** The current secret is fetched, and cached, even when the version asked for is known. */
    method GetSecretVersion(env: map<string, string>, name: string, version: string, lookupTime: real, storeTime: real)
      returns (val: string)
      modifies cache
      ensures val ==
        if name in versions && version in versions[name] then versions[name][version]
        else Fetched(old(cache.cache), name, Current(env, name), lookupTime)
      ensures cache.cache
           == AfterFetch(old(cache.cache), cache.ttlSeconds, name, Current(env, name), lookupTime, storeTime)
    {
      var known := if name in versions then versions[name] else map[];
      var default := GetSecret(env, name, lookupTime, storeTime);
      val := if version in known then known[version] else default;
    }

    method RefreshSecret(name: string)
      modifies cache
      ensures cache.cache == old(cache.cache) - {name}
    {
      cache.Evict(name);
    }
  }

  /** A lookup returns exactly an unexpired value, and leaves no expired entry under that name; other names it leaves alone. */
  lemma LookupMeaning(cache: Cache, name: string, now: real)
    ensures forall v :: Lookup(cache, name, now) == Some(v) <==>
      name in cache && cache[name].value == v && cache[name].expires > now
    ensures Lookup(cache, name, now).Some? <==> name in AfterLookup(cache, name, now)
    ensures name in AfterLookup(cache, name, now) ==> AfterLookup(cache, name, now)[name] == cache[name]
    ensures AfterLookup(cache, name, now) - {name} == cache - {name}
  {
  }

  /** The store's own value comes before the environment's, and nothing at all is the empty text. */
  lemma StoreBeforeEnvironment(provider: VaultKmsSecretProvider, env: map<string, string>, name: string)
    ensures name in provider.secrets ==> provider.Current(env, name) == provider.secrets[name]
    ensures name !in provider.secrets && name in env ==> provider.Current(env, name) == GetEnv(env, name) == env[name]
    ensures name !in provider.secrets && name !in env ==> provider.Current(env, name) == GetEnv(env, name) == ""
  {
  }

  // ---------- bounded staleness ----------

  /** One use of a provider. A read sees the store at that moment, which anyone may have changed since. */
  datatype Use =
    | Read(name: string, current: string, lookupTime: real, storeTime: real)
    | Refresh(name: string)

  function AfterUse(cache: Cache, ttl: int, u: Use): Cache {
    match u
    case Read(name, current, lookupTime, storeTime) => AfterFetch(cache, ttl, name, current, lookupTime, storeTime)
    case Refresh(name) => cache - {name}
  }

  /** The caches passed through by a history of uses. */
  datatype History = History(caches: seq<Cache>, uses: seq<Use>)

  ghost predicate UsedAt(h: History, ttl: int, k: int) {
    0 <= k < |h.uses| && |h.caches| == |h.uses| + 1 && h.caches[k + 1] == AfterUse(h.caches[k], ttl, h.uses[k])
  }

  /** A history begins with an empty cache. */
  ghost predicate IsHistory(h: History, ttl: int) {
    |h.caches| == |h.uses| + 1 && h.caches[0] == map[] &&
    forall k {:trigger UsedAt(h, ttl, k)} :: 0 <= k < |h.uses| ==> UsedAt(h, ttl, k)
  }

  /** Read `i` put `value` into the cache until `expires`, and the name was not refreshed before use `k`. */
  ghost predicate CachedBy(h: History, ttl: int, i: int, k: int, name: string, e: Entry)
    requires 0 <= i < k <= |h.uses|
  {
    h.uses[i].Read? && h.uses[i].name == name && h.uses[i].current == e.value && e.value != "" &&
    e.expires == h.uses[i].storeTime + ttl as real &&
    forall m :: i < m < k ==> h.uses[m] != Refresh(name)
  }

  ghost predicate Explained(h: History, ttl: int, k: int, cache: Cache)
    requires 0 <= k <= |h.uses|
  {
    forall name :: name in cache ==> exists i :: 0 <= i < k && CachedBy(h, ttl, i, k, name, cache[name])
  }

  lemma ExplainedAfterUse(h: History, ttl: int, k: nat)
    requires IsHistory(h, ttl) && k < |h.uses| && Explained(h, ttl, k, h.caches[k])
    ensures Explained(h, ttl, k + 1, h.caches[k + 1])
  {
    assert UsedAt(h, ttl, k);
    var n := k + 1;
    var before, after, u := h.caches[k], h.caches[n], h.uses[k];
    forall name | name in after
      ensures exists i :: 0 <= i < n && CachedBy(h, ttl, i, n, name, after[name])
    {
      if name in before && after[name] == before[name] && u != Refresh(name) {
        var i :| 0 <= i < k && CachedBy(h, ttl, i, k, name, before[name]);
        assert CachedBy(h, ttl, i, n, name, after[name]);
      } else {
        assert CachedBy(h, ttl, k, n, name, after[name]);
      }
    }
  }

  lemma {:induction false} CacheAlwaysExplained(h: History, ttl: int, k: nat)
    requires IsHistory(h, ttl) && k <= |h.uses|
    ensures Explained(h, ttl, k, h.caches[k])
  {
    if k > 0 {
      CacheAlwaysExplained(h, ttl, k - 1);
      ExplainedAfterUse(h, ttl, k - 1);
    }
  }

  /** What read `k` returns. */
  function ReturnedAt(h: History, k: nat): string
    requires k < |h.uses| < |h.caches| && h.uses[k].Read?
  {
    Fetched(h.caches[k], h.uses[k].name, h.uses[k].current, h.uses[k].lookupTime)
  }

  /** Read `i` saw this value in the store less than the TTL before read `k`, with no refresh of the name between. */
  ghost predicate SeenRecently(h: History, ttl: int, i: int, k: int, value: string)
    requires 0 <= i < k < |h.uses| && h.uses[k].Read?
  {
    var earlier, later := h.uses[i], h.uses[k];
    earlier.Read? && earlier.name == later.name && earlier.current == value && value != "" &&
    later.lookupTime < earlier.storeTime + ttl as real &&
    forall m :: i < m < k ==> h.uses[m] != Refresh(later.name)
  }

  /** Each value returned is the store's current one, or a non-empty one seen there within the TTL. */
  lemma BoundedStaleness(h: History, ttl: int, k: nat)
    requires IsHistory(h, ttl) && k < |h.uses| && h.uses[k].Read?
    ensures ReturnedAt(h, k) == h.uses[k].current ||
            exists i :: 0 <= i < k && SeenRecently(h, ttl, i, k, ReturnedAt(h, k))
  {
    CacheAlwaysExplained(h, ttl, k);
    var name := h.uses[k].name;
    if Lookup(h.caches[k], name, h.uses[k].lookupTime).Some? {
      var i :| 0 <= i < k && CachedBy(h, ttl, i, k, name, h.caches[k][name]);
      assert SeenRecently(h, ttl, i, k, ReturnedAt(h, k));
    }
  }

  /** The first read of a name after its refresh returns the current value. */
  lemma CurrentAfterRefresh(h: History, ttl: int, r: nat, k: nat)
    requires IsHistory(h, ttl) && r < k < |h.uses| && h.uses[k].Read?
    requires h.uses[r] == Refresh(h.uses[k].name)
    requires forall m :: r < m < k ==> !(h.uses[m].Read? && h.uses[m].name == h.uses[k].name)
    ensures ReturnedAt(h, k) == h.uses[k].current
  {
    BoundedStaleness(h, ttl, k);
  }

  /** The clock does not run backwards, within a read or from one read to a later one. */
  ghost predicate ClockRuns(uses: seq<Use>) {
    forall a, b :: 0 <= a <= b < |uses| && uses[a].Read? && uses[b].Read? ==>
      (a < b ==> uses[a].storeTime <= uses[b].lookupTime) && uses[b].lookupTime <= uses[b].storeTime
  }

  /** With a TTL of zero or less nothing is ever served from the cache: every read returns the current value. */
  lemma NoTtlNoStaleness(h: History, ttl: int, k: nat)
    requires IsHistory(h, ttl) && ClockRuns(h.uses) && ttl <= 0 && k < |h.uses| && h.uses[k].Read?
    ensures ReturnedAt(h, k) == h.uses[k].current
  {
    BoundedStaleness(h, ttl, k);
  }

  /** What read `i`, a miss on a non-empty value, leaves in the cache. */
  ghost predicate StoresAt(h: History, i: nat)
    requires i < |h.uses| < |h.caches|
  {
    var u := h.uses[i];
    u.Read? && Lookup(h.caches[i], u.name, u.lookupTime).None? && u.current != ""
  }

  lemma {:induction false} EntryStays(h: History, ttl: int, i: nat, k: nat, last: real)
    requires IsHistory(h, ttl) && i < k <= |h.uses| && StoresAt(h, i)
    requires last < h.uses[i].storeTime + ttl as real
    requires forall m :: i < m < k ==> h.uses[m] != Refresh(h.uses[i].name)
    requires forall m :: i < m < k && h.uses[m].Read? ==> h.uses[m].lookupTime <= last
    ensures h.uses[i].name in h.caches[k]
    ensures h.caches[k][h.uses[i].name] == Entry(h.uses[i].current, h.uses[i].storeTime + ttl as real)
    decreases k
  {
    assert UsedAt(h, ttl, k - 1);
    if i < k - 1 {
      EntryStays(h, ttl, i, k - 1, last);
    }
  }

  /** And within the TTL, unless refreshed, it is what every read returns, whatever the store now holds. */
  lemma ServedFromCache(h: History, ttl: int, i: nat, k: nat)
    requires IsHistory(h, ttl) && ClockRuns(h.uses) && i < k < |h.uses| && StoresAt(h, i)
    requires h.uses[k].Read? && h.uses[k].name == h.uses[i].name
    requires h.uses[k].lookupTime < h.uses[i].storeTime + ttl as real
    requires forall m :: i < m < k ==> h.uses[m] != Refresh(h.uses[i].name)
    ensures ReturnedAt(h, k) == h.uses[i].current
  {
    forall m | i < m < k && h.uses[m].Read? ensures h.uses[m].lookupTime <= h.uses[k].lookupTime {
      assert h.uses[m].lookupTime <= h.uses[m].storeTime <= h.uses[k].lookupTime;
    }
    EntryStays(h, ttl, i, k, h.uses[k].lookupTime);
  }
}
