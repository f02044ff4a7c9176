/**
 * The read-through cache of the CMS client (`getCachedData`, `setCacheData`
 * and the cache-key and hit/miss logic of the `get*` functions). Cached values
 * are arbitrary JavaScript values; a getter only serves a cached value that is
 * truthy. The CMS fetch is an input: the value the query would return.
 */
module ContentfulCache {

  /** The JavaScript values the CMS client hands back, enough to decide truthiness. */
  datatype JsValue =
    | Undefined
    | Null
    | Bool(b: bool)
    | Number(n: int)
    | Text(s: string)
    | Entry(id: string)
    | List(items: seq<JsValue>)

  /** JavaScript truthiness: objects and arrays are always truthy, even empty ones. */
  predicate Truthy(v: JsValue) {
    match v
    case Undefined => false
    case Null => false
    case Bool(b) => b
    case Number(n) => n != 0
    case Text(s) => s != ""
    case Entry(_) => true
    case List(_) => true
  }

  /** Cache lifetime in seconds. */
  const CacheDuration: int := 60 * 60

  datatype CacheItem = CacheItem(data: JsValue, timestamp: int)

  type Cache = map<string, CacheItem>

  /** The source's staleness test `(now - timestamp) / 1000 > CACHE_DURATION`, on exact reals. */
  predicate Stale(item: CacheItem, now: int) {
    (now - item.timestamp) as real / 1000.0 > CacheDuration as real
  }

  /** The staleness test is a strict comparison of the age in ms with 3,600,000. */
  lemma StaleIffOlderThanAnHour(item: CacheItem, now: int)
    ensures Stale(item, now) <==> now - item.timestamp > 3_600_000
  {
  }

  /** `getCachedData(key)` at instant `now`: the value (Null on a miss) and the cache afterwards. */
  function GetCachedData(cache: Cache, key: string, now: int): (r: (JsValue, Cache))
    // absent: null, nothing changes
    ensures key !in cache ==> r == (Null, cache)
    // stale: null, and only that key is removed
    ensures key in cache && now - cache[key].timestamp > 3_600_000 ==>
              r.0 == Null && r.1.Keys == cache.Keys - {key}
              && forall k :: k in r.1 ==> r.1[k] == cache[k]
    // fresh, including exactly one hour old: the stored data, nothing changes
    ensures key in cache && now - cache[key].timestamp <= 3_600_000 ==> r == (cache[key].data, cache)
  {
    if key !in cache then (Null, cache)
    else
      var item := cache[key];
      StaleIffOlderThanAnHour(item, now);
      if Stale(item, now) then (Null, cache - {key})
      else (item.data, cache)
  }

  /** `setCacheData(key, data)` at instant `now`: stores, overwriting, and returns the data. */
  function SetCacheData(cache: Cache, key: string, data: JsValue, now: int): (r: (JsValue, Cache))
    ensures r.0 == data
    ensures r.1.Keys == cache.Keys + {key}
    ensures r.1[key] == CacheItem(data, now)
    ensures forall k :: k in cache && k != key ==> r.1[k] == cache[k]
  {
    (data, cache[key := CacheItem(data, now)])
  }

  /** Storing then reading back within the hour returns what was stored. */
  lemma SetThenGet(cache: Cache, key: string, data: JsValue, now: int, later: int)
    requires now <= later <= now + 3_600_000
    ensures var stored := SetCacheData(cache, key, data, now).1;
            GetCachedData(stored, key, later) == (data, stored)
  {
  }

  /**
   * The common shape of the getters: serve a truthy cached value, otherwise
   * store and return `fetched`, the value the CMS query produced.
   */
  function ReadThrough(cache: Cache, key: string, now: int, fetched: JsValue): (r: (JsValue, Cache))
    ensures key in cache && now - cache[key].timestamp <= 3_600_000 && Truthy(cache[key].data) ==>
              r == (cache[key].data, cache)
    ensures !(key in cache && now - cache[key].timestamp <= 3_600_000 && Truthy(cache[key].data)) ==>
              r.0 == fetched && r.1 == (cache - {key})[key := CacheItem(fetched, now)]
  {
    var (cached, cache1) := GetCachedData(cache, key, now);
    if Truthy(cached) then (cached, cache1)
    else SetCacheData(cache1, key, fetched, now)
  }

  /** A cached falsy value, such as the `undefined` of a missing gallery, is refetched. */
  lemma FalsyCachedIsRefetched(cache: Cache, key: string, now: int, fetched: JsValue)
    requires key in cache && !Truthy(cache[key].data)
    ensures ReadThrough(cache, key, now, fetched) == (fetched, cache[key := CacheItem(fetched, now)])
  {
    assert (cache - {key})[key := CacheItem(fetched, now)] == cache[key := CacheItem(fetched, now)];
  }

  // ---- cache keys ----

  const GalleriesKey: string := "galleries"
  const HomePageKey: string := "homepage"
  const AboutPageKey: string := "aboutpage"

  /** `gallery_${slug}`. */
  function GalleryKey(slug: string): string {
    "gallery_" + slug
  }

  function DigitChar(d: int): (c: char)
    requires 0 <= d < 10
    ensures '0' <= c <= '9'
  {
    ('0' as int + d) as char
  }

  /** The decimal digits of `n`, most significant first, as `${n}` writes them. */
  function NatToString(n: nat): (s: string)
    ensures |s| >= 1
    ensures forall k :: 0 <= k < |s| ==> '0' <= s[k] <= '9'
    ensures n >= 10 ==> |s| >= 2
  {
    if n < 10 then [DigitChar(n)] else NatToString(n / 10) + [DigitChar(n % 10)]
  }

  /** `${n}` for an integer `n`. */
  function IntToString(n: int): string {
    if n < 0 then "-" + NatToString(-n) else NatToString(n)
  }

  lemma {:induction false} NatToStringInjective(a: nat, b: nat)
    requires NatToString(a) == NatToString(b)
    ensures a == b
  {
    var sa, sb := NatToString(a), NatToString(b);
    if a < 10 && b < 10 {
      assert sa[0] == sb[0];
    } else if a >= 10 && b >= 10 {
      assert sa[|sa| - 1] == sb[|sb| - 1];
      assert NatToString(a / 10) == sa[..|sa| - 1];
      assert NatToString(b / 10) == sb[..|sb| - 1];
      NatToStringInjective(a / 10, b / 10);
    }
  }

  /** `${n}` starts with a minus sign exactly for negative numbers. */
  lemma SignChar(n: int)
    ensures |IntToString(n)| >= 1
    ensures IntToString(n)[0] == '-' <==> n < 0
  {
  }

  lemma IntToStringInjective(a: int, b: int)
    requires IntToString(a) == IntToString(b)
    ensures a == b
  {
    SignChar(a);
    SignChar(b);
    if a < 0 && b < 0 {
      assert NatToString(-a) == IntToString(a)[1..];
      assert NatToString(-b) == IntToString(b)[1..];
      NatToStringInjective(-a, -b);
    } else if a >= 0 && b >= 0 {
      NatToStringInjective(a, b);
    }
  }

  /** `featured_galleries_${limit}`. */
  function FeaturedKey(limit: int): string {
    "featured_galleries_" + IntToString(limit)
  }

  /** Distinct slugs or limits never share a cache entry, and the key families never collide. */
  lemma CacheKeysDistinct(s1: string, s2: string, l1: int, l2: int)
    ensures GalleryKey(s1) == GalleryKey(s2) ==> s1 == s2
    ensures FeaturedKey(l1) == FeaturedKey(l2) ==> l1 == l2
    ensures GalleryKey(s1) != FeaturedKey(l1)
    ensures GalleryKey(s1) !in {GalleriesKey, HomePageKey, AboutPageKey}
    ensures FeaturedKey(l1) !in {GalleriesKey, HomePageKey, AboutPageKey}
  {
    if GalleryKey(s1) == GalleryKey(s2) {
      assert s1 == GalleryKey(s1)[8..];
      assert s2 == GalleryKey(s2)[8..];
    }
    if FeaturedKey(l1) == FeaturedKey(l2) {
      assert IntToString(l1) == FeaturedKey(l1)[19..];
      assert IntToString(l2) == FeaturedKey(l2)[19..];
      IntToStringInjective(l1, l2);
    }
    assert GalleryKey(s1)[0] != FeaturedKey(l1)[0];
    assert GalleryKey(s1)[7] == '_';
    assert FeaturedKey(l1)[0] == 'f';
  }

  // ---- getters ----

  /** `getGalleries()`; `items` is `response.items` of the CMS query. */
  function GetGalleries(cache: Cache, now: int, items: JsValue): (r: (JsValue, Cache))
    ensures r.1.Keys == cache.Keys + {GalleriesKey}
    ensures forall k :: k in cache && k != GalleriesKey ==> r.1[k] == cache[k]
    // a falsy answer is the fetched value, now cached; a truthy one is that too, or the untouched fresh hit
    ensures !Truthy(r.0) ==> r.0 == items && r.1[GalleriesKey] == CacheItem(items, now)
    ensures Truthy(r.0) ==> (r.0 == items && r.1[GalleriesKey] == CacheItem(items, now))
                            || (GalleriesKey in cache && r == (cache[GalleriesKey].data, cache))
  {
    ReadThrough(cache, GalleriesKey, now, items)
  }

  /** `getGalleryBySlug(slug)`; `first` is `response.items[0]`, Undefined when nothing matched. */
  function GetGalleryBySlug(cache: Cache, slug: string, now: int, first: JsValue): (r: (JsValue, Cache))
    ensures r.1.Keys == cache.Keys + {GalleryKey(slug)}
    ensures forall k :: k in cache && k != GalleryKey(slug) ==> r.1[k] == cache[k]
    // a falsy answer is the fetched value, now cached; a truthy one is that too, or the untouched fresh hit
    ensures !Truthy(r.0) ==> r.0 == first && r.1[GalleryKey(slug)] == CacheItem(first, now)
    ensures Truthy(r.0) ==> (r.0 == first && r.1[GalleryKey(slug)] == CacheItem(first, now))
                            || (GalleryKey(slug) in cache && r == (cache[GalleryKey(slug)].data, cache))
  {
    ReadThrough(cache, GalleryKey(slug), now, first)
  }

  /** `getHomePage()`; `first` is `response.items[0]`. */
  function GetHomePage(cache: Cache, now: int, first: JsValue): (r: (JsValue, Cache))
    ensures r.1.Keys == cache.Keys + {HomePageKey}
    ensures forall k :: k in cache && k != HomePageKey ==> r.1[k] == cache[k]
    // a falsy answer is the fetched value, now cached; a truthy one is that too, or the untouched fresh hit
    ensures !Truthy(r.0) ==> r.0 == first && r.1[HomePageKey] == CacheItem(first, now)
    ensures Truthy(r.0) ==> (r.0 == first && r.1[HomePageKey] == CacheItem(first, now))
                            || (HomePageKey in cache && r == (cache[HomePageKey].data, cache))
  {
    ReadThrough(cache, HomePageKey, now, first)
  }

  /** `getAboutPage()`; `first` is `response.items[0]`. */
  function GetAboutPage(cache: Cache, now: int, first: JsValue): (r: (JsValue, Cache))
    ensures r.1.Keys == cache.Keys + {AboutPageKey}
    ensures forall k :: k in cache && k != AboutPageKey ==> r.1[k] == cache[k]
    // a falsy answer is the fetched value, now cached; a truthy one is that too, or the untouched fresh hit
    ensures !Truthy(r.0) ==> r.0 == first && r.1[AboutPageKey] == CacheItem(first, now)
    ensures Truthy(r.0) ==> (r.0 == first && r.1[AboutPageKey] == CacheItem(first, now))
                            || (AboutPageKey in cache && r == (cache[AboutPageKey].data, cache))
  {
    ReadThrough(cache, AboutPageKey, now, first)
  }

  /**
   * `getFeaturedGalleries(limit)`: on a miss it reads the home page through
   * its own cache entry; with no home page it answers `[]` and caches nothing
   * under the featured key, otherwise it caches the gallery query's `items`.
   */
  function GetFeaturedGalleries(cache: Cache, limit: int, now: int, homeFirst: JsValue, items: JsValue)
    : (r: (JsValue, Cache))
    ensures var key := FeaturedKey(limit);
            key in cache && now - cache[key].timestamp <= 3_600_000 && Truthy(cache[key].data) ==>
              r == (cache[key].data, cache)
    // a miss with a home page stores and returns the gallery query's items
    ensures var key := FeaturedKey(limit);
            var home := GetHomePage(if key in cache && now - cache[key].timestamp > 3_600_000
                                    then cache - {key} else cache, now, homeFirst);
            !(key in cache && now - cache[key].timestamp <= 3_600_000 && Truthy(cache[key].data)) ==>
              (Truthy(home.0) ==> r.0 == items && r.1 == home.1[key := CacheItem(items, now)])
              && (!Truthy(home.0) ==> r == (List([]), home.1))
    // only the featured key and the home-page key can change
    ensures forall k :: k in cache && k != FeaturedKey(limit) && k != HomePageKey ==> k in r.1 && r.1[k] == cache[k]
    ensures forall k :: k in r.1 ==> k in cache || k == FeaturedKey(limit) || k == HomePageKey
  {
    var key := FeaturedKey(limit);
    var (cached, cache1) := GetCachedData(cache, key, now);
    if Truthy(cached) then (cached, cache1)
    else
      var (home, cache2) := GetHomePage(cache1, now, homeFirst);
      if !Truthy(home) then (List([]), cache2)
      else SetCacheData(cache2, key, items, now)
  }

  /** With no home page, the featured list is empty and is not cached. */
  lemma NoHomePageNotCached(cache: Cache, limit: int, now: int, items: JsValue)
    requires FeaturedKey(limit) !in cache && HomePageKey !in cache
    ensures var r := GetFeaturedGalleries(cache, limit, now, Undefined, items);
            r.0 == List([]) && FeaturedKey(limit) !in r.1
  {
  }
}
