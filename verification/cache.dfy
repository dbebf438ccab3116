/**
 * The in-memory response cache in front of the geocoding and forecast
 * services: string keys, entries stamped with the time they were stored,
 * a five-minute time to live, and the cache-first flow of the two lookups.
 * The clock and the network are parameters.
 */
module ResponseCache {
  import opened Basics

  /** Five minutes in milliseconds. */
  const CacheTtl: int := 5 * 60 * 1000

  datatype Entry<D> = Entry(data: D, timestamp: int)

  type Cache<D> = map<string, Entry<D>>

  // ------------------------------------------------------------ keys

  /** `getCacheKey`: the request kind, a colon, then the serialised parameters. */
  function CacheKey(kind: string, serialized: string): (key: string)
    ensures |key| == |kind| + 1 + |serialized|
    ensures key[..|kind|] == kind && key[|kind|] == ':' && key[|kind| + 1..] == serialized
  {
    kind + ":" + serialized
  }

  /** Keys of colon-free kinds determine both the kind and the serialised parameters. */
  lemma CacheKeyInjective(kind1: string, serialized1: string, kind2: string, serialized2: string)
    requires ':' !in kind1 && ':' !in kind2
    ensures CacheKey(kind1, serialized1) == CacheKey(kind2, serialized2) <==>
      kind1 == kind2 && serialized1 == serialized2
  {
    var k1 := CacheKey(kind1, serialized1);
    var k2 := CacheKey(kind2, serialized2);
    if k1 == k2 {
      assert |kind1| == |kind2|;
      assert kind1 == k1[..|kind1|];
    }
  }

  /** A place entry and a forecast entry never share a key. */
  lemma PlaceAndForecastKeysDiffer(query: string, coordinates: string)
    ensures CacheKey("geo", query) != CacheKey("weather", coordinates)
  {
    CacheKeyInjective("geo", query, "weather", coordinates);
  }

  // ------------------------------------------------------------ lookup and store

  predicate Fresh<D>(c: Cache<D>, key: string, now: int)
  {
    key in c && now - c[key].timestamp < CacheTtl
  }

  datatype Lookup<D> = Lookup(hit: Option<D>, cache: Cache<D>)

  /**
   * `getCached`: the stored data while younger than the time to live; an
   * expired entry is deleted on the way out.
   */
  function GetCached<D>(c: Cache<D>, key: string, now: int): (r: Lookup<D>)
    ensures r.hit.Some? <==> Fresh(c, key, now)
    ensures r.hit.Some? ==> r.hit.value == c[key].data && r.cache == c
    ensures key in c && !Fresh(c, key, now) ==> key !in r.cache
    ensures key !in c ==> r.cache == c
    ensures forall k | k != key :: (k in r.cache <==> k in c) && (k in c ==> r.cache[k] == c[k])
  {
    if key in c && now - c[key].timestamp < CacheTtl then Lookup(Some(c[key].data), c)
    else if key in c then Lookup(None, map k | k in c && k != key :: c[k])
    else Lookup(None, c)
  }

  /** `setCache`: the data stamped with the current time, replacing any entry under the key. */
  function SetCache<D>(c: Cache<D>, key: string, data: D, now: int): (r: Cache<D>)
    ensures key in r && r[key] == Entry(data, now)
    ensures forall k | k != key :: (k in r <==> k in c) && (k in c ==> r[k] == c[k])
  {
    c[key := Entry(data, now)]
  }

  /** What was stored is found again, unchanged, for exactly five minutes. */
  lemma StoreThenLookup<D>(c: Cache<D>, key: string, data: D, storedAt: int, now: int)
    ensures var r := GetCached(SetCache(c, key, data, storedAt), key, now);
      (r.hit == Some(data) <==> now - storedAt < CacheTtl)
      && (now - storedAt >= CacheTtl ==> r.hit.None? && key !in r.cache)
  {
  }

  /** Storing under one key leaves every lookup of another key as it was. */
  lemma StoreLeavesOtherKeys<D>(c: Cache<D>, key: string, data: D, storedAt: int, other: string, now: int)
    requires other != key
    ensures GetCached(SetCache(c, key, data, storedAt), other, now).hit == GetCached(c, other, now).hit
  {
  }

  /** A lookup never adds entries. */
  lemma LookupOnlyShrinks<D>(c: Cache<D>, key: string, now: int)
    ensures GetCached(c, key, now).cache.Keys <= c.Keys
  {
  }

  // ------------------------------------------------------------ the two requests

  /** The outcome of `fetch` plus reading its JSON body. */
  datatype Response<B> =
    | Rejected(message: string)  // the request or the body parse threw
    | NotOk                      // an HTTP error status
    | Ok(body: B)

  /** A request's result, the cache afterwards, and whether the network was used. */
  datatype Outcome<D> = Outcome(result: Result<D, string>, cache: Cache<D>, fetched: bool)

  /**
   * `geoCode`: a fresh cached place is returned without fetching; otherwise
   * the first search result is cached (stamped `storedAt`) and returned.
   * `results` is `None` when the response has no results field.
   */
  function GeoCode<D>(c: Cache<D>, query: string, now: int, response: Response<Option<seq<D>>>, storedAt: int)
    : (r: Outcome<D>)
    ensures Fresh(c, CacheKey("geo", query), now) ==>
      r == Outcome(Success(c[CacheKey("geo", query)].data), c, false)
    ensures !Fresh(c, CacheKey("geo", query), now) ==> r.fetched
    ensures r.result.Failure? ==> r.cache == GetCached(c, CacheKey("geo", query), now).cache
    ensures response.NotOk? && r.fetched ==> r.result == Failure("Geocoding failed")
    ensures response.Ok? && r.fetched && (response.body.None? || |response.body.value| == 0) ==>
      r.result == Failure("Location not found")
    ensures response.Ok? && response.body.Some? && |response.body.value| > 0 && r.fetched ==>
      && r.result == Success(response.body.value[0])
      && r.cache == SetCache(GetCached(c, CacheKey("geo", query), now).cache,
                             CacheKey("geo", query), response.body.value[0], storedAt)
  {
    var key := CacheKey("geo", query);
    var lookup := GetCached(c, key, now);
    if lookup.hit.Some? then Outcome(Success(lookup.hit.value), lookup.cache, false)
    else
      match response
      case Rejected(message) => Outcome(Failure(message), lookup.cache, true)
      case NotOk => Outcome(Failure("Geocoding failed"), lookup.cache, true)
      case Ok(results) =>
        if results.None? || |results.value| == 0 then
          Outcome(Failure("Location not found"), lookup.cache, true)
        else
          var place := results.value[0];
          Outcome(Success(place), SetCache(lookup.cache, key, place, storedAt), true)
  }

  /**
   * `getWeather`: a fresh cached forecast for the serialised coordinates is
   * returned without fetching; otherwise a successful response is cached and returned.
   */
  function GetWeather<D>(c: Cache<D>, coordinates: string, now: int, response: Response<D>, storedAt: int)
    : (r: Outcome<D>)
    ensures Fresh(c, CacheKey("weather", coordinates), now) ==>
      r == Outcome(Success(c[CacheKey("weather", coordinates)].data), c, false)
    ensures !Fresh(c, CacheKey("weather", coordinates), now) ==> r.fetched
    ensures r.result.Failure? ==> r.cache == GetCached(c, CacheKey("weather", coordinates), now).cache
    ensures response.NotOk? && r.fetched ==> r.result == Failure("Weather fetch failed")
    ensures response.Ok? && r.fetched ==>
      && r.result == Success(response.body)
      && r.cache == SetCache(GetCached(c, CacheKey("weather", coordinates), now).cache,
                             CacheKey("weather", coordinates), response.body, storedAt)
  {
    var key := CacheKey("weather", coordinates);
    var lookup := GetCached(c, key, now);
    if lookup.hit.Some? then Outcome(Success(lookup.hit.value), lookup.cache, false)
    else
      match response
      case Rejected(message) => Outcome(Failure(message), lookup.cache, true)
      case NotOk => Outcome(Failure("Weather fetch failed"), lookup.cache, true)
      case Ok(data) => Outcome(Success(data), SetCache(lookup.cache, key, data, storedAt), true)
  }

  /**
   * Asking for the same place twice within five minutes of the first
   * answer being stored goes to the network once: the second call is
   * answered from the cache with the same place, whatever the network
   * would have said.
   */
  lemma RepeatedGeoCodeIsCached<D>(
    c: Cache<D>, query: string, now1: int, response1: Response<Option<seq<D>>>, storedAt: int,
    now2: int, response2: Response<Option<seq<D>>>, storedAt2: int)
    requires GeoCode(c, query, now1, response1, storedAt).result.Success?
    requires now2 - storedAt < CacheTtl
    requires !Fresh(c, CacheKey("geo", query), now1)
    ensures var first := GeoCode(c, query, now1, response1, storedAt);
      var second := GeoCode(first.cache, query, now2, response2, storedAt2);
      && !second.fetched
      && second.result == first.result
      && second.cache == first.cache
  {
    var first := GeoCode(c, query, now1, response1, storedAt);
    assert response1.Ok? && response1.body.Some? && |response1.body.value| > 0;
    assert first.cache[CacheKey("geo", query)] == Entry(response1.body.value[0], storedAt);
  }

  /** A place search with no results caches nothing new. */
  lemma NotFoundCachesNothing<D>(c: Cache<D>, query: string, now: int, storedAt: int)
    requires !Fresh(c, CacheKey("geo", query), now)
    ensures var r := GeoCode(c, query, now, Ok(Some([])), storedAt);
      r.result == Failure("Location not found") && r.fetched && r.cache.Keys <= c.Keys
      && CacheKey("geo", query) !in r.cache
  {
  }
}
