/** `getExchangeRates` and `getDefaultRates`: a one-hour cache of the rate
    table in front of an HTTP service. The clock reading and the service's
    answer are inputs, so each call is a pure transition of the cache. */
module Rates {
  import opened Wrappers

  /** A rate table: code to units per unit of the base. */
  type RateTable = map<string, real>

  /** The cache held between calls: the last fetched table and when it was
      fetched (`null` before the first success). */
  datatype Cache = Cache(rates: RateTable, lastUpdate: Option<int>)

  /** The answer of the rate service for one base code: its `rates` object, or
      any failure (network error, timeout, a reply without `rates`). */
  datatype Fetch = Fetched(rates: RateTable) | FetchFailed

  /** One hour, in milliseconds. */
  const UpdateInterval: int := 60 * 60 * 1000

  /** The state of a new service: an empty table and no update time. */
  const InitialCache: Cache := Cache(map[], None)

  /** `getDefaultRates()`: the fixed fallback table. */
  const DefaultRates: RateTable := map[
    "USD" := 1.0, "BRL" := 5.2, "EUR" := 0.85, "GBP" := 0.73,
    "JPY" := 110.0, "CAD" := 1.25, "AUD" := 1.35, "MXN" := 20.0
  ]

  /** `this.lastUpdate && (now - this.lastUpdate) < this.updateInterval`: a
      time stamp of 0 is falsy in JavaScript and counts as no cache. */
  predicate IsFresh(c: Cache, now: int) {
    c.lastUpdate.Some? && c.lastUpdate.value != 0 && now - c.lastUpdate.value < UpdateInterval
  }

  /** `getExchangeRates(base)` at clock reading `now`, with `source(base)` the
      service's answer: the table returned and the cache afterwards. */
  function GetExchangeRates(c: Cache, now: int, source: string -> Fetch, base: string): (RateTable, Cache) {
    if IsFresh(c, now) then (c.rates, c)
    else
      match source(base)
      case Fetched(t) => (t, Cache(t, Some(now)))
      case FetchFailed => (DefaultRates, c)
  }

  // ---------------------------------------------------------------------
  // Properties of the cache.

  /** The default table knows the eight codes, each at a positive rate, USD at 1. */
  lemma DefaultRatesKnown()
    ensures DefaultRates.Keys == {"USD", "BRL", "EUR", "GBP", "JPY", "CAD", "AUD", "MXN"}
    ensures forall code :: code in DefaultRates ==> DefaultRates[code] > 0.0
    ensures DefaultRates["USD"] == 1.0
  {
  }

  /** While the cache is fresh the service is not asked: the cached table is
      the answer for every base, and the cache does not change. */
  lemma FreshCacheAnswers(c: Cache, now: int, source: string -> Fetch, base: string)
    requires IsFresh(c, now)
    ensures GetExchangeRates(c, now, source, base) == (c.rates, c)
  {
  }

  /** A stale cache asks the service for `base`: a table it sends is returned
      and cached with the time of the call; a failure returns the defaults and
      keeps the old cache. */
  lemma StaleCacheAsks(c: Cache, now: int, source: string -> Fetch, base: string)
    requires !IsFresh(c, now)
    ensures source(base).Fetched? ==>
      GetExchangeRates(c, now, source, base) == (source(base).rates, Cache(source(base).rates, Some(now)))
    ensures source(base).FetchFailed? ==> GetExchangeRates(c, now, source, base) == (DefaultRates, c)
  {
  }

  /** After a successful fetch at a non-zero `now`, every call within the next
      hour answers from the cache, whatever the service would say and
      whatever base it asks for, and leaves the cache alone. */
  lemma FetchedTableServesTheHour(c: Cache, now: int, source: string -> Fetch, base: string,
                                  later: int, source2: string -> Fetch, base2: string)
    requires !IsFresh(c, now) && source(base).Fetched? && now != 0
    requires now <= later < now + UpdateInterval
    ensures var (t, c1) := GetExchangeRates(c, now, source, base);
            GetExchangeRates(c1, later, source2, base2) == (t, c1)
  {
  }

  /** At the end of the hour the cache goes stale: the next call asks the service. */
  lemma StaleAfterTheHour(c: Cache, now: int, source: string -> Fetch, base: string, later: int)
    requires source(base).Fetched?
    requires later >= now + UpdateInterval
    ensures var (_, c1) := GetExchangeRates(c, now, source, base);
            !IsFresh(c, now) ==> !IsFresh(c1, later)
  {
  }

  /** A failed fetch answers with the default table and changes nothing, so
      the service is asked again on the next call. */
  lemma FailureIsRetried(c: Cache, now: int, source: string -> Fetch, base: string, later: int)
    requires !IsFresh(c, now) && source(base).FetchFailed?
    requires c.lastUpdate.Some? ==> later >= now
    ensures GetExchangeRates(c, now, source, base) == (DefaultRates, c)
    ensures !IsFresh(c, later)
  {
  }

  /** The new service has no cache: its first call always asks the service. */
  lemma FirstCallFetches(now: int, source: string -> Fetch, base: string)
    ensures !IsFresh(InitialCache, now)
    ensures source(base).Fetched? ==> GetExchangeRates(InitialCache, now, source, base).0 == source(base).rates
    ensures source(base).FetchFailed? ==> GetExchangeRates(InitialCache, now, source, base).0 == DefaultRates
  {
  }

  /** Asking again at the same clock reading repeats the answer and leaves the
      cache as the first call left it: either the first answer was cached, or
      the second call does exactly what the first did. */
  lemma RepeatAtSameInstant(c: Cache, now: int, source: string -> Fetch, base: string)
    ensures var (t1, c1) := GetExchangeRates(c, now, source, base);
            GetExchangeRates(c1, now, source, base) == (t1, c1)
  {
  }

  /** The cache only ever holds a table the service sent, stamped with the
      clock reading of the call that fetched it. */
  lemma CacheHoldsFetchedTable(c: Cache, now: int, source: string -> Fetch, base: string)
    ensures var (_, c1) := GetExchangeRates(c, now, source, base);
            c1 == c || (source(base) == Fetched(c1.rates) && c1.lastUpdate == Some(now))
  {
  }
}
