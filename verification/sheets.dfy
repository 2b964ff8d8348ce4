/** The sheet read-through service: it consults the TTL cache, falls back to
    the spreadsheet API, normalises the grid into a payload, writes the
    payload through to the cache and, best effort, to a durable snapshot.

    The API call is an input (`fetch`): either the upstream error message or
    the `values` grid, which may be missing. The snapshot upsert is an input
    flag (`snapshotSaved`) telling whether the database accepted it. The ISO
    timestamp of the fetch is an opaque clock reading (`stamp`). */
module Sheets {
  import opened Wrappers
  import opened Clock
  import TtlCache

  type Grid = seq<seq<string>>

  /** What `getSheetData` returns. An empty sheet yields the bare
      `{headers: [], rows: []}` object, which has no other fields. */
  datatype SheetPayload =
    | EmptySheet
    | SheetData(headers: seq<string>, rows: Grid, totalRows: nat, lastUpdated: string, sheetId: string)

  /** The durable mirror of the last payload of one sheet. */
  datatype Snapshot = Snapshot(sheetId: string, data: SheetPayload, lastSync: Time)

  datatype SheetsState = SheetsState(cache: TtlCache.Cache<SheetPayload>, snapshots: map<string, Snapshot>)

  datatype SheetError = SheetFetchError(message: string)

  /** One call of the service: its result, the state it leaves behind, and
      whether it called the spreadsheet API. */
  datatype Call = Call(result: Result<SheetPayload, SheetError>, state: SheetsState, fetched: bool)

  const KEY_PREFIX: string := "sheet_data_"
  const FETCH_ERROR_PREFIX: string := "Erro ao acessar planilha: "

  /** The cache key of the configured sheet. */
  function CacheKey(sheetId: string): (k: string)
    ensures |k| == |KEY_PREFIX| + |sheetId|
    ensures k[..|KEY_PREFIX|] == KEY_PREFIX && k[|KEY_PREFIX|..] == sheetId
  {
    KEY_PREFIX + sheetId
  }

  /** Distinct sheets never share a cache entry. */
  lemma CacheKeyInjective(a: string, b: string)
    ensures CacheKey(a) == CacheKey(b) <==> a == b
  {
  }

  /** The first row becomes the headers, the rest the data rows. */
  function Normalize(grid: Grid, stamp: string, sheetId: string): (p: SheetPayload)
    requires |grid| > 0
    ensures p.SheetData?
    ensures [p.headers] + p.rows == grid
    ensures p.totalRows == |grid| - 1 == |p.rows|
    ensures p.lastUpdated == stamp && p.sheetId == sheetId
  {
    SheetData(grid[0], grid[1..], |grid| - 1, stamp, sheetId)
  }

  /** Normalisation loses nothing: the grid is recovered from the payload. */
  lemma NormalizeRoundTrip(grid: Grid, stamp: string, sheetId: string)
    requires |grid| > 0
    ensures var p := Normalize(grid, stamp, sheetId); [p.headers] + p.rows == grid
    ensures forall g :: |g| > 0 && Normalize(g, stamp, sheetId) == Normalize(grid, stamp, sheetId) ==> g == grid
  {
  }

  /** `saveSheetDataToDatabase`: an upsert keyed by sheet id whose failure is
      swallowed, so a failed write simply leaves the snapshots as they were. */
  function SaveSnapshot(snapshots: map<string, Snapshot>, sheetId: string, data: SheetPayload,
                        saved: bool, now: Time): (r: map<string, Snapshot>)
    ensures saved ==> r.Keys == snapshots.Keys + {sheetId} && r[sheetId] == Snapshot(sheetId, data, now)
    ensures saved ==> forall id :: id in snapshots && id != sheetId ==> r[id] == snapshots[id]
    ensures !saved ==> r == snapshots
  {
    if saved then snapshots[sheetId := Snapshot(sheetId, data, now)] else snapshots
  }

  /** The cache consultation at the start of `getSheetData`: skipped
      entirely on a forced refresh, otherwise a `get` that may evict. */
  function Consult(cache: TtlCache.Cache<SheetPayload>, key: string, now: Time, forceRefresh: bool): TtlCache.Lookup<SheetPayload>
  {
    if forceRefresh then TtlCache.Lookup(None, cache) else TtlCache.Get(cache, key, now)
  }

  /** The cache as a missed lookup leaves it: untouched on a forced refresh,
      otherwise with the (absent or expired) entry of the sheet evicted. */
  function AfterLookup(cache: TtlCache.Cache<SheetPayload>, sheetId: string, forceRefresh: bool): TtlCache.Cache<SheetPayload>
  {
    if forceRefresh then cache else cache - {CacheKey(sheetId)}
  }

  /** `getSheetData(accessToken, forceRefresh)` for the sheet `sheetId` at instant `now`. */
  function GetSheetData(st: SheetsState, sheetId: string, now: Time, forceRefresh: bool,
                        fetch: Result<Option<Grid>, string>, snapshotSaved: bool, stamp: string): (o: Call)
    // a cache hit answers alone: no fetch, no cache write, no snapshot write
    ensures !forceRefresh && CacheKey(sheetId) in TtlCache.LiveKeys(st.cache, now) ==>
      o == Call(Success(st.cache[CacheKey(sheetId)].data), st, false)
    // otherwise exactly one fetch happens
    ensures o.fetched <==> forceRefresh || CacheKey(sheetId) !in TtlCache.LiveKeys(st.cache, now)
    // snapshots change only on a saved, non-empty fetch
    ensures o.fetched && (fetch.Failure? || !snapshotSaved || GridOf(fetch) == []) ==>
      o.state.snapshots == st.snapshots
    // a failed fetch raises the prefixed upstream message and writes nothing
    ensures o.fetched && fetch.Failure? ==>
      o.result == Failure(SheetFetchError(FETCH_ERROR_PREFIX + fetch.error)) &&
      o.state.cache == AfterLookup(st.cache, sheetId, forceRefresh)
    ensures o.fetched && fetch.Failure? && forceRefresh ==> o.state == st
    // an empty or missing grid yields the bare empty payload and writes nothing
    ensures o.fetched && fetch.Success? && GridOf(fetch) == [] ==>
      o.result == Success(EmptySheet) && o.state.cache == AfterLookup(st.cache, sheetId, forceRefresh)
    // a non-empty grid is normalised, cached with the default TTL and returned
    ensures o.fetched && fetch.Success? && GridOf(fetch) != [] ==>
      && o.result.Success?
      && o.result.value == Normalize(GridOf(fetch), stamp, sheetId)
      && o.state.cache == st.cache[CacheKey(sheetId) := TtlCache.Entry(o.result.value, now + TtlCache.DEFAULT_TTL)]
      && o.state.snapshots == SaveSnapshot(st.snapshots, sheetId, o.result.value, snapshotSaved, now)
  {
    var key := CacheKey(sheetId);
    var looked := Consult(st.cache, key, now, forceRefresh);
    if looked.found.Some? then
      Call(Success(looked.found.value), st.(cache := looked.cache), false)
    else
      var st1 := st.(cache := looked.cache);
      match fetch
      case Failure(upstream) =>
        Call(Failure(SheetFetchError(FETCH_ERROR_PREFIX + upstream)), st1, true)
      case Success(values) =>
        var grid := if values.Some? then values.value else [];
        if |grid| == 0 then
          Call(Success(EmptySheet), st1, true)
        else
          var payload := Normalize(grid, stamp, sheetId);
          var cache' := TtlCache.Set(st1.cache, key, payload, None, now);
          Call(Success(payload), SheetsState(cache', SaveSnapshot(st1.snapshots, sheetId, payload, snapshotSaved, now)), true)
  }

  /** The grid a successful fetch delivered; a missing `values` reads as empty. */
  function GridOf(fetch: Result<Option<Grid>, string>): Grid
  {
    if fetch.Success? && fetch.value.Some? then fetch.value.value else []
  }

  /** `refreshSheetData`: a forced `getSheetData`. */
  function RefreshSheetData(st: SheetsState, sheetId: string, now: Time,
                            fetch: Result<Option<Grid>, string>, snapshotSaved: bool, stamp: string): (o: Call)
    ensures o.fetched
    ensures o == GetSheetData(st, sheetId, now, true, fetch, snapshotSaved, stamp)
  {
    GetSheetData(st, sheetId, now, true, fetch, snapshotSaved, stamp)
  }

  /** `clearCache`: delegates to the cache's `clear`; snapshots are kept. */
  function ClearCache(st: SheetsState): (r: SheetsState)
    ensures |r.cache| == 0 && r.snapshots == st.snapshots
  {
    st.(cache := TtlCache.Clear())
  }

  /** `getCacheStats`: delegates to the cache's `getStats`. */
  method GetCacheStats(st: SheetsState, now: Time) returns (s: TtlCache.Stats)
    ensures s.totalEntries == |st.cache|
    ensures s.validEntries + s.expiredEntries == s.totalEntries
    ensures s.expiredEntries == |TtlCache.ExpiredKeys(st.cache, now)|
  {
    s := TtlCache.GetStats(st.cache, now);
  }

  /** A forced call ignores the cache: its result depends only on the fetch. */
  lemma ForcedCallIgnoresCache(st1: SheetsState, st2: SheetsState, sheetId: string, now: Time,
                               fetch: Result<Option<Grid>, string>, saved: bool, stamp: string)
    ensures GetSheetData(st1, sheetId, now, true, fetch, saved, stamp).result ==
            GetSheetData(st2, sheetId, now, true, fetch, saved, stamp).result
  {
  }

  /** A cache hit does not depend on the API at all. */
  lemma HitIgnoresFetch(st: SheetsState, sheetId: string, now: Time,
                        fetch1: Result<Option<Grid>, string>, fetch2: Result<Option<Grid>, string>,
                        saved1: bool, saved2: bool, stamp1: string, stamp2: string)
    requires CacheKey(sheetId) in TtlCache.LiveKeys(st.cache, now)
    ensures GetSheetData(st, sheetId, now, false, fetch1, saved1, stamp1) ==
            GetSheetData(st, sheetId, now, false, fetch2, saved2, stamp2)
  {
  }

  /** A failed snapshot write never changes what the caller gets, nor the cache. */
  lemma SnapshotFailureInvisible(st: SheetsState, sheetId: string, now: Time, forceRefresh: bool,
                                 fetch: Result<Option<Grid>, string>, stamp: string)
    ensures GetSheetData(st, sheetId, now, forceRefresh, fetch, false, stamp).result ==
            GetSheetData(st, sheetId, now, forceRefresh, fetch, true, stamp).result
    ensures GetSheetData(st, sheetId, now, forceRefresh, fetch, false, stamp).state.cache ==
            GetSheetData(st, sheetId, now, forceRefresh, fetch, true, stamp).state.cache
  {
  }

  /** Write-through: after a successful non-empty fetch, any non-forced call
      up to the end of the default TTL is answered from the cache with the
      same payload, whatever the API would say by then. */
  lemma FetchThenHit(st: SheetsState, sheetId: string, now: Time, forceRefresh: bool,
                     grid: Grid, saved: bool, stamp: string,
                     later: Time, fetch2: Result<Option<Grid>, string>, saved2: bool, stamp2: string)
    requires |grid| > 0
    requires later <= now + TtlCache.DEFAULT_TTL
    requires GetSheetData(st, sheetId, now, forceRefresh, Success(Some(grid)), saved, stamp).fetched
    ensures var first := GetSheetData(st, sheetId, now, forceRefresh, Success(Some(grid)), saved, stamp);
            var second := GetSheetData(first.state, sheetId, later, false, fetch2, saved2, stamp2);
            && !second.fetched
            && second.result == first.result
            && second.state == first.state
  {
  }

  /** The worked example: a header row and one data row. */
  lemma ExampleNameAge(st: SheetsState, sheetId: string, now: Time, saved: bool, stamp: string)
    requires CacheKey(sheetId) !in TtlCache.LiveKeys(st.cache, now)
    ensures GetSheetData(st, sheetId, now, false, Success(Some([["Name", "Age"], ["Alice", "30"]])), saved, stamp).result ==
            Success(SheetData(["Name", "Age"], [["Alice", "30"]], 1, stamp, sheetId))
  {
  }
}
