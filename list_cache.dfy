/**
 * The scoped e-mail list cache: the `email_list_cache` table, keyed by
 * `cache_key`, remembering the last numbered list shown in a Slack channel
 * or thread so that "open #3" can be resolved later. Times are epoch seconds.
 *
 * The store may be uninitialised (no database handle): the upsert is then a
 * no-op and the reads return nothing, while the sweep, whose two queries do
 * not test the handle, fails.
 */
module ListCache {
  import opened Wrappers

  /** One entry of `items_json`. */
  datatype CacheItem = CacheItem(index: int, messageId: string, subject: string, from: string, date: Option<string>)

  /** The `items_json` column: `{"items": [...]}` as written by the list detector, or text that
    * does not parse as such. */
  datatype ItemsJson = Items(items: seq<CacheItem>) | Unparseable(raw: string)

  /** A stored row; `channel` and `threadTs` hold the values as written. */
  datatype CacheRow = CacheRow(
    createdAt: int,
    expiresAt: int,
    itemsJson: ItemsJson,
    channel: Option<string>,
    threadTs: Option<string>)

  /** A row as the reads return it (`channel || undefined`, `thread_ts || undefined`). */
  datatype CacheRecord = CacheRecord(
    cacheKey: string,
    createdAt: int,
    expiresAt: int,
    itemsJson: ItemsJson,
    channel: Option<string>,
    threadTs: Option<string>)

  /** The optional `meta` argument of the upsert. */
  datatype UpsertMeta = UpsertMeta(channel: Option<string>, threadTs: Option<string>, createdAt: Option<int>)

  datatype SweepResult = SweepResult(expired: nat, deleted: nat)

  /** Raised when the sweep runs against an uninitialised store. */
  datatype StoreUnavailable = StoreUnavailable

  type CacheTable = map<string, CacheRow>

  function NonEmpty(v: Option<string>): Option<string>
  {
    if v == Some("") then None else v
  }

  function ToCacheRecord(key: string, row: CacheRow): (r: CacheRecord)
    ensures r.cacheKey == key && r.createdAt == row.createdAt && r.expiresAt == row.expiresAt
    ensures r.itemsJson == row.itemsJson
  {
    CacheRecord(key, row.createdAt, row.expiresAt, row.itemsJson, NonEmpty(row.channel), NonEmpty(row.threadTs))
  }

  /** `INSERT ... ON CONFLICT(cache_key) DO UPDATE`: a new key gets a full row; an existing key
    * gets new items and expiry, keeps its `created_at`, and keeps its channel and thread when the
    * new ones are absent. */
  function Upserted(t: CacheTable, key: string, items: ItemsJson, expiresAt: int, meta: UpsertMeta, nowSec: int)
    : (t': CacheTable)
    ensures t'.Keys == t.Keys + {key}
    ensures forall k :: k in t && k != key ==> t'[k] == t[k]
    ensures t'[key].itemsJson == items && t'[key].expiresAt == expiresAt
    ensures key in t ==>
      t'[key].createdAt == t[key].createdAt
      && t'[key].channel == (if meta.channel.Some? then meta.channel else t[key].channel)
      && t'[key].threadTs == (if meta.threadTs.Some? then meta.threadTs else t[key].threadTs)
    ensures key !in t ==>
      t'[key].createdAt == meta.createdAt.UnwrapOr(nowSec)
      && t'[key].channel == meta.channel && t'[key].threadTs == meta.threadTs
  {
    if key in t then
      var old_ := t[key];
      t[key := old_.(expiresAt := expiresAt, itemsJson := items,
                     channel := Coalesce(meta.channel, old_.channel),
                     threadTs := Coalesce(meta.threadTs, old_.threadTs))]
    else
      t[key := CacheRow(meta.createdAt.UnwrapOr(nowSec), expiresAt, items, meta.channel, meta.threadTs)]
  }

  /** The `WHERE` clause of the scope queries: the channel, and the thread when one is given. */
  predicate InScope(row: CacheRow, channel: string, threadTs: Option<string>)
  {
    row.channel == Some(channel) && (threadTs.None? || row.threadTs == threadTs)
  }

  predicate HasScopeMatch(t: CacheTable, channel: string, threadTs: Option<string>)
  {
    exists k :: k in t && InScope(t[k], channel, threadTs)
  }

  /** `ORDER BY created_at DESC LIMIT 1`: a matching row no older than any other matching row. */
  predicate IsLatestInScope(t: CacheTable, key: string, channel: string, threadTs: Option<string>)
  {
    key in t && InScope(t[key], channel, threadTs)
    && forall k :: k in t && InScope(t[k], channel, threadTs) ==> t[k].createdAt <= t[key].createdAt
  }

  /** Rows with `expires_at < before`: what the sweep counts and may delete. */
  function ExpiredKeys(t: CacheTable, before: int): set<string>
  {
    set k | k in t && t[k].expiresAt < before
  }

  /** `SELECT COUNT(1) ... WHERE expires_at < before`. */
  function CountExpired(t: CacheTable, before: int): nat
  {
    |ExpiredKeys(t, before)|
  }

  /** The sweep's cut-off: `now - max(0, grace)`. */
  function SweepThreshold(nowSec: int, graceSec: int): (t: int)
    ensures t <= nowSec
  {
    nowSec - Max(0, graceSec)
  }

  /** The delete's row limit: `max(1, maxDelete)`. */
  function DeleteLimit(maxDelete: int): (n: nat)
    ensures n >= 1 && n >= maxDelete
  {
    Max(1, maxDelete)
  }

  function Max(a: int, b: int): int
  {
    if a < b then b else a
  }

  function Min(a: int, b: int): int
  {
    if a < b then a else b
  }

  class EmailListCache {
    /** Whether the database handle exists. */
    var ready: bool
    var rows: CacheTable

    constructor (ready: bool)
      ensures this.ready == ready && rows == map[]
    {
      this.ready := ready;
      rows := map[];
    }

    /** `upsertEmailListCache`. */
    method UpsertEmailListCache(key: string, items: ItemsJson, expiresAtSec: int, meta: UpsertMeta, nowSec: int)
      modifies this`rows
      ensures rows == if ready then Upserted(old(rows), key, items, expiresAtSec, meta, nowSec) else old(rows)
    {
      if !ready {
        return;
      }
      rows := Upserted(rows, key, items, expiresAtSec, meta, nowSec);
    }

    /** `getEmailListCache`: the row under the key, with no expiry check. */
    method GetEmailListCache(key: string) returns (r: Option<CacheRecord>)
      ensures r.Some? <==> ready && key in rows
      ensures r.Some? ==> r.value == ToCacheRecord(key, rows[key])
    {
      if !ready || key !in rows {
        return None;
      }
      return Some(ToCacheRecord(key, rows[key]));
    }

    /** One `ORDER BY created_at DESC LIMIT 1` scope query, as a scan over the rows. */
    method LatestInScope(channel: string, threadTs: Option<string>) returns (key: Option<string>)
      ensures key.None? <==> !HasScopeMatch(rows, channel, threadTs)
      ensures key.Some? ==> IsLatestInScope(rows, key.value, channel, threadTs)
    {
      var todo := rows.Keys;
      key := None;
      while todo != {}
        invariant todo <= rows.Keys
        invariant key.Some? ==> key.value in rows && InScope(rows[key.value], channel, threadTs)
        invariant forall k :: k in rows && k !in todo && InScope(rows[k], channel, threadTs) ==>
          key.Some? && rows[k].createdAt <= rows[key.value].createdAt
        decreases |todo|
      {
        var k :| k in todo;
        if InScope(rows[k], channel, threadTs) && (key.None? || rows[key.value].createdAt < rows[k].createdAt) {
          key := Some(k);
        }
        todo := todo - {k};
      }
    }

    /** `getLatestEmailListCacheByScope`: the newest row for (channel, thread) when a non-empty
      * thread is given and one exists, else the newest row for the channel, else nothing. */
    method GetLatestEmailListCacheByScope(channel: string, threadTs: Option<string>) returns (r: Option<CacheRecord>)
      ensures !ready ==> r.None?
      ensures ready && threadTs.Some? && threadTs.value != "" && HasScopeMatch(rows, channel, threadTs) ==>
        r.Some? && IsLatestInScope(rows, r.value.cacheKey, channel, threadTs)
      ensures ready && (threadTs.None? || threadTs.value == "" || !HasScopeMatch(rows, channel, threadTs)) ==>
        (r.Some? <==> HasScopeMatch(rows, channel, None))
        && (r.Some? ==> IsLatestInScope(rows, r.value.cacheKey, channel, None))
      ensures r.Some? ==> r.value.cacheKey in rows && r.value == ToCacheRecord(r.value.cacheKey, rows[r.value.cacheKey])
    {
      if !ready {
        return None;
      }
      if threadTs.Some? && threadTs.value != "" {
        var exact := LatestInScope(channel, threadTs);
        if exact.Some? {
          return Some(ToCacheRecord(exact.value, rows[exact.value]));
        }
      }
      var any := LatestInScope(channel, None);
      if any.None? {
        return None;
      }
      return Some(ToCacheRecord(any.value, rows[any.value]));
    }

    /** `countExpiredEmailList`. */
    function CountExpiredEmailList(beforeSec: int): nat
      requires ready
      reads this
    {
      CountExpired(rows, beforeSec)
    }

    /** `deleteExpiredEmailList`: removes `max(1, maxDelete)` of the expired rows (all of them
      * when fewer are expired); which ones is up to the database. */
    method DeleteExpiredEmailList(beforeSec: int, maxDelete: int) returns (deleted: nat)
      requires ready
      modifies this`rows
      ensures BoundedDelete(old(rows), rows, beforeSec, maxDelete, deleted)
    {
      var limit := DeleteLimit(maxDelete);
      var t := rows;
      var candidates := ExpiredKeys(t, beforeSec);
      ghost var removed: set<string> := {};
      deleted := 0;
      while deleted < limit && candidates != {}
        invariant DeleteInv(old(rows), t, ExpiredKeys(old(rows), beforeSec), candidates, removed, deleted)
        invariant deleted <= limit
        decreases |candidates|
      {
        var k :| k in candidates;
        DeleteStep(old(rows), t, ExpiredKeys(old(rows), beforeSec), candidates, removed, deleted, k);
        t := t - {k};
        candidates := candidates - {k};
        removed := removed + {k};
        deleted := deleted + 1;
      }
      DeleteDone(old(rows), t, beforeSec, maxDelete, candidates, removed, deleted);
      rows := t;
    }

    /** `sweepExpiredEmailListCache`: count the rows expired before `now - max(0, grace)` and,
      * when there are any, delete a bounded batch of them. */
    method SweepExpiredEmailListCache(nowSec: int, graceSec: int, maxDelete: int)
      returns (r: Result<SweepResult, StoreUnavailable>)
      modifies this`rows
      ensures !ready ==> r.Failure? && rows == old(rows)
      ensures ready ==> r.Success?
      ensures r.Success? ==> Swept(old(rows), rows, SweepThreshold(nowSec, graceSec), maxDelete, r.value)
    {
      if !ready {
        return Failure(StoreUnavailable);
      }
      var threshold := SweepThreshold(nowSec, graceSec);
      var expired := CountExpiredEmailList(threshold);
      var deleted := 0;
      if expired > 0 {
        deleted := DeleteExpiredEmailList(threshold, maxDelete);
      } else {
        NothingToDelete(rows, threshold, maxDelete);
      }
      return Success(SweepResult(expired, deleted));
    }
  }

  /** What a bounded `DELETE ... WHERE expires_at < before LIMIT max(1, maxDelete)` leaves behind:
    * only expired rows are gone, the survivors are untouched, and exactly
    * `min(#expired, max(1, maxDelete))` rows were removed. */
  predicate BoundedDelete(before: CacheTable, after: CacheTable, beforeSec: int, maxDelete: int, deleted: nat)
  {
    after.Keys <= before.Keys
    && (forall k :: k in after ==> after[k] == before[k])
    && before.Keys - after.Keys <= ExpiredKeys(before, beforeSec)
    && deleted == |before.Keys - after.Keys|
    && deleted == Min(CountExpired(before, beforeSec), DeleteLimit(maxDelete))
  }

  /** The outcome of one sweep at `threshold`: the number of expired rows it reports, and the
    * bounded delete it performed. */
  predicate Swept(before: CacheTable, after: CacheTable, threshold: int, maxDelete: int, res: SweepResult)
  {
    res.expired == CountExpired(before, threshold)
    && BoundedDelete(before, after, threshold, maxDelete, res.deleted)
  }

  /** The state of the delete loop: `removed` has gone from `before`, `candidates` are the
    * expired keys still to consider, and `deleted` counts the removals. */
  predicate DeleteInv(before: CacheTable, t: CacheTable, expired: set<string>,
                      candidates: set<string>, removed: set<string>, deleted: nat)
  {
    candidates !! removed && candidates + removed == expired
    && |expired| == |candidates| + |removed|
    && t.Keys == before.Keys - removed
    && (forall k :: k in t ==> t[k] == before[k])
    && deleted == |removed|
  }

  lemma DeleteStep(before: CacheTable, t: CacheTable, expired: set<string>,
                   candidates: set<string>, removed: set<string>, deleted: nat, k: string)
    requires DeleteInv(before, t, expired, candidates, removed, deleted)
    requires k in candidates
    ensures DeleteInv(before, t - {k}, expired, candidates - {k}, removed + {k}, deleted + 1)
  {
    assert k !in removed;
    assert (candidates - {k}) + (removed + {k}) == expired;
  }

  lemma DeleteDone(before: CacheTable, after: CacheTable, beforeSec: int, maxDelete: int,
                   candidates: set<string>, removed: set<string>, deleted: nat)
    requires DeleteInv(before, after, ExpiredKeys(before, beforeSec), candidates, removed, deleted)
    requires deleted <= DeleteLimit(maxDelete)
    requires deleted == DeleteLimit(maxDelete) || candidates == {}
    ensures BoundedDelete(before, after, beforeSec, maxDelete, deleted)
  {
    assert before.Keys - after.Keys == removed;
    assert |before.Keys - after.Keys| == deleted;
    if candidates == {} {
      assert |candidates| == 0;
    }
    assert deleted == Min(CountExpired(before, beforeSec), DeleteLimit(maxDelete));
  }

  lemma NothingToDelete(t: CacheTable, beforeSec: int, maxDelete: int)
    requires CountExpired(t, beforeSec) == 0
    ensures BoundedDelete(t, t, beforeSec, maxDelete, 0)
  {
    assert t.Keys - t.Keys == {};
  }

  /** Sweeping never removes a row that is still live at the threshold. */
  lemma SweepSparesLiveRows(before: CacheTable, after: CacheTable, threshold: int, k: string)
    requires after.Keys <= before.Keys
    requires before.Keys - after.Keys <= ExpiredKeys(before, threshold)
    requires k in before && before[k].expiresAt >= threshold
    ensures k in after
  {
    assert k !in ExpiredKeys(before, threshold);
  }

  /** A bounded delete removes exactly `deleted` of the expired rows and leaves the rest: when it
    * deleted fewer than its limit, nothing expired is left. */
  lemma {:induction false} DeleteLeavesRest(before: CacheTable, after: CacheTable, beforeSec: int, maxDelete: int, deleted: nat)
    requires BoundedDelete(before, after, beforeSec, maxDelete, deleted)
    ensures CountExpired(after, beforeSec) == CountExpired(before, beforeSec) - deleted
    ensures deleted < DeleteLimit(maxDelete) ==> CountExpired(after, beforeSec) == 0
  {
    var gone := before.Keys - after.Keys;
    assert ExpiredKeys(after, beforeSec) == ExpiredKeys(before, beforeSec) - gone;
    assert |ExpiredKeys(before, beforeSec) - gone| == |ExpiredKeys(before, beforeSec)| - |gone|;
  }

  /** Upserting an existing key twice keeps the first `created_at`. */
  lemma UpsertKeepsCreatedAt(t: CacheTable, key: string, i1: ItemsJson, i2: ItemsJson, e1: int, e2: int,
                             m1: UpsertMeta, m2: UpsertMeta, n1: int, n2: int)
    ensures Upserted(Upserted(t, key, i1, e1, m1, n1), key, i2, e2, m2, n2)[key].createdAt
            == Upserted(t, key, i1, e1, m1, n1)[key].createdAt
  {
  }
}
