/**
 * The expiry watcher of the bot: on every tick it cancels each confirmed
 * execution whose expiry has passed, with reason `期限超過`, and posts a short
 * notice in the record's thread when the record carries both a channel and a
 * message timestamp. Posting is modelled as the list of notices a tick emits.
 *
 * The cancel is the ledger's unguarded `updateExecution`: the watcher's
 * "skip when not updated" test only detects a missing row, never a row that
 * moved on in the meantime.
 *
 * The timing rules of the watcher and of the list-cache sweeper are here too;
 * the clock and `Math.random()` are parameters.
 */
module ExpiryWatcher {
  import opened Wrappers
  import opened Ledger

  const ExpiryReason: string := "期限超過"

  /** The patch of the watcher: status `canceled`, reason `期限超過`, nothing else. */
  function ExpiryPatch(): Patch
  {
    Patch(Some(Canceled), Some(ExpiryReason), None, None, None, None)
  }

  /** The notice posted in the thread of an expired record. */
  datatype ExpiryNotice = ExpiryNotice(channel: string, threadTs: string, traceId: string)

  /** `rec.channel && rec.message_ts`: a notice for the record, when it has somewhere to go. */
  function NoticeFor(rec: ExecutionRecord): (n: Option<ExpiryNotice>)
    ensures n.Some? <==> rec.channel.Some? && rec.messageTs.Some?
    ensures n.Some? ==> n.value.traceId == rec.traceId
  {
    if rec.channel.Some? && rec.messageTs.Some? then
      Some(ExpiryNotice(rec.channel.value, rec.messageTs.value, rec.traceId))
    else None
  }

  /** The table after a whole tick. */
  function Ticked(t: Table, now: int): (t': Table)
    ensures t'.Keys == t.Keys
    ensures forall id :: id in t && !IsExpiredConfirmed(t[id], now) ==> t'[id] == t[id]
    ensures forall id :: id in t && IsExpiredConfirmed(t[id], now) ==>
      t'[id].status == Canceled && t'[id].reason == Some(ExpiryReason) && t'[id].updatedAt == now
  {
    map id | id in t :: if IsExpiredConfirmed(t[id], now) then ApplyUpdate(t[id], ExpiryPatch(), now) else t[id]
  }

  /** The notices of a scan result, in scan order. */
  function NoticesOf(recs: seq<ExecutionRecord>): seq<ExpiryNotice>
  {
    if recs == [] then []
    else
      var last := recs[|recs| - 1];
      NoticesOf(recs[..|recs| - 1]) + (if NoticeFor(last).Some? then [NoticeFor(last).value] else [])
  }

  /** What a tick knows after handling the first `i` scanned records. */
  predicate TickInv(t0: Table, t: Table, recs: seq<ExecutionRecord>, i: int, now: int, notices: seq<ExpiryNotice>)
  {
    0 <= i <= |recs| &&
    t.Keys == t0.Keys &&
    (forall id :: id in t0 && id !in TraceIds(recs[..i]) ==> t[id] == t0[id]) &&
    (forall id :: id in t0 && id in TraceIds(recs[..i]) ==> t[id] == ApplyUpdate(t0[id], ExpiryPatch(), now)) &&
    notices == NoticesOf(recs[..i])
  }

  /** The prefix grows by one record whose trace id is new. */
  lemma PrefixStep(recs: seq<ExecutionRecord>, i: int)
    requires DistinctIds(recs) && 0 <= i < |recs|
    ensures TraceIds(recs[..i + 1]) == TraceIds(recs[..i]) + {recs[i].traceId}
    ensures recs[i].traceId !in TraceIds(recs[..i])
    ensures NoticesOf(recs[..i + 1]) ==
      NoticesOf(recs[..i]) + (if NoticeFor(recs[i]).Some? then [NoticeFor(recs[i]).value] else [])
  {
    var id := recs[i].traceId;
    TraceIdsAppend(recs[..i], recs[i]);
    assert recs[..i + 1] == recs[..i] + [recs[i]];
    assert id !in TraceIds(recs[..i]) by {
      forall j | 0 <= j < i ensures recs[..i][j].traceId != id {
        assert recs[..i][j] == recs[j];
      }
    }
    assert recs[..i + 1][..i] == recs[..i];
  }

  lemma TickStep(t0: Table, t: Table, recs: seq<ExecutionRecord>, i: int, now: int, notices: seq<ExpiryNotice>)
    requires ReadBack(recs, t0) && DistinctIds(recs)
    requires TickInv(t0, t, recs, i, now, notices) && i < |recs|
    ensures recs[i].traceId in t
    ensures TickInv(t0, t[recs[i].traceId := ApplyUpdate(t[recs[i].traceId], ExpiryPatch(), now)], recs, i + 1, now,
                    notices + (if NoticeFor(recs[i]).Some? then [NoticeFor(recs[i]).value] else []))
  {
    PrefixStep(recs, i);
  }

  /** After the whole scan the table is `Ticked`. */
  lemma TickTable(t0: Table, t: Table, recs: seq<ExecutionRecord>, now: int, notices: seq<ExpiryNotice>)
    requires TraceIds(recs) == ExpiredConfirmed(t0, now)
    requires TickInv(t0, t, recs, |recs|, now, notices)
    ensures t == Ticked(t0, now)
  {
    assert recs[..|recs|] == recs;
  }

  /** A notice is in `NoticesOf(recs)` exactly when some record yields it; with distinct
    * trace ids, no trace id is noticed twice. */
  lemma {:induction false} NoticesOfMembers(recs: seq<ExecutionRecord>)
    ensures forall n :: n in NoticesOf(recs) <==> exists i :: 0 <= i < |recs| && NoticeFor(recs[i]) == Some(n)
    ensures DistinctIds(recs) ==> forall i, j :: 0 <= i < j < |NoticesOf(recs)| ==>
      NoticesOf(recs)[i].traceId != NoticesOf(recs)[j].traceId
    decreases |recs|
  {
    if recs != [] {
      var init := recs[..|recs| - 1];
      var last := recs[|recs| - 1];
      NoticesOfMembers(init);
      var tail := if NoticeFor(last).Some? then [NoticeFor(last).value] else [];
      assert NoticesOf(recs) == NoticesOf(init) + tail;
      forall n | n in NoticesOf(recs) ensures exists i :: 0 <= i < |recs| && NoticeFor(recs[i]) == Some(n) {
        if n in NoticesOf(init) {
          var i :| 0 <= i < |init| && NoticeFor(init[i]) == Some(n);
          assert recs[i] == init[i];
        } else {
          assert NoticeFor(recs[|recs| - 1]) == Some(n);
        }
      }
      forall n | exists i :: 0 <= i < |recs| && NoticeFor(recs[i]) == Some(n) ensures n in NoticesOf(recs) {
        var i :| 0 <= i < |recs| && NoticeFor(recs[i]) == Some(n);
        if i < |init| {
          assert init[i] == recs[i];
        }
      }
      if DistinctIds(recs) {
        assert DistinctIds(init) by {
          forall a, b | 0 <= a < b < |init| ensures init[a].traceId != init[b].traceId {
            assert init[a] == recs[a] && init[b] == recs[b];
          }
        }
        var ns := NoticesOf(recs);
        forall i, j | 0 <= i < j < |ns| ensures ns[i].traceId != ns[j].traceId {
          if j >= |NoticesOf(init)| {
            var n := ns[i];
            assert n == NoticesOf(init)[i];
            assert n in NoticesOf(init);
            var k :| 0 <= k < |init| && NoticeFor(init[k]) == Some(n);
            assert init[k] == recs[k];
            assert ns[j] == NoticeFor(last).value;
          }
        }
      }
    }
  }

  /** The notices of a tick over the whole scan: exactly one per expired record that has a
    * channel and a message timestamp, carrying them. */
  lemma TickNotices(t0: Table, recs: seq<ExecutionRecord>, now: int)
    requires TraceIds(recs) == ExpiredConfirmed(t0, now)
    requires ReadBack(recs, t0) && DistinctIds(recs)
    ensures forall n :: n in NoticesOf(recs) <==>
      n.traceId in t0 && IsExpiredConfirmed(t0[n.traceId], now) && NoticeFor(ToRecord(n.traceId, t0[n.traceId])) == Some(n)
    ensures forall i, j :: 0 <= i < j < |NoticesOf(recs)| ==> NoticesOf(recs)[i].traceId != NoticesOf(recs)[j].traceId
  {
    NoticesOfMembers(recs);
    forall n | n in NoticesOf(recs)
      ensures n.traceId in t0 && IsExpiredConfirmed(t0[n.traceId], now) && NoticeFor(ToRecord(n.traceId, t0[n.traceId])) == Some(n)
    {
      var i :| 0 <= i < |recs| && NoticeFor(recs[i]) == Some(n);
      assert recs[i].traceId in TraceIds(recs);
    }
    forall n: ExpiryNotice | n.traceId in t0 && IsExpiredConfirmed(t0[n.traceId], now) && NoticeFor(ToRecord(n.traceId, t0[n.traceId])) == Some(n)
      ensures n in NoticesOf(recs)
    {
      assert n.traceId in ExpiredConfirmed(t0, now);
      var i :| 0 <= i < |recs| && recs[i].traceId == n.traceId;
      assert NoticeFor(recs[i]) == Some(n);
    }
  }

  /**
   * One tick of the watcher: cancel every expired confirmed record and collect the
   * notices to post, one per record whose update returned a record and which has a
   * channel and a message timestamp.
   */
  method ExpiryWatcherTick(ledger: ExecutionLedger, now: int) returns (notices: seq<ExpiryNotice>)
    modifies ledger
    ensures ledger.rows == Ticked(old(ledger.rows), now)
    ensures forall n :: n in notices <==>
      n.traceId in old(ledger.rows) && IsExpiredConfirmed(old(ledger.rows)[n.traceId], now)
      && NoticeFor(ToRecord(n.traceId, old(ledger.rows)[n.traceId])) == Some(n)
    ensures forall i, j :: 0 <= i < j < |notices| ==> notices[i].traceId != notices[j].traceId
  {
    var expired := ledger.FindExpiredConfirmed(now);
    ghost var t0 := ledger.rows;
    notices := [];
    var i := 0;
    while i < |expired|
      invariant TickInv(t0, ledger.rows, expired, i, now, notices)
      decreases |expired| - i
    {
      var rec := expired[i];
      TickStep(t0, ledger.rows, expired, i, now, notices);
      var updated := ledger.UpdateExecution(rec.traceId, ExpiryPatch(), now);
      if updated.Some? && rec.channel.Some? && rec.messageTs.Some? {
        notices := notices + [ExpiryNotice(rec.channel.value, rec.messageTs.value, rec.traceId)];
      }
      i := i + 1;
    }
    TickTable(t0, ledger.rows, expired, now, notices);
    assert expired[..|expired|] == expired;
    TickNotices(t0, expired, now);
  }

  // ---------------------------------------------------------------------
  // what a tick leaves behind
  // ---------------------------------------------------------------------

  /** A scan at the same instant right after a tick finds nothing left to cancel. */
  lemma TickClearsExpired(t: Table, now: int)
    ensures ExpiredConfirmed(Ticked(t, now), now) == {}
  {
    var t' := Ticked(t, now);
    forall id | id in t' ensures !IsExpiredConfirmed(t'[id], now) {
      if IsExpiredConfirmed(t[id], now) {
        assert t'[id].status == Canceled;
      }
    }
  }

  /** Ticking twice at the same instant is ticking once. */
  lemma TickIdempotent(t: Table, now: int)
    ensures Ticked(Ticked(t, now), now) == Ticked(t, now)
  {
    TickClearsExpired(t, now);
    var t' := Ticked(t, now);
    forall id | id in t' ensures !IsExpiredConfirmed(t'[id], now) {
      assert id !in ExpiredConfirmed(t', now);
    }
  }

  /** A record the watcher cancels is the one that was confirmed; a record that a draft run
    * moved to `executed` after the scan would still be overwritten by the same unguarded
    * update, because `updateExecution` succeeds whatever the status. */
  lemma ExpiryUpdateIgnoresStatus(t: Table, id: string, now: int)
    requires id in t && t[id].status == Executed
    ensures Update(t, id, ExpiryPatch(), now).1.Some?
    ensures Update(t, id, ExpiryPatch(), now).0[id].status == Canceled
  {
  }

  // ---------------------------------------------------------------------
  // timing
  // ---------------------------------------------------------------------

  function Max(a: int, b: int): int
  {
    if a < b then b else a
  }

  /** `Math.max(5, EXPIRY_SWEEP_SEC) * 1000`: the watcher period, never below five seconds. */
  function WatcherPeriodMs(expirySweepSec: int): (ms: int)
    ensures ms >= 5000 && ms % 1000 == 0
    ensures expirySweepSec >= 5 ==> ms == expirySweepSec * 1000
    ensures expirySweepSec <= 5 ==> ms == 5000
  {
    Max(5, expirySweepSec) * 1000
  }

  /** `Math.floor((Math.random() * 2 - 1) * jitterSec)`, with the random number as a parameter. */
  function Jitter(random: real, jitterSec: int): int
  {
    ((random * 2.0 - 1.0) * jitterSec as real).Floor
  }

  /** The jitter lies in `[-jitterSec, jitterSec]` (in fact below `jitterSec` unless it is 0). */
  lemma JitterInRange(random: real, jitterSec: int)
    requires 0.0 <= random < 1.0 && jitterSec >= 0
    ensures -jitterSec <= Jitter(random, jitterSec) <= jitterSec
  {
    var x := (random * 2.0 - 1.0) * jitterSec as real;
    assert -1.0 <= random * 2.0 - 1.0 < 1.0;
    assert -(jitterSec as real) <= x <= jitterSec as real by {
      if jitterSec > 0 {
        assert x <= 1.0 * jitterSec as real;
        assert x >= -1.0 * jitterSec as real;
      }
    }
  }

  /** `Math.max(5, baseSweepSec + jitter) * 1000`: the delay before the next sweep. */
  function SweeperDelayMs(baseSweepSec: int, jitter: int): (ms: int)
    ensures ms >= 5000
    ensures baseSweepSec + jitter >= 5 ==> ms == (baseSweepSec + jitter) * 1000
  {
    Max(5, baseSweepSec + jitter) * 1000
  }

  /** With the jitter drawn from `Math.random()`, the sweeper delay stays within the jitter
    * band around the base period, and never goes below five seconds. */
  lemma SweeperDelayBounds(baseSweepSec: int, random: real, jitterSec: int)
    requires 0.0 <= random < 1.0 && jitterSec >= 0
    ensures SweeperDelayMs(baseSweepSec, Jitter(random, jitterSec)) >= 5000
    ensures SweeperDelayMs(baseSweepSec, Jitter(random, jitterSec)) <= Max(5, baseSweepSec + jitterSec) * 1000
    ensures SweeperDelayMs(baseSweepSec, Jitter(random, jitterSec)) >= Max(5, baseSweepSec - jitterSec) * 1000
  {
    JitterInRange(random, jitterSec);
  }
}
