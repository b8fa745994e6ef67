/**
 * Thread selection of the auto-draft run: the unread messages listed from the
 * inbox are grouped by Gmail thread, each thread keeping the first listed
 * message that has both a thread id and a message id (the listing is newest
 * first, so that is the thread's head). The threads are taken in the order
 * they were first seen, and at most `limit` of them with the semantics of
 * `Array.prototype.slice(0, limit)`.
 */
module AutoDraftThreads {
  import opened Wrappers
  import opened JsNumber

  /** One item of the message listing, as far as the run reads it. */
  datatype ListedMessage = ListedMessage(id: Option<string>, threadId: Option<string>,
                                         subject: Option<string>, from: Option<string>)

  /** The `{ latestId, subject, from }` kept per thread, with its thread id. */
  datatype ThreadHead = ThreadHead(threadId: string, latestId: string, subject: Option<string>, from: Option<string>)

  /** `!it.threadId || !it.id` skips the item. */
  predicate Listable(m: ListedMessage)
  {
    Truthy(m.threadId) && Truthy(m.id)
  }

  function HeadOf(m: ListedMessage): (h: ThreadHead)
    requires Listable(m)
    ensures h.threadId != "" && h.latestId != ""
  {
    ThreadHead(m.threadId.value, m.id.value, m.subject, m.from)
  }

  function ThreadIds(heads: seq<ThreadHead>): set<string>
  {
    set j | 0 <= j < |heads| :: heads[j].threadId
  }

  /** The `byThread` entries after the items, in insertion order. */
  function Heads(items: seq<ListedMessage>): seq<ThreadHead>
    decreases |items|
  {
    if items == [] then []
    else
      var prev := Heads(items[..|items| - 1]);
      var m := items[|items| - 1];
      if Listable(m) && m.threadId.value !in ThreadIds(prev) then prev + [HeadOf(m)] else prev
  }

  /** Item `p` is listable and no listable item before it is of the same thread. */
  predicate FirstOfThread(items: seq<ListedMessage>, p: int)
    requires 0 <= p < |items|
  {
    Listable(items[p]) &&
    forall q :: 0 <= q < p && Listable(items[q]) ==> items[q].threadId != items[p].threadId
  }

  /** No thread is kept twice. */
  lemma {:induction false} HeadsDistinct(items: seq<ListedMessage>)
    ensures forall i, j :: 0 <= i < j < |Heads(items)| ==> Heads(items)[i].threadId != Heads(items)[j].threadId
    decreases |items|
  {
    if items != [] {
      var init := items[..|items| - 1];
      HeadsDistinct(init);
      var prev := Heads(init);
      var m := items[|items| - 1];
      if Listable(m) && m.threadId.value !in ThreadIds(prev) {
        var h := Heads(items);
        assert h == prev + [HeadOf(m)];
        forall i, j | 0 <= i < j < |h| ensures h[i].threadId != h[j].threadId {
          if j == |prev| {
            assert h[i] == prev[i];
            assert prev[i].threadId in ThreadIds(prev);
          } else {
            assert h[i] == prev[i] && h[j] == prev[j];
          }
        }
      }
    }
  }

  /** Every listable item's thread is kept. */
  lemma {:induction false} HeadsComplete(items: seq<ListedMessage>)
    ensures forall p :: 0 <= p < |items| && Listable(items[p]) ==> items[p].threadId.value in ThreadIds(Heads(items))
    decreases |items|
  {
    if items != [] {
      var init := items[..|items| - 1];
      HeadsComplete(init);
      var prev := Heads(init);
      var h := Heads(items);
      assert ThreadIds(prev) <= ThreadIds(h) by {
        forall t | t in ThreadIds(prev) ensures t in ThreadIds(h) {
          var j :| 0 <= j < |prev| && prev[j].threadId == t;
          assert h[j] == prev[j];
        }
      }
      forall p | 0 <= p < |items| && Listable(items[p]) ensures items[p].threadId.value in ThreadIds(h) {
        if p < |init| {
          assert items[p] == init[p];
        } else if items[p].threadId.value !in ThreadIds(prev) {
          assert h[|prev|] == HeadOf(items[p]);
        }
      }
    }
  }

  /** The head kept for a thread is its first listable item. */
  lemma {:induction false} FirstsAreHeads(items: seq<ListedMessage>)
    ensures forall p :: 0 <= p < |items| && FirstOfThread(items, p) ==> HeadOf(items[p]) in Heads(items)
    decreases |items|
  {
    if items != [] {
      var init := items[..|items| - 1];
      FirstsAreHeads(init);
      var prev := Heads(init);
      var h := Heads(items);
      assert forall x :: x in prev ==> x in h;
      forall p | 0 <= p < |items| && FirstOfThread(items, p) ensures HeadOf(items[p]) in h {
        if p < |init| {
          assert items[p] == init[p];
          assert FirstOfThread(init, p) by {
            forall q | 0 <= q < p && Listable(init[q]) ensures init[q].threadId != init[p].threadId {
              assert init[q] == items[q];
            }
          }
        } else {
          LastFirstIsNew(items);
          assert h == prev + [HeadOf(items[p])];
        }
      }
    }
  }

  /** A last item that is the first of its thread finds its thread not yet kept. */
  lemma LastFirstIsNew(items: seq<ListedMessage>)
    requires items != [] && FirstOfThread(items, |items| - 1)
    ensures items[|items| - 1].threadId.value !in ThreadIds(Heads(items[..|items| - 1]))
  {
    var init := items[..|items| - 1];
    var prev := Heads(init);
    var m := items[|items| - 1];
    HeadsSound(init);
    forall j | 0 <= j < |prev| ensures prev[j].threadId != m.threadId.value {
      assert prev[j] in prev;
      var q :| 0 <= q < |init| && Listable(init[q]) && HeadOf(init[q]) == prev[j];
      assert items[q] == init[q];
    }
  }

  /** Every kept head comes from a listable item of its thread. */
  lemma {:induction false} HeadsSound(items: seq<ListedMessage>)
    ensures forall h :: h in Heads(items) ==>
      exists p :: 0 <= p < |items| && Listable(items[p]) && HeadOf(items[p]) == h
    decreases |items|
  {
    if items != [] {
      var init := items[..|items| - 1];
      HeadsSound(init);
      forall h | h in Heads(items) ensures exists p :: 0 <= p < |items| && Listable(items[p]) && HeadOf(items[p]) == h {
        if h in Heads(init) {
          var p :| 0 <= p < |init| && Listable(init[p]) && HeadOf(init[p]) == h;
          assert items[p] == init[p];
        } else {
          assert HeadOf(items[|items| - 1]) == h;
        }
      }
    }
  }

  lemma ThreadIdsAppend(prev: seq<ThreadHead>, x: ThreadHead)
    ensures ThreadIds(prev + [x]) == ThreadIds(prev) + {x.threadId}
  {
    var h := prev + [x];
    forall t | t in ThreadIds(h) ensures t in ThreadIds(prev) + {x.threadId} {
      var j :| 0 <= j < |h| && h[j].threadId == t;
      if j < |prev| {
        assert h[j] == prev[j];
      }
    }
    forall t | t in ThreadIds(prev) ensures t in ThreadIds(h) {
      var j :| 0 <= j < |prev| && prev[j].threadId == t;
      assert h[j] == prev[j];
    }
    assert h[|prev|].threadId == x.threadId;
  }

  /** `ToIntegerOrInfinity` on a finite number: the integer part, toward zero. */
  function Truncate(v: real): (k: int)
    ensures 0.0 <= v ==> k as real <= v < k as real + 1.0
    ensures v < 0.0 ==> k as real - 1.0 < v <= k as real
  {
    if v >= 0.0 then v.Floor else -((-v).Floor)
  }

  /** Where `slice(0, end)` stops in a list of `len` entries: the integer part of `end`,
    * counted from the back when negative, clamped to the list; not a number counts as 0. */
  function SliceEnd(len: nat, end: JsNum): (e: nat)
    ensures e <= len
    ensures end.NaN? ==> e == 0
    ensures end.Finite? && 0 <= Truncate(end.v) ==> e == if Truncate(end.v) < len then Truncate(end.v) else len
    ensures end.Finite? && Truncate(end.v) < 0 ==> e == if len + Truncate(end.v) < 0 then 0 else len + Truncate(end.v)
    ensures end.Infinite? ==> e == if end.negative then 0 else len
  {
    match end
    case NaN => 0
    case Infinite(negative) => if negative then 0 else len
    case Finite(v) =>
      var k := Truncate(v);
      if k >= 0 then (if k < len then k else len)
      else if len + k < 0 then 0 else len + k
  }

  /** The threads of one run: the heads in first-seen order, cut by `slice(0, limit)`. */
  method CollectThreads(items: seq<ListedMessage>, limit: JsNum) returns (threads: seq<ThreadHead>)
    ensures threads == Heads(items)[..SliceEnd(|Heads(items)|, limit)]
  {
    var byThread: map<string, ThreadHead> := map[];
    var order: seq<string> := [];
    var i := 0;
    while i < |items|
      invariant 0 <= i <= |items|
      invariant |order| == |Heads(items[..i])|
      invariant forall j :: 0 <= j < |order| ==>
        order[j] in byThread && byThread[order[j]] == Heads(items[..i])[j] && order[j] == Heads(items[..i])[j].threadId
      invariant byThread.Keys == ThreadIds(Heads(items[..i]))
    {
      var m := items[i];
      assert items[..i + 1][..i] == items[..i];
      ghost var prev := Heads(items[..i]);
      if Truthy(m.threadId) && Truthy(m.id) {
        var tid := m.threadId.value;
        if tid !in byThread {
          byThread := byThread[tid := ThreadHead(tid, m.id.value, m.subject, m.from)];
          order := order + [tid];
          assert Heads(items[..i + 1]) == prev + [HeadOf(m)];
          ThreadIdsAppend(prev, HeadOf(m));
        }
      }
      i := i + 1;
    }
    assert items[..|items|] == items;
    var entries := seq(|order|, j requires 0 <= j < |order| => byThread[order[j]]);
    assert entries == Heads(items);
    threads := entries[..SliceEnd(|entries|, limit)];
  }
}
