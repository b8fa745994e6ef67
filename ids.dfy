/**
 * Identifier formats: trace ids `<prefix>_<time in base 36>_<random>` and the
 * planned message id derived from a trace id. The clock and the random number
 * are parameters: `randomText` is the text of `Math.random().toString(36)`.
 */
module Ids {
  import opened Wrappers
  import opened Strings

  /** `s.slice(start, end)` for non-negative bounds: both are clamped to the length, and a
    * reversed range is empty. */
  function Slice(s: string, start: nat, end: nat): (r: string)
    ensures |r| <= |s| && (end <= start ==> r == [])
    ensures start < end ==> |r| <= end - start
    ensures start <= |s| && start < end ==> r == s[start..if end < |s| then end else |s|]
  {
    var from := if start < |s| then start else |s|;
    var to := if end < |s| then end else |s|;
    if to <= from then [] else s[from..to]
  }

  /** The random part: the characters after `0.`, at most eight of them. */
  function RandomPart(randomText: string): (r: string)
    ensures |r| <= 8
  {
    Slice(randomText, 2, 10)
  }

  /** `generateTraceId(prefix)`; the prefix defaults to `trace` only when it is not given. */
  function GenerateTraceId(prefix: Option<string>, nowMs: nat, randomText: string): string
  {
    prefix.UnwrapOr("trace") + "_" + NatToBase36(nowMs) + "_" + RandomPart(randomText)
  }

  /** The last `_`-separated segment of a string, as `split('_').pop()` gives it: what follows
    * the last `_`, or the whole string when it has none. */
  function LastSegment(s: string): (r: string)
    ensures '_' !in r
    ensures EndsWith(s, r)
    ensures r == s || s[|s| - |r| - 1] == '_'
  {
    match LastIndexOfChar(s, '_')
    case None => s
    case Some(i) => s[i + 1..]
  }

  /** `plannedMessageIdFromTrace`: `msg_` and the last `_` segment, or the last six
    * characters when that segment is empty. */
  function PlannedMessageIdFromTrace(traceId: string): (r: string)
    ensures StartsWith(r, "msg_")
    ensures LastSegment(traceId) != "" ==> r == "msg_" + LastSegment(traceId)
    ensures LastSegment(traceId) == "" ==> r == "msg_" + TakeLast(traceId, 6)
  {
    var suffix := LastSegment(traceId);
    "msg_" + (if suffix != "" then suffix else TakeLast(traceId, 6))
  }

  /** A generated trace id starts with its prefix and an underscore, and carries the clock
    * in base 36 right after it. */
  lemma TraceIdShape(prefix: Option<string>, nowMs: nat, randomText: string)
    ensures StartsWith(GenerateTraceId(prefix, nowMs, randomText), prefix.UnwrapOr("trace") + "_" + NatToBase36(nowMs) + "_")
    ensures EndsWith(GenerateTraceId(prefix, nowMs, randomText), RandomPart(randomText))
  {
    var p := prefix.UnwrapOr("trace") + "_" + NatToBase36(nowMs) + "_";
    var t := GenerateTraceId(prefix, nowMs, randomText);
    assert t == p + RandomPart(randomText);
    assert t[..|p|] == p;
    assert t[|t| - |RandomPart(randomText)|..] == RandomPart(randomText);
  }

  /** The planned message id of a generated trace id is `msg_` and its random part, whenever
    * that part is non-empty (base-36 text has no `_`). */
  lemma PlannedIdOfGeneratedTrace(prefix: Option<string>, nowMs: nat, randomText: string)
    requires '_' !in randomText
    requires RandomPart(randomText) != ""
    ensures PlannedMessageIdFromTrace(GenerateTraceId(prefix, nowMs, randomText)) == "msg_" + RandomPart(randomText)
  {
    var rand := RandomPart(randomText);
    var t := GenerateTraceId(prefix, nowMs, randomText);
    var head := prefix.UnwrapOr("trace") + "_" + NatToBase36(nowMs);
    assert t == head + "_" + rand;
    assert '_' !in rand by {
      forall i | 0 <= i < |rand| ensures rand[i] != '_' {
        assert rand[i] in randomText;
      }
    }
    assert t[|head|] == '_';
    var r := LastIndexOfChar(t, '_');
    assert r.Some?;
    var k := r.value;
    forall j | k < j < |t| ensures t[j] != '_' {
      assert t[j] == t[k + 1..][j - k - 1];
    }
    forall j | |head| < j < |t| ensures t[j] != '_' {
      assert t[j] == rand[j - |head| - 1];
    }
    assert k == |head|;
    assert t[k + 1..] == rand;
  }
}
