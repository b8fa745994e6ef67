/**
 * The confirmation gate in front of dangerous tool calls: a fail-closed
 * decision that lets a dangerous action through only when the ledger holds a
 * `confirmed` record for the request's trace id, and a filter that splits a
 * list of tool calls into the allowed and the blocked ones.
 */
module ExecutionGate {
  import opened Wrappers
  import opened Ledger
  import opened Seqs

  /** `SAFETY_ENFORCE`: enforcement is on unless the variable is exactly `"0"`. */
  function SafetyEnforce(env: Option<string>): (on: bool)
    ensures !on <==> env == Some("0")
  {
    env != Some("0")
  }

  const DangerousActions: set<string> := {"gmail.send", "gmail.saveDraft", "calendar.createEvent"}

  /** `isDangerous`: a missing (or empty) action name is treated as dangerous. */
  predicate IsDangerous(action: Option<string>)
  {
    action.None? || action.value == "" || action.value in DangerousActions
  }

  /** Why `mustAllow` throws. */
  datatype Denial =
    | MissingTraceId
    | NoRecord(traceId: string)
    | NotConfirmed(traceId: string, status: Status)

  datatype Verdict = Allow | Deny(why: Denial)

  /** `mustAllow`, with the module switch passed in and the ledger as a table. */
  function MustAllow(enforce: bool, traceId: Option<string>, action: Option<string>, t: Table): (v: Verdict)
    ensures !enforce ==> v == Allow
    ensures enforce && !IsDangerous(action) ==> v == Allow
    ensures enforce && IsDangerous(action) ==>
      (v == Allow <==> traceId.Some? && traceId.value != "" && traceId.value in t
                       && t[traceId.value].status == Confirmed)
    ensures v == Deny(MissingTraceId) <==>
      enforce && IsDangerous(action) && (traceId.None? || traceId.value == "")
    ensures v.Deny? && v.why.NoRecord? ==> traceId == Some(v.why.traceId) && v.why.traceId !in t
    ensures v.Deny? && v.why.NotConfirmed? ==>
      traceId == Some(v.why.traceId) && v.why.traceId in t
      && v.why.status == t[v.why.traceId].status != Confirmed
  {
    if !enforce then Allow
    else if !IsDangerous(action) then Allow
    else if traceId.None? || traceId.value == "" then Deny(MissingTraceId)
    else
      match Lookup(t, traceId.value)
      case None => Deny(NoRecord(traceId.value))
      case Some(rec) =>
        if rec.status != Confirmed then Deny(NotConfirmed(traceId.value, rec.status)) else Allow
  }

  datatype ToolCall = ToolCall(name: Option<string>, arguments: string)

  /** Whether `filterToolCalls` puts a call on the allowed side. */
  predicate Admitted(enforce: bool, traceId: Option<string>, t: Table, c: ToolCall)
  {
    !enforce || !IsDangerous(c.name) || MustAllow(enforce, traceId, c.name, t) == Allow
  }

  /** The calls `filterToolCalls` returns as allowed, in input order. */
  function AllowedCalls(calls: seq<ToolCall>, enforce: bool, traceId: Option<string>, t: Table): seq<ToolCall>
  {
    Keep(calls, c => Admitted(enforce, traceId, t, c))
  }

  /** The calls `filterToolCalls` returns as blocked, in input order. */
  function BlockedCalls(calls: seq<ToolCall>, enforce: bool, traceId: Option<string>, t: Table): seq<ToolCall>
  {
    Keep(calls, c => !Admitted(enforce, traceId, t, c))
  }

  /** `filterToolCalls`: one pass over the calls, pushing each onto one side. */
  method FilterToolCalls(enforce: bool, calls: seq<ToolCall>, traceId: Option<string>, ledger: ExecutionLedger)
    returns (allowed: seq<ToolCall>, blocked: seq<ToolCall>)
    ensures allowed == AllowedCalls(calls, enforce, traceId, ledger.rows)
    ensures blocked == BlockedCalls(calls, enforce, traceId, ledger.rows)
  {
    if !enforce {
      EnforcementOffAllowsAll(calls, traceId, ledger.rows);
      return calls, [];
    }
    allowed, blocked := [], [];
    var i := 0;
    while i < |calls|
      invariant 0 <= i <= |calls|
      invariant allowed == AllowedCalls(calls[..i], enforce, traceId, ledger.rows)
      invariant blocked == BlockedCalls(calls[..i], enforce, traceId, ledger.rows)
    {
      var call := calls[i];
      assert calls[..i + 1][..i] == calls[..i];
      if !IsDangerous(call.name) {
        allowed := allowed + [call];
      } else if MustAllow(enforce, traceId, call.name, ledger.rows) == Allow {
        allowed := allowed + [call];
      } else {
        blocked := blocked + [call];
      }
      i := i + 1;
    }
    assert calls[..i] == calls;
  }

  /** With enforcement off every call is allowed and none is blocked. */
  lemma EnforcementOffAllowsAll(calls: seq<ToolCall>, traceId: Option<string>, t: Table)
    ensures AllowedCalls(calls, false, traceId, t) == calls
    ensures BlockedCalls(calls, false, traceId, t) == []
  {
    KeepEverything(calls, c => Admitted(false, traceId, t, c));
    KeepNothing(calls, c => !Admitted(false, traceId, t, c));
  }

  /** Every call lands on exactly one side: a call is allowed iff it is admitted, blocked iff
    * not, and the two sides together are a permutation of the input. */
  lemma FilterIsPartition(calls: seq<ToolCall>, enforce: bool, traceId: Option<string>, t: Table)
    ensures forall c :: c in calls ==>
      (c in AllowedCalls(calls, enforce, traceId, t) <==> Admitted(enforce, traceId, t, c))
    ensures forall c :: c in calls ==>
      (c in BlockedCalls(calls, enforce, traceId, t) <==> !Admitted(enforce, traceId, t, c))
    ensures multiset(AllowedCalls(calls, enforce, traceId, t)) + multiset(BlockedCalls(calls, enforce, traceId, t))
            == multiset(calls)
  {
    var f := c => Admitted(enforce, traceId, t, c);
    var g := c => !Admitted(enforce, traceId, t, c);
    forall c | c in calls
      ensures c in AllowedCalls(calls, enforce, traceId, t) <==> Admitted(enforce, traceId, t, c)
      ensures c in BlockedCalls(calls, enforce, traceId, t) <==> !Admitted(enforce, traceId, t, c)
    {
      if f(c) { KeepComplete(calls, f, c); } else { KeepComplete(calls, g, c); }
    }
    KeepComplement(calls, f, g);
  }

  /** Each side keeps the input's relative order: filtering distributes over concatenation. */
  lemma FilterKeepsOrder(a: seq<ToolCall>, b: seq<ToolCall>, enforce: bool, traceId: Option<string>, t: Table)
    ensures AllowedCalls(a + b, enforce, traceId, t)
            == AllowedCalls(a, enforce, traceId, t) + AllowedCalls(b, enforce, traceId, t)
    ensures BlockedCalls(a + b, enforce, traceId, t)
            == BlockedCalls(a, enforce, traceId, t) + BlockedCalls(b, enforce, traceId, t)
  {
    KeepAppend(a, b, c => Admitted(enforce, traceId, t, c));
    KeepAppend(a, b, c => !Admitted(enforce, traceId, t, c));
  }

  /** A dangerous call is allowed exactly when its trace id names a confirmed record. */
  lemma DangerousAllowedIffConfirmed(c: ToolCall, traceId: Option<string>, t: Table)
    requires IsDangerous(c.name)
    ensures Admitted(true, traceId, t, c) <==>
      traceId.Some? && traceId.value != "" && traceId.value in t && t[traceId.value].status == Confirmed
  {
  }
}
