/**
 * The `mail_dryrun_ok` button handler of the bot (slack-bot.ts): a fixed-window
 * rate limit kept in two module-level counters, followed by the draft lookup,
 * the To check and the recipient allow list. Only a request that passes every
 * check is counted.
 */
module DryRunThrottle {
  import opened Wrappers
  import opened Drafts
  import opened Recipients
  import opened MailDryRun

  /** The two limits, as `intEnv` yields them (positive, possibly fractional). */
  datatype ThrottleConfig = ThrottleConfig(maxSendPerSweep: real, sendSweepSeconds: real)

  /** `dryRunWindowStart` and `dryRunCount`. */
  datatype Window = Window(start: int, count: nat)

  /** One button press: the payload's draft id, the channel and user ids, the clock,
    * and the pressing user's own address as looked up for the recipient check. */
  datatype Press = Press(
    draftId: Option<string>, channel: Option<string>, user: Option<string>,
    now: int, selfEmail: Option<string>)

  datatype DryRunReply =
    | Ignored
    | RateLimited
    | DraftNotFound
    | MissingTo
    | RecipientRefused(reason: string)
    | DryRunDone(subject: string, bytes: nat)

  function RMax(a: real, b: real): real
  {
    if a >= b then a else b
  }

  /** `Math.max(1, SEND_SWEEP_SECONDS) * 1000`: the window length in milliseconds. */
  function WindowMs(cfg: ThrottleConfig): (ms: real)
    ensures ms >= 1000.0
  {
    RMax(1.0, cfg.sendSweepSeconds) * 1000.0
  }

  /** `Math.max(1, MAX_SEND_PER_SWEEP)`: how many presses a window admits. */
  function Limit(cfg: ThrottleConfig): (l: real)
    ensures l >= 1.0
  {
    RMax(1.0, cfg.maxSendPerSweep)
  }

  /** A window that has lasted longer than its length starts over at `now`. */
  function Rolled(w: Window, now: int, cfg: ThrottleConfig): (r: Window)
    ensures (now - w.start) as real > WindowMs(cfg) ==> r == Window(now, 0)
    ensures (now - w.start) as real <= WindowMs(cfg) ==> r == w
  {
    if (now - w.start) as real > WindowMs(cfg) then Window(now, 0) else w
  }

  /** `getDrafts(user)?.[draftId]` when a draft id was given. */
  function FindDraft(store: map<string, UserDrafts>, user: string, draftId: Option<string>): (d: Option<DraftData>)
    ensures d.Some? <==> Truthy(draftId) && user in store && draftId.value in store[user]
    ensures d.Some? ==> d.value == store[user][draftId.value]
  {
    if Truthy(draftId) && user in store && draftId.value in store[user] then Some(store[user][draftId.value])
    else None
  }

  /** The checks after the rate limit, in the handler's order; `Done` carries the reply's
    * subject and body size. */
  function Checked(store: map<string, UserDrafts>, allowed: seq<string>, p: Press): DryRunReply
    requires Truthy(p.user)
  {
    var d := FindDraft(store, p.user.value, p.draftId);
    if d.None? then DraftNotFound
    else if !Truthy(d.value.to) then MissingTo
    else
      match IsRecipientAllowed(d.value.to.value, allowed, p.selfEmail)
      case Refused(why) => RecipientRefused(why)
      case Allowed => DryRunDone(d.value.subject.UnwrapOr(""), Utf8Length(d.value.body))
  }

  /** The handler as one step: the new counters and the reply. */
  function DryRunOk(w: Window, store: map<string, UserDrafts>, allowed: seq<string>, p: Press,
                    cfg: ThrottleConfig): (Window, DryRunReply)
  {
    if !Truthy(p.channel) || !Truthy(p.user) then (w, Ignored)
    else
      var w1 := Rolled(w, p.now, cfg);
      if w1.count as real >= Limit(cfg) then (w1, RateLimited)
      else
        var reply := Checked(store, allowed, p);
        if reply.DryRunDone? then (Window(w1.start, w1.count + 1), reply) else (w1, reply)
  }

  /** Each outcome of the checks after the rate limit, with the condition that leads to it:
    * a dry-run completes exactly when the draft exists, has a To and the To is allowed. */
  lemma CheckedOutcomes(store: map<string, UserDrafts>, allowed: seq<string>, p: Press)
    requires Truthy(p.user)
    ensures var r := Checked(store, allowed, p);
            var d := FindDraft(store, p.user.value, p.draftId);
            && (r == DraftNotFound <==> d.None?)
            && (r == MissingTo <==> d.Some? && !Truthy(d.value.to))
            && (r.RecipientRefused? <==>
                  d.Some? && Truthy(d.value.to) && IsRecipientAllowed(d.value.to.value, allowed, p.selfEmail).Refused?)
            && (r.RecipientRefused? ==> IsRecipientAllowed(d.value.to.value, allowed, p.selfEmail) == Refused(r.reason))
            && (r.DryRunDone? <==>
                  d.Some? && Truthy(d.value.to) && IsRecipientAllowed(d.value.to.value, allowed, p.selfEmail) == Allowed)
            && (r.DryRunDone? ==> r == DryRunDone(d.value.subject.UnwrapOr(""), LogDryRun(d.value).bytes))
            && r != Ignored && r != RateLimited
  {
  }

  /** What one press does to the counters: an ignored press changes nothing, every other
    * press works in the rolled window, a press at the limit is refused, and only a
    * completed dry-run is counted. */
  lemma DryRunOkOutcomes(w: Window, store: map<string, UserDrafts>, allowed: seq<string>, p: Press,
                         cfg: ThrottleConfig)
    ensures var (w', r) := DryRunOk(w, store, allowed, p, cfg);
            var w1 := Rolled(w, p.now, cfg);
            && (r == Ignored <==> !Truthy(p.channel) || !Truthy(p.user))
            && (r == Ignored ==> w' == w)
            && (r == RateLimited <==> r != Ignored && w1.count as real >= Limit(cfg))
            && (r != Ignored && r != RateLimited ==> r == Checked(store, allowed, p))
            && (r != Ignored ==> w' == Window(w1.start, w1.count + if r.DryRunDone? then 1 else 0))
  {
  }

  /** The counters never pass the limit: a count above zero was admitted below it. */
  predicate WithinLimit(w: Window, cfg: ThrottleConfig)
  {
    w.count == 0 || (w.count - 1) as real < Limit(cfg)
  }

  lemma DryRunOkKeepsLimit(w: Window, store: map<string, UserDrafts>, allowed: seq<string>, p: Press,
                           cfg: ThrottleConfig)
    requires WithinLimit(w, cfg)
    ensures WithinLimit(DryRunOk(w, store, allowed, p, cfg).0, cfg)
  {
  }

  /** The handler's state: the two module-level counters. */
  class DryRunCounters {
    var windowStart: int
    var count: nat

    constructor ()
      ensures windowStart == 0 && count == 0
    {
      windowStart := 0;
      count := 0;
    }

    function State(): Window
      reads this
    {
      Window(windowStart, count)
    }

    /** `app.action('mail_dryrun_ok', …)`. */
    method MailDryRunOk(store: DraftStore, allowed: seq<string>, p: Press, cfg: ThrottleConfig)
      returns (reply: DryRunReply)
      modifies this
      ensures State() == DryRunOk(old(State()), store.drafts, allowed, p, cfg).0
      ensures reply == DryRunOk(old(State()), store.drafts, allowed, p, cfg).1
    {
      if !Truthy(p.channel) || !Truthy(p.user) {
        return Ignored;
      }
      ghost var w0 := State();
      DryRunOkOutcomes(w0, store.drafts, allowed, p, cfg);
      if (p.now - windowStart) as real > RMax(1.0, cfg.sendSweepSeconds) * 1000.0 {
        windowStart := p.now;
        count := 0;
      }
      assert State() == Rolled(w0, p.now, cfg);
      if count as real >= RMax(1.0, cfg.maxSendPerSweep) {
        return RateLimited;
      }
      // the draft lookup, the To check and the allow list only read
      reply := Checked(store.drafts, allowed, p);
      if reply.DryRunDone? {
        count := count + 1;
      }
    }
  }

  // ---------------------------------------------------------------------
  // a run of presses
  // ---------------------------------------------------------------------

  /** The counters and replies after handling `ps` in order. */
  function Run(w: Window, store: map<string, UserDrafts>, allowed: seq<string>, ps: seq<Press>,
               cfg: ThrottleConfig): (Window, seq<DryRunReply>)
    decreases |ps|
  {
    if ps == [] then (w, [])
    else
      var (w1, r) := DryRunOk(w, store, allowed, ps[0], cfg);
      var (w2, rs) := Run(w1, store, allowed, ps[1..], cfg);
      (w2, [r] + rs)
  }

  function DoneCount(rs: seq<DryRunReply>): nat
  {
    if rs == [] then 0 else (if rs[0].DryRunDone? then 1 else 0) + DoneCount(rs[1..])
  }

  /** No press of `ps` comes late enough to start a new window. */
  predicate InWindow(start: int, ps: seq<Press>, cfg: ThrottleConfig)
  {
    forall i :: 0 <= i < |ps| ==> (ps[i].now - start) as real <= WindowMs(cfg)
  }

  /** Within one window every completed dry-run is counted, so at most the limit of them
    * complete however many presses arrive. */
  lemma {:induction false} WindowAdmitsAtMostLimit(w: Window, store: map<string, UserDrafts>, allowed: seq<string>,
                                                   ps: seq<Press>, cfg: ThrottleConfig)
    requires WithinLimit(w, cfg)
    requires InWindow(w.start, ps, cfg)
    ensures Run(w, store, allowed, ps, cfg).0.start == w.start
    ensures Run(w, store, allowed, ps, cfg).0.count == w.count + DoneCount(Run(w, store, allowed, ps, cfg).1)
    ensures WithinLimit(Run(w, store, allowed, ps, cfg).0, cfg)
    decreases |ps|
  {
    if ps != [] {
      var res := DryRunOk(w, store, allowed, ps[0], cfg);
      DryRunOkKeepsLimit(w, store, allowed, ps[0], cfg);
      assert InWindow(res.0.start, ps[1..], cfg) by {
        forall i | 0 <= i < |ps[1..]| ensures (ps[1..][i].now - res.0.start) as real <= WindowMs(cfg) {
          assert ps[1..][i] == ps[i + 1];
        }
      }
      WindowAdmitsAtMostLimit(res.0, store, allowed, ps[1..], cfg);
    }
  }

  /** With whole-number limits: a fresh window completes at most `MAX_SEND_PER_SWEEP` dry-runs. */
  lemma FreshWindowBound(start: int, store: map<string, UserDrafts>, allowed: seq<string>,
                         ps: seq<Press>, cfg: ThrottleConfig, max: nat)
    requires Limit(cfg) == max as real
    requires InWindow(start, ps, cfg)
    ensures DoneCount(Run(Window(start, 0), store, allowed, ps, cfg).1) <= max
  {
    WindowAdmitsAtMostLimit(Window(start, 0), store, allowed, ps, cfg);
  }

  /** A press that is refused, or finds nothing to send, uses up no part of the limit:
    * the counters are only rolled over. */
  lemma RefusalsAreNotCounted(w: Window, store: map<string, UserDrafts>, allowed: seq<string>, p: Press,
                              cfg: ThrottleConfig)
    requires Truthy(p.channel) && Truthy(p.user)
    requires !DryRunOk(w, store, allowed, p, cfg).1.DryRunDone?
    ensures DryRunOk(w, store, allowed, p, cfg).0 == Rolled(w, p.now, cfg)
  {
  }
}
