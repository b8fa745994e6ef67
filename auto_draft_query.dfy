/**
 * The settings of one auto-draft poll: the Gmail search query built from the
 * environment, the per-user plan of `runAutoDraftOnce`, the per-poll thread
 * limit and the polling period of the worker.
 *
 * The query always asks for unread inbox mail newer than the lookback; it adds
 * the allow label when one is required and configured, excludes promotions
 * unless switched off, and excludes the processed label when one is set.
 */
module AutoDraftQuery {
  import opened Wrappers
  import opened Strings
  import opened JsNumber
  import opened MailActionsConfig

  /** `process.env[name] || def`. */
  function EnvOr(env: Env, name: string, def: string): (r: string)
    ensures name in env && env[name] != "" ==> r == env[name]
    ensures (name !in env || env[name] == "") ==> r == def
  {
    var v := Get(env, name);
    if Truthy(v) then v.value else def
  }

  /** What the query is built from. */
  datatype QuerySettings = QuerySettings(lookback: string, allowLabel: string, excludePromotions: bool,
                                         processedLabel: string)

  /** The lookback (default `1d`), the trimmed allow label (default `ai-draft-allow`), the
    * promotions switch (default on) and the trimmed processed label (default
    * `autodraft-processed`). */
  function Settings(env: Env): (cfg: QuerySettings)
    ensures "AUTODRAFT_LOOKBACK" !in env ==> cfg.lookback == "1d"
    ensures "AUTODRAFT_EXCLUDE_PROMOTIONS" !in env ==> cfg.excludePromotions
    ensures Trim(cfg.allowLabel) == cfg.allowLabel && Trim(cfg.processedLabel) == cfg.processedLabel
  {
    TrimIdempotent(EnvOr(env, "AUTODRAFT_ALLOW_LABEL_NAME", "ai-draft-allow"));
    TrimIdempotent(EnvOr(env, "AUTODRAFT_PROCESSED_LABEL", "autodraft-processed"));
    QuerySettings(
      EnvOr(env, "AUTODRAFT_LOOKBACK", "1d"),
      Trim(EnvOr(env, "AUTODRAFT_ALLOW_LABEL_NAME", "ai-draft-allow")),
      BoolEnv(Get(env, "AUTODRAFT_EXCLUDE_PROMOTIONS"), true),
      Trim(EnvOr(env, "AUTODRAFT_PROCESSED_LABEL", "autodraft-processed")))
  }

  function LabelTerm(name: string): string
  {
    "label:" + name
  }

  function ProcessedTerm(name: string): string
  {
    "-label:" + name
  }

  const PromotionsTerm: string := "-category:promotions"

  /** The `qParts` of `buildQuery`, in push order. */
  function QueryParts(cfg: QuerySettings, requireAllowLabel: bool): seq<string>
  {
    ["in:inbox", "is:unread", "newer_than:" + cfg.lookback]
    + (if requireAllowLabel && cfg.allowLabel != "" then [LabelTerm(cfg.allowLabel)] else [])
    + (if cfg.excludePromotions then [PromotionsTerm] else [])
    + (if cfg.processedLabel != "" then [ProcessedTerm(cfg.processedLabel)] else [])
  }

  /** `buildQuery`: the parts joined by single spaces. */
  function BuildQuery(cfg: QuerySettings, requireAllowLabel: bool): string
  {
    Join(QueryParts(cfg, requireAllowLabel), " ")
  }

  /** The allow label is asked for exactly when it is required and configured, promotions
    * are excluded exactly when switched on, and the processed label is excluded exactly
    * when it is set. */
  lemma PartsMembers(cfg: QuerySettings, requireAllowLabel: bool)
    ensures var parts := QueryParts(cfg, requireAllowLabel);
      (LabelTerm(cfg.allowLabel) in parts <==> requireAllowLabel && cfg.allowLabel != "")
      && (PromotionsTerm in parts <==> cfg.excludePromotions)
      && (ProcessedTerm(cfg.processedLabel) in parts <==> cfg.processedLabel != "")
  {
    var parts := QueryParts(cfg, requireAllowLabel);
    var fixed := ["in:inbox", "is:unread", "newer_than:" + cfg.lookback];
    var l := LabelTerm(cfg.allowLabel);
    var c := PromotionsTerm;
    var x := ProcessedTerm(cfg.processedLabel);
    assert l[0] == 'l' && c[0] == '-' && c[1] == 'c' && x[0] == '-' && x[1] == 'l';
    assert fixed[0][0] == 'i' && fixed[1][0] == 'i' && fixed[2][0] == 'n';
    assert l !in fixed && c !in fixed && x !in fixed;
    assert l != c && l != x && c != x;
  }

  /** With labels and lookback free of spaces, the query's space-separated terms are the
    * parts, starting with the three fixed ones. */
  lemma QueryTerms(cfg: QuerySettings, requireAllowLabel: bool)
    requires ' ' !in cfg.lookback && ' ' !in cfg.allowLabel && ' ' !in cfg.processedLabel
    ensures var terms := Split(BuildQuery(cfg, requireAllowLabel), ' ');
      terms == QueryParts(cfg, requireAllowLabel)
      && terms[..3] == ["in:inbox", "is:unread", "newer_than:" + cfg.lookback]
  {
    var parts := QueryParts(cfg, requireAllowLabel);
    var fixed := ["in:inbox", "is:unread", "newer_than:" + cfg.lookback];
    var rest := (if requireAllowLabel && cfg.allowLabel != "" then [LabelTerm(cfg.allowLabel)] else [])
      + (if cfg.excludePromotions then [PromotionsTerm] else [])
      + (if cfg.processedLabel != "" then [ProcessedTerm(cfg.processedLabel)] else []);
    assert parts == fixed + rest;
    assert NoSpaceIn(fixed) by {
      assert ' ' !in "newer_than:";
    }
    assert NoSpaceIn(rest) by {
      assert ' ' !in "label:" && ' ' !in "-label:" && ' ' !in PromotionsTerm;
    }
    NoSpaceAppend(fixed, rest);
    SplitJoin(parts, ' ');
    assert parts[..3] == fixed;
  }

  /** No term holds a space. */
  predicate NoSpaceIn(terms: seq<string>)
  {
    forall k :: 0 <= k < |terms| ==> ' ' !in terms[k]
  }

  lemma NoSpaceAppend(a: seq<string>, b: seq<string>)
    requires NoSpaceIn(a) && NoSpaceIn(b)
    ensures NoSpaceIn(a + b)
  {
    forall k | 0 <= k < |a + b| ensures ' ' !in (a + b)[k] {
      if k >= |a| {
        assert (a + b)[k] == b[k - |a|];
      }
    }
  }

  // ---------------------------------------------------------------------
  // runAutoDraftOnce
  // ---------------------------------------------------------------------

  /** What one poll does before drafting: nothing, one run with the shared query (no
    * enabled users), or one run per enabled user (`None` for a user that is skipped). */
  datatype PollPlan = Skipped | Shared(query: string) | PerUser(queries: seq<Option<string>>)

  /** `AUTODRAFT_REQUIRE_ALLOW_LABEL`, on by default. */
  function RequireByDefault(env: Env): bool
  {
    BoolEnv(Get(env, "AUTODRAFT_REQUIRE_ALLOW_LABEL"), true)
  }

  /** `runAutoDraftOnce` up to the runs, with the settings `cfg` and the default flag:
    * `requireAllowLabels[i]` is the flag of the `i`-th enabled user. A required allow label
    * that is not configured skips the whole poll (by default) or the user. */
  function PlanPoll(cfg: QuerySettings, requireByDefault: bool, requireAllowLabels: seq<bool>): (p: PollPlan)
    ensures p.Skipped? <==> requireByDefault && cfg.allowLabel == ""
    ensures p.Shared? <==> !p.Skipped? && requireAllowLabels == []
    ensures p.Shared? ==> p.query == BuildQuery(cfg, requireByDefault)
    ensures p.PerUser? ==> |p.queries| == |requireAllowLabels|
    ensures p.PerUser? ==> forall i :: 0 <= i < |p.queries| ==>
      (p.queries[i].None? <==> requireAllowLabels[i] && cfg.allowLabel == "")
      && (p.queries[i].Some? ==> p.queries[i].value == BuildQuery(cfg, requireAllowLabels[i]))
  {
    if requireByDefault && cfg.allowLabel == "" then Skipped
    else if |requireAllowLabels| > 0 then
      PerUser(seq(|requireAllowLabels|, i requires 0 <= i < |requireAllowLabels| =>
        if requireAllowLabels[i] && cfg.allowLabel == "" then None
        else Some(BuildQuery(cfg, requireAllowLabels[i]))))
    else Shared(BuildQuery(cfg, requireByDefault))
  }

  /** A query built with the allow label required asks for the label whenever one is
    * configured. */
  lemma RequiredLabelAsked(cfg: QuerySettings)
    requires cfg.allowLabel != ""
    ensures exists k: nat :: OccursAt(BuildQuery(cfg, true), LabelTerm(cfg.allowLabel), k)
  {
    var parts := QueryParts(cfg, true);
    assert parts[3] == LabelTerm(cfg.allowLabel);
    PartOccurs(parts, " ", 3);
    var k: nat :| OccursAt(Join(parts, " "), parts[3], k);
    assert OccursAt(BuildQuery(cfg, true), LabelTerm(cfg.allowLabel), k);
  }

  /** No query of a poll leaves out a required allow label: every planned run of a user
    * who requires it, and the shared run when the default requires it, asks for it. */
  lemma PlannedQueriesAskLabel(cfg: QuerySettings, requireByDefault: bool, requireAllowLabels: seq<bool>)
    ensures var p := PlanPoll(cfg, requireByDefault, requireAllowLabels);
      (p.Shared? && requireByDefault ==> exists k: nat :: OccursAt(p.query, LabelTerm(cfg.allowLabel), k))
      && (p.PerUser? ==> forall i :: 0 <= i < |p.queries| && p.queries[i].Some? && requireAllowLabels[i] ==>
            exists k: nat :: OccursAt(p.queries[i].value, LabelTerm(cfg.allowLabel), k))
  {
    if cfg.allowLabel != "" {
      RequiredLabelAsked(cfg);
    }
  }

  // ---------------------------------------------------------------------
  // numbers read from the environment
  // ---------------------------------------------------------------------

  /** `Number(process.env.AUTODRAFT_MAX_PER_POLL || '5')`. */
  function MaxPerPoll(env: Env): JsNum
  {
    Number(EnvOr(env, "AUTODRAFT_MAX_PER_POLL", "5"))
  }

  /** `Math.max(30, Number(process.env.AUTODRAFT_POLL_SECONDS || '120'))`: at least half a
    * minute, except that a value that is not a number stays not a number. */
  function PollSeconds(n: JsNum): (r: JsNum)
    ensures r.NaN? <==> n.NaN?
    ensures r.Finite? ==> r.v >= 30.0 && (n.Finite? && n.v >= 30.0 ==> r.v == n.v)
    ensures n.Infinite? && !n.negative ==> r == n
  {
    match n
    case NaN => NaN
    case Infinite(negative) => if negative then Finite(30.0) else n
    case Finite(v) => Finite(if v < 30.0 then 30.0 else v)
  }
}
