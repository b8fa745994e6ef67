/**
 * Environment-driven switches for the mail actions (config/mailActionsConfig.ts):
 * boolean and positive-number flags, the recipient allow list and the dry-run
 * resolution. The process environment is a map from variable name to value.
 */
module MailActionsConfig {
  import opened Wrappers
  import opened Strings
  import opened Seqs
  import opened JsNumber

  type Env = map<string, string>

  function Get(env: Env, name: string): (v: Option<string>)
    ensures v.Some? <==> name in env
  {
    if name in env then Some(env[name]) else None
  }

  /** The words `/^(1|true|on|yes)$/i` accepts. */
  predicate TruthyWord(s: string)
  {
    Lower(s) in {"1", "true", "on", "yes"}
  }

  /** `boolEnv`: the default only when the variable is unset; a set variable is true
    * exactly when it spells one of the accepted words in any letter case. */
  function BoolEnv(v: Option<string>, def: bool): (b: bool)
    ensures v.None? ==> b == def
    ensures v.Some? ==> (b <==> TruthyWord(v.value))
  {
    if v.None? then def else TruthyWord(v.value)
  }

  /** A set variable ignores the default, so an empty value switches a default-on flag off. */
  lemma SetFlagIgnoresDefault(s: string)
    ensures BoolEnv(Some(s), true) == BoolEnv(Some(s), false)
    ensures BoolEnv(Some(""), true) == false
  {
    assert Lower("") == "";
  }

  /** Letter case never matters to a set flag. */
  lemma BoolEnvIgnoresCase(s: string, def: bool)
    ensures BoolEnv(Some(Lower(s)), def) == BoolEnv(Some(s), def)
  {
    assert Lower(Lower(s)) == Lower(s);
  }

  /** `intEnv`: `Number(v || '')`, kept only when finite and positive. */
  function IntEnv(v: Option<string>, def: real): (r: real)
    ensures r == def || r > 0.0
    ensures r != def ==> v.Some? && Number(v.value) == Finite(r)
  {
    if v.None? then
      assert Number("") == Finite(0.0) by { assert AllSpace(""); }
      PositiveOr(Number(""), def)
    else
      PositiveOr(Number(v.value), def)
  }

  /** The value of `n` when it is finite and positive, else `def`. */
  function PositiveOr(n: JsNum, def: real): (r: real)
    ensures r == def || (n == Finite(r) && r > 0.0)
    ensures n.Finite? && n.v <= 0.0 ==> r == def
  {
    if n.IsFinite() && n.v > 0.0 then n.v else def
  }

  /** An unset, empty or non-positive value falls back to the default; a written positive
    * integer is taken as is. */
  lemma IntEnvOfNat(n: nat, def: real)
    ensures IntEnv(None, def) == def
    ensures IntEnv(Some(""), def) == def
    ensures IntEnv(Some(NatToString(n)), def) == if n > 0 then n as real else def
  {
    NumberOfNatText(n);
  }

  // ---------------------------------------------------------------------
  // the module's constants
  // ---------------------------------------------------------------------

  function FeaturePhase3Actions(env: Env): bool
  {
    BoolEnv(Get(env, "FEATURE_PHASE3_ACTIONS"), false)
  }

  function FeatureMailActionsDryrun(env: Env): bool
  {
    BoolEnv(Get(env, "FEATURE_MAIL_ACTIONS_DRYRUN"), true)
  }

  function MaxSendPerSweep(env: Env): real
  {
    IntEnv(Get(env, "MAX_SEND_PER_SWEEP"), 5.0)
  }

  function SendSweepSeconds(env: Env): real
  {
    IntEnv(Get(env, "SEND_SWEEP_SECONDS"), 60.0)
  }

  /** With nothing set: Phase 3 actions off, dry-run on, 5 sends per 60-second window. */
  lemma Defaults()
    ensures !FeaturePhase3Actions(map[])
    ensures FeatureMailActionsDryrun(map[])
    ensures MaxSendPerSweep(map[]) == 5.0
    ensures SendSweepSeconds(map[]) == 60.0
  {
  }

  // ---------------------------------------------------------------------
  // allowed send domains
  // ---------------------------------------------------------------------

  function TrimAll(parts: seq<string>): (r: seq<string>)
    ensures |r| == |parts|
    ensures forall i :: 0 <= i < |parts| ==> r[i] == Trim(parts[i])
  {
    seq(|parts|, i requires 0 <= i < |parts| => Trim(parts[i]))
  }

  predicate NonEmptyText(s: string)
  {
    s != []
  }

  /** `(raw || 'self').trim().split(',').map(trim).filter(Boolean)`. */
  function AllowedSendDomains(v: Option<string>): seq<string>
  {
    DomainsOf(if v.Some? && v.value != "" then v.value else "self")
  }

  function DomainsOf(raw: string): seq<string>
  {
    Keep(TrimAll(Split(Trim(raw), ',')), NonEmptyText)
  }

  /** Every allowed entry is non-empty, comma-free and already trimmed. */
  lemma AllowedEntriesClean(v: Option<string>)
    ensures forall d :: d in AllowedSendDomains(v) ==> d != [] && ',' !in d && Trim(d) == d
  {
    var raw := if v.Some? && v.value != "" then v.value else "self";
    TrimmedPartsClean(Split(Trim(raw), ','));
  }

  /** Trimming comma-free pieces and dropping the empty ones leaves clean entries. */
  lemma TrimmedPartsClean(parts: seq<string>)
    requires forall k :: 0 <= k < |parts| ==> ',' !in parts[k]
    ensures forall d :: d in Keep(TrimAll(parts), NonEmptyText) ==> d != [] && ',' !in d && Trim(d) == d
  {
    var trimmed := TrimAll(parts);
    forall d | d in trimmed ensures ',' !in d && Trim(d) == d {
      var i :| 0 <= i < |parts| && trimmed[i] == d;
      CleanEntry(parts[i]);
    }
  }

  lemma CleanEntry(p: string)
    requires ',' !in p
    ensures ',' !in Trim(p) && Trim(Trim(p)) == Trim(p)
  {
    TrimIdempotent(p);
    forall j | 0 <= j < |Trim(p)| ensures Trim(p)[j] != ',' {
      TrimInside(p, j);
    }
  }

  /** A character of the trimmed text is a character of the text. */
  lemma TrimInside(s: string, j: nat)
    requires j < |Trim(s)|
    ensures Trim(s)[j] in s
  {
    var t := TrimStart(s);
    assert Trim(s)[j] == t[j];
    assert t[j] == s[|s| - |t| + j];
  }

  /** `getAllowedSendDomains()` */
  function GetAllowedSendDomains(env: Env): seq<string>
  {
    AllowedSendDomains(Get(env, "ALLOWED_SEND_DOMAINS"))
  }

  /** An unset or empty variable means "self only". */
  lemma AllowedDefaultsToSelf()
    ensures AllowedSendDomains(None) == ["self"]
    ensures AllowedSendDomains(Some("")) == ["self"]
  {
    SelfIsClean();
    DomainsOfJoin(["self"]);
  }

  lemma SelfIsClean()
    ensures CleanDomain("self") && Join(["self"], [',']) == "self"
  {
  }

  predicate CleanDomain(d: string)
  {
    d != [] && !IsSpace(d[0]) && !IsSpace(d[|d| - 1]) && ',' !in d
  }

  /** Writing a list of clean domains separated by commas reads back as that list. */
  lemma AllowedDomainsRoundTrip(ds: seq<string>)
    requires |ds| >= 1
    requires forall k :: 0 <= k < |ds| ==> CleanDomain(ds[k])
    ensures AllowedSendDomains(Some(Join(ds, ","))) == ds
  {
    JoinEnds(ds);
    DomainsOfJoin(ds);
  }

  lemma DomainsOfJoin(ds: seq<string>)
    requires |ds| >= 1
    requires forall k :: 0 <= k < |ds| ==> CleanDomain(ds[k])
    ensures DomainsOf(Join(ds, [','])) == ds
  {
    JoinTrimmed(ds);
    SplitJoin(ds, ',');
    TrimAllClean(ds);
    KeepEverything(ds, NonEmptyText);
  }

  lemma JoinTrimmed(ds: seq<string>)
    requires |ds| >= 1
    requires forall k :: 0 <= k < |ds| ==> CleanDomain(ds[k])
    ensures Trim(Join(ds, [','])) == Join(ds, [','])
  {
    var t := Join(ds, [',']);
    JoinEnds(ds);
    assert t != [];
    assert !IsSpace(t[0]);
    assert !IsSpace(t[|t| - 1]);
    TrimKeepsTrimmed(t);
  }

  lemma TrimAllClean(ds: seq<string>)
    requires forall k :: 0 <= k < |ds| ==> CleanDomain(ds[k])
    ensures TrimAll(ds) == ds
  {
    forall k | 0 <= k < |ds| ensures TrimAll(ds)[k] == ds[k] {
      TrimKeepsTrimmed(ds[k]);
    }
  }

  /** A join of clean domains is non-empty and neither starts nor ends with white space. */
  lemma {:induction false} JoinEnds(ds: seq<string>)
    requires |ds| >= 1
    requires forall k :: 0 <= k < |ds| ==> CleanDomain(ds[k])
    ensures Join(ds, [',']) != [] && !IsSpace(Join(ds, [','])[0])
    ensures !IsSpace(Join(ds, [','])[|Join(ds, [','])| - 1])
    decreases |ds|
  {
    if |ds| > 1 {
      JoinEnds(ds[1..]);
      var tail := Join(ds[1..], [',']);
      var t := Join(ds, [',']);
      assert t == ds[0] + [','] + tail;
      assert t[0] == ds[0][0];
      assert t[|t| - 1] == tail[|tail| - 1];
    }
  }

  // ---------------------------------------------------------------------
  // dry-run resolution
  // ---------------------------------------------------------------------

  datatype DryRunSource = FeatureFlag | Phase3Mode | Default

  datatype DryRunSetting = DryRunSetting(enabled: bool, source: DryRunSource)

  /** `resolveDryRunEnabled`: the feature flag first, then `PHASE3_MODE=dryrun` in any case. */
  function ResolveDryRunEnabled(env: Env): (r: DryRunSetting)
    ensures r.source == FeatureFlag <==> FeatureMailActionsDryrun(env)
    ensures r.source == Phase3Mode <==>
      !FeatureMailActionsDryrun(env) && "PHASE3_MODE" in env && Lower(env["PHASE3_MODE"]) == "dryrun"
    ensures r.enabled <==> r.source != Default
  {
    if FeatureMailActionsDryrun(env) then DryRunSetting(true, FeatureFlag)
    else
      var mode := Lower(if "PHASE3_MODE" in env then env["PHASE3_MODE"] else "");
      if mode == "dryrun" then DryRunSetting(true, Phase3Mode)
      else DryRunSetting(false, Default)
  }

  /** Dry-run is on unless the flag is set to something other than an accepted word. */
  lemma DryRunOnByDefault(env: Env)
    requires "FEATURE_MAIL_ACTIONS_DRYRUN" !in env
    ensures ResolveDryRunEnabled(env) == DryRunSetting(true, FeatureFlag)
  {
  }
}
