/**
 * `detectComposeOrReply`: the rules of the parsed compose-detection configuration are
 * matched against a message. Blocker hits are only recorded; trigger and marker weights
 * add to a compose score, reply-trigger weights to a reply score, and regular-expression
 * rules to one or the other by their target. The scores, compared with the thresholds,
 * pick the label. The configuration is parsed once and kept.
 */
module ComposeDetection {
  import opened Wrappers
  import opened Strings
  import opened TextUtils
  import opened ComposeConfig

  datatype RuleHit = RuleHit(ruleId: string, weight: real)

  datatype Label = ComposeLabel | ReplyLabel | OtherLabel

  /** `kind` is the result's `label`. */
  datatype DetectResult = DetectResult(kind: Label, composeScore: real, replyScore: real, ruleHits: seq<RuleHit>)

  /** `new RegExp(pattern, flags).test(text)`, or None when the constructor throws. An empty
    * flags text stands for no flags. */
  type RegexTest = (string, string, string) -> Option<bool>

  /** `containsAny(text, arr)`: some entry, lower-cased, occurs in the lower-cased text. */
  predicate ContainsAny(text: string, arr: seq<string>)
  {
    exists i :: 0 <= i < |arr| && Contains(Lower(text), Lower(arr[i]))
  }

  /** The words a rule is matched by: a marker's terms, any other rule's phrases. */
  function WordsOf(r: Rule, byTerms: bool): seq<string>
  {
    if byTerms then r.terms else r.phrases
  }

  /** Whether a rule's words occur in `s`. */
  function HitBy(s: string, byTerms: bool): Rule -> bool
  {
    (r: Rule) => ContainsAny(s, WordsOf(r, byTerms))
  }

  /** Whether a regular-expression rule fires on `s`: an empty pattern is passed over, and a
    * pattern the engine refuses counts as no match. */
  function Fires(rx: RegexTest, s: string): Rule -> bool
  {
    (r: Rule) => r.pattern != "" && rx(r.pattern, r.flags, s) == Some(true)
  }

  function IsReply(r: Rule): bool
  {
    r.target == ReplyTarget
  }

  function NotReply(r: Rule): bool
  {
    r.target != ReplyTarget
  }

  /** The rules that satisfy `f`, in list order (`for ... if (...)`). */
  function Matching(rules: seq<Rule>, f: Rule -> bool): seq<Rule>
  {
    if rules == [] then []
    else Matching(rules[..|rules| - 1], f) + (if f(rules[|rules| - 1]) then [rules[|rules| - 1]] else [])
  }

  /** The sum of the rules' weights. */
  function Total(rs: seq<Rule>): real
  {
    if rs == [] then 0.0 else Total(rs[..|rs| - 1]) + rs[|rs| - 1].weight
  }

  /** The hit each rule records, in order. */
  function HitsOf(rs: seq<Rule>): (hs: seq<RuleHit>)
    ensures |hs| == |rs|
  {
    if rs == [] then [] else HitsOf(rs[..|rs| - 1]) + [RuleHit(rs[|rs| - 1].id, rs[|rs| - 1].weight)]
  }

  /** The sum of the hits' weights. */
  function HitWeight(hs: seq<RuleHit>): real
  {
    if hs == [] then 0.0 else HitWeight(hs[..|hs| - 1]) + hs[|hs| - 1].weight
  }

  /** The three marker groups, `to`, `subject` and `body`, all of them targeting compose. */
  function MarkerGroups(cfg: Config): seq<seq<Rule>>
  {
    [cfg.toMarkers, cfg.subjectMarkers, cfg.bodyMarkers]
  }

  /** The marker rules that hit, group after group. */
  function MarkerHits(groups: seq<seq<Rule>>, hit: Rule -> bool): seq<Rule>
  {
    if groups == [] then []
    else MarkerHits(groups[..|groups| - 1], hit) + Matching(groups[|groups| - 1], hit)
  }

  /** The text the rules are matched against. An address found in the text is appended
    * when the text does not already hold it. */
  function ScoredText(text: string): string
  {
    var email := ExtractFirstEmail(Some(text));
    if email.Some? && !Contains(text, email.value) then text + " " + email.value else text
  }

  /** The label for two scores: compose when the compose score reaches its threshold and is
    * not below the reply score, else reply when the reply score reaches its threshold. */
  function LabelOf(compose: real, reply: real, cfg: Config): (l: Label)
    ensures l == ComposeLabel ==> compose >= cfg.composeMin && compose >= reply
    ensures l == ReplyLabel ==> reply >= cfg.replyMin && (compose < cfg.composeMin || compose < reply)
    ensures l == OtherLabel ==> reply < cfg.replyMin && (compose < cfg.composeMin || compose < reply)
  {
    if compose >= cfg.composeMin && compose >= reply then ComposeLabel
    else if reply >= cfg.replyMin then ReplyLabel
    else OtherLabel
  }

  /** The rules that hit, by kind, in the order the detector tries them. */
  datatype Matches = Matches(
    blocked: seq<Rule>, composeTriggers: seq<Rule>, replyTriggers: seq<Rule>,
    markers: seq<Rule>, fired: seq<Rule>)
  {
    function All(): seq<Rule>
    {
      blocked + composeTriggers + replyTriggers + markers + fired
    }

    function ComposeScore(): real
    {
      Total(composeTriggers) + Total(markers) + Total(Matching(fired, NotReply))
    }

    function ReplyScore(): real
    {
      Total(replyTriggers) + Total(Matching(fired, IsReply))
    }
  }

  function MatchesOf(cfg: Config, s: string, rx: RegexTest): Matches
  {
    Matches(
      Matching(cfg.blockers, HitBy(s, false)),
      Matching(cfg.triggers, HitBy(s, false)),
      Matching(cfg.replyTriggers, HitBy(s, false)),
      MarkerHits(MarkerGroups(cfg), HitBy(s, true)),
      Matching(cfg.regexes, Fires(rx, s)))
  }

  /** The result of matching the rules against the text `s`. */
  function DetectOn(cfg: Config, s: string, rx: RegexTest): DetectResult
  {
    var m := MatchesOf(cfg, s, rx);
    DetectResult(LabelOf(m.ComposeScore(), m.ReplyScore(), cfg), m.ComposeScore(), m.ReplyScore(), HitsOf(m.All()))
  }

  /** What `detectComposeOrReply(text)` returns for a configuration. */
  function Detect(cfg: Config, text: string, rx: RegexTest): DetectResult
  {
    DetectOn(cfg, ScoredText(text), rx)
  }

  // ---------------------------------------------------------------------
  // the detector
  // ---------------------------------------------------------------------

  /** `safeRead`: the file's text, or the empty text when it cannot be read. */
  function SafeRead(file: Option<string>): string
  {
    file.UnwrapOr("")
  }

  /** The detector and the configuration it keeps once parsed. */
  class Detector {
    var cachedCfg: Option<Config>

    constructor()
      ensures cachedCfg == None
    {
      cachedCfg := None;
    }

    /** `getConfig()`: the kept configuration, or the file's, parsed and kept. `file` is what
      * reading the configuration file gives, None when the read fails. */
    method GetConfig(file: Option<string>) returns (cfg: Config)
      modifies this
      ensures old(cachedCfg).Some? ==> cfg == old(cachedCfg).value && cachedCfg == old(cachedCfg)
      ensures old(cachedCfg).None? ==> cfg == ParsedConfig(SafeRead(file)) && cachedCfg == Some(cfg)
    {
      if cachedCfg.Some? {
        return cachedCfg.value;
      }
      var txt := SafeRead(file);
      cfg := ParseComposeYaml(txt);
      cachedCfg := Some(cfg);
    }

    /** `detectComposeOrReply(text, context)`. */
    method DetectComposeOrReply(text: string, inThread: bool, file: Option<string>, rx: RegexTest)
      returns (res: DetectResult)
      modifies this
      ensures old(cachedCfg).Some? ==> cachedCfg == old(cachedCfg)
      ensures cachedCfg.Some? && res == Detect(cachedCfg.value, text, rx)
    {
      var cfg := GetConfig(file);
      var s := text;
      var email := ExtractFirstEmail(Some(s));
      if email.Some? && !Contains(s, email.value) {
        s := s + " " + email.value;
      }
      res := Score(cfg, s, inThread, rx);
    }
  }

  /** The scoring part of `detectComposeOrReply`, on the text the rules are matched against.
    * The hits each loop pushes onto the shared list are gathered loop by loop. */
  method Score(cfg: Config, s: string, inThread: bool, rx: RegexTest) returns (res: DetectResult)
    ensures res == DetectOn(cfg, s, rx)
  {
    ghost var m := MatchesOf(cfg, s, rx);
    var hits := ScanBlockers(cfg.blockers, HitBy(s, false));
    var compose := 0.0;
    var reply := 0.0;
    var more: seq<RuleHit>;
    compose, more := ScanPhrases(cfg.triggers, HitBy(s, false), compose);
    hits := hits + more;
    reply, more := ScanPhrases(cfg.replyTriggers, HitBy(s, false), reply);
    hits := hits + more;
    compose, more := ScanMarkers(MarkerGroups(cfg), HitBy(s, true), compose);
    hits := hits + more;
    compose, reply, more := ScanRegexes(cfg.regexes, s, rx, compose, reply);
    hits := hits + more;
    // the in-thread nudge is reserved and adds nothing
    if inThread {
      reply := reply + 0.0;
    }
    HitsOfAll(m);
    var kind := OtherLabel;
    if compose >= cfg.composeMin && compose >= reply {
      kind := ComposeLabel;
    } else if reply >= cfg.replyMin {
      kind := ReplyLabel;
    }
    assert compose == m.ComposeScore() && reply == m.ReplyScore();
    res := DetectResult(kind, compose, reply, hits);
  }

  /** The blockers loop: a blocker whose phrases occur records a hit and nothing else. */
  method ScanBlockers(rules: seq<Rule>, hit: Rule -> bool) returns (hits: seq<RuleHit>)
    ensures hits == HitsOf(Matching(rules, hit))
  {
    hits := [];
    for i := 0 to |rules|
      invariant hits == HitsOf(Matching(rules[..i], hit))
    {
      var r := rules[i];
      ghost var before := Matching(rules[..i], hit);
      MatchingSnoc(rules, i, hit);
      if hit(r) {
        HitsOfSnoc(before, r);
        hits := hits + [RuleHit(r.id, r.weight)];
      } else {
        assert Matching(rules[..i + 1], hit) == before;
      }
    }
    assert rules[..|rules|] == rules;
  }

  /** A trigger loop: each rule whose phrases occur adds its weight to the score and records a hit. */
  method ScanPhrases(rules: seq<Rule>, hit: Rule -> bool, score0: real) returns (score: real, hits: seq<RuleHit>)
    ensures score == score0 + Total(Matching(rules, hit))
    ensures hits == HitsOf(Matching(rules, hit))
  {
    score, hits := score0, [];
    for i := 0 to |rules|
      invariant score == score0 + Total(Matching(rules[..i], hit))
      invariant hits == HitsOf(Matching(rules[..i], hit))
    {
      var r := rules[i];
      ghost var before := Matching(rules[..i], hit);
      MatchingSnoc(rules, i, hit);
      if hit(r) {
        TotalSnoc(before, r);
        HitsOfSnoc(before, r);
        score := score + r.weight;
        hits := hits + [RuleHit(r.id, r.weight)];
      } else {
        assert Matching(rules[..i + 1], hit) == before;
      }
    }
    assert rules[..|rules|] == rules;
  }

  /** The marker loops: for each group, each rule whose terms occur adds its weight to the
    * compose score and records a hit. */
  method ScanMarkers(groups: seq<seq<Rule>>, hit: Rule -> bool, compose0: real) returns (compose: real, hits: seq<RuleHit>)
    ensures compose == compose0 + Total(MarkerHits(groups, hit))
    ensures hits == HitsOf(MarkerHits(groups, hit))
  {
    compose, hits := compose0, [];
    for g := 0 to |groups|
      invariant compose == compose0 + Total(MarkerHits(groups[..g], hit))
      invariant hits == HitsOf(MarkerHits(groups[..g], hit))
    {
      var rules := groups[g];
      ghost var done := MarkerHits(groups[..g], hit);
      ghost var compose1 := compose;
      var groupHits := [];
      for i := 0 to |rules|
        invariant compose == compose1 + Total(Matching(rules[..i], hit))
        invariant groupHits == HitsOf(Matching(rules[..i], hit))
      {
        var r := rules[i];
        ghost var before := Matching(rules[..i], hit);
        MatchingSnoc(rules, i, hit);
        if hit(r) {
          TotalSnoc(before, r);
          HitsOfSnoc(before, r);
          compose := compose + r.weight;
          groupHits := groupHits + [RuleHit(r.id, r.weight)];
        } else {
          assert Matching(rules[..i + 1], hit) == before;
        }
      }
      assert rules[..|rules|] == rules;
      hits := hits + groupHits;
      MarkerHitsSnoc(groups, g, hit);
      TotalAppend(done, Matching(rules, hit));
      HitsOfAppend(done, Matching(rules, hit));
    }
    assert groups[..|groups|] == groups;
  }

  /** The regular-expression loop: a rule that fires adds its weight to the reply score when
    * it targets reply, to the compose score otherwise, and records a hit. */
  method ScanRegexes(rules: seq<Rule>, s: string, rx: RegexTest, compose0: real, reply0: real)
    returns (compose: real, reply: real, hits: seq<RuleHit>)
    ensures compose == compose0 + Total(Matching(Matching(rules, Fires(rx, s)), NotReply))
    ensures reply == reply0 + Total(Matching(Matching(rules, Fires(rx, s)), IsReply))
    ensures hits == HitsOf(Matching(rules, Fires(rx, s)))
  {
    compose, reply, hits := compose0, reply0, [];
    for i := 0 to |rules|
      invariant compose == compose0 + Total(Matching(Matching(rules[..i], Fires(rx, s)), NotReply))
      invariant reply == reply0 + Total(Matching(Matching(rules[..i], Fires(rx, s)), IsReply))
      invariant hits == HitsOf(Matching(rules[..i], Fires(rx, s)))
    {
      var r := rules[i];
      ghost var fired := Matching(rules[..i], Fires(rx, s));
      MatchingSnoc(rules, i, Fires(rx, s));
      assert Fires(rx, s)(r) == (r.pattern != "" && rx(r.pattern, r.flags, s) == Some(true));
      if r.pattern == "" {
        assert Matching(rules[..i + 1], Fires(rx, s)) == fired;
        continue;
      }
      var test := rx(r.pattern, r.flags, s);
      if test != Some(true) {
        assert Matching(rules[..i + 1], Fires(rx, s)) == fired;
      } else {
        FiredSide(fired, r, IsReply);
        FiredSide(fired, r, NotReply);
        HitsOfSnoc(fired, r);
        assert IsReply(r) == (r.target == ReplyTarget) && NotReply(r) == (r.target != ReplyTarget);
        if r.target == ReplyTarget {
          reply := reply + r.weight;
        } else {
          compose := compose + r.weight;
        }
        hits := hits + [RuleHit(r.id, r.weight)];
      }
    }
    assert rules[..|rules|] == rules;
  }

  // ---------------------------------------------------------------------
  // one more rule
  // ---------------------------------------------------------------------

  lemma MatchingSnoc(s: seq<Rule>, i: nat, f: Rule -> bool)
    requires i < |s|
    ensures Matching(s[..i + 1], f) == Matching(s[..i], f) + (if f(s[i]) then [s[i]] else [])
  {
    assert s[..i + 1][..i] == s[..i];
  }

  lemma TotalSnoc(a: seq<Rule>, r: Rule)
    ensures Total(a + [r]) == Total(a) + r.weight
  {
    assert (a + [r])[..|a|] == a;
  }

  lemma HitsOfSnoc(a: seq<Rule>, r: Rule)
    ensures HitsOf(a + [r]) == HitsOf(a) + [RuleHit(r.id, r.weight)]
  {
    assert (a + [r])[..|a|] == a;
  }

  lemma MarkerHitsSnoc(groups: seq<seq<Rule>>, g: nat, hit: Rule -> bool)
    requires g < |groups|
    ensures MarkerHits(groups[..g + 1], hit) == MarkerHits(groups[..g], hit) + Matching(groups[g], hit)
  {
    assert groups[..g + 1][..g] == groups[..g];
  }

  lemma MatchingLast(a: seq<Rule>, x: Rule, f: Rule -> bool)
    ensures Matching(a + [x], f) == Matching(a, f) + (if f(x) then [x] else [])
  {
    assert (a + [x])[..|a|] == a;
  }

  /** A fired rule adds its weight to the side it targets. */
  lemma FiredSide(fired: seq<Rule>, r: Rule, side: Rule -> bool)
    ensures Total(Matching(fired + [r], side)) == Total(Matching(fired, side)) + (if side(r) then r.weight else 0.0)
  {
    MatchingLast(fired, r, side);
    if side(r) {
      TotalSnoc(Matching(fired, side), r);
    } else {
      assert Matching(fired, side) + [] == Matching(fired, side);
    }
  }

  // ---------------------------------------------------------------------
  // sums and hits
  // ---------------------------------------------------------------------

  lemma {:induction false} TotalAppend(a: seq<Rule>, b: seq<Rule>)
    ensures Total(a + b) == Total(a) + Total(b)
    decreases |b|
  {
    if b == [] {
      assert a + b == a;
    } else {
      var b' := b[..|b| - 1];
      assert (a + b)[..|a + b| - 1] == a + b';
      TotalAppend(a, b');
    }
  }

  lemma {:induction false} HitsOfAppend(a: seq<Rule>, b: seq<Rule>)
    ensures HitsOf(a + b) == HitsOf(a) + HitsOf(b)
    decreases |b|
  {
    if b == [] {
      assert a + b == a;
    } else {
      var b' := b[..|b| - 1];
      assert (a + b)[..|a + b| - 1] == a + b';
      HitsOfAppend(a, b');
    }
  }

  /** The hits of all matches are the hits of each kind, in order. */
  lemma HitsOfAll(m: Matches)
    ensures HitsOf(m.All())
      == HitsOf(m.blocked) + HitsOf(m.composeTriggers) + HitsOf(m.replyTriggers) + HitsOf(m.markers) + HitsOf(m.fired)
  {
    HitsOfAppend(m.blocked, m.composeTriggers);
    HitsOfAppend(m.blocked + m.composeTriggers, m.replyTriggers);
    HitsOfAppend(m.blocked + m.composeTriggers + m.replyTriggers, m.markers);
    HitsOfAppend(m.blocked + m.composeTriggers + m.replyTriggers + m.markers, m.fired);
  }

  /** The hits carry the rules' weights. */
  lemma {:induction false} HitWeightOfHits(rs: seq<Rule>)
    ensures HitWeight(HitsOf(rs)) == Total(rs)
    decreases |rs|
  {
    if rs != [] {
      var hs := HitsOf(rs);
      assert hs[..|hs| - 1] == HitsOf(rs[..|rs| - 1]);
      HitWeightOfHits(rs[..|rs| - 1]);
    }
  }

  /** Kept rules of non-negative weight sum to a non-negative total. */
  lemma {:induction false} TotalNonNegative(rs: seq<Rule>)
    requires forall k :: 0 <= k < |rs| ==> rs[k].weight >= 0.0
    ensures Total(rs) >= 0.0
    decreases |rs|
  {
    if rs != [] {
      var init := rs[..|rs| - 1];
      assert forall k :: 0 <= k < |init| ==> init[k] == rs[k];
      TotalNonNegative(init);
    }
  }
}
