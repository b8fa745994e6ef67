/**
 * What the compose/reply detector promises about any configuration and any text: which
 * hits it records, what the scores add up to, that blockers never move a score, that the
 * matching ignores case, and that the address-appending step never changes the text.
 */
module ComposeDetectionProps {
  import opened Wrappers
  import opened Strings
  import opened TextUtils
  import opened ComposeConfig
  import opened ComposeDetection

  /** Every rule of a configuration, in the order the detector visits the lists. */
  function AllRules(cfg: Config): seq<Rule>
  {
    cfg.blockers + cfg.triggers + cfg.replyTriggers
      + cfg.toMarkers + cfg.subjectMarkers + cfg.bodyMarkers + cfg.regexes
  }

  /** Whether a rule is recorded as hit on the text `s`: by its phrases (blockers and both
    * kinds of triggers), its terms (markers) or its pattern (regular expressions). */
  predicate HitOn(cfg: Config, s: string, rx: RegexTest, r: Rule)
  {
    ((r in cfg.blockers || r in cfg.triggers || r in cfg.replyTriggers) && HitBy(s, false)(r))
    || ((r in cfg.toMarkers || r in cfg.subjectMarkers || r in cfg.bodyMarkers) && HitBy(s, true)(r))
    || (r in cfg.regexes && Fires(rx, s)(r))
  }

  predicate NonNegative(rs: seq<Rule>)
  {
    forall k :: 0 <= k < |rs| ==> rs[k].weight >= 0.0
  }

  // ---------------------------------------------------------------------
  // the text that is scored
  // ---------------------------------------------------------------------

  /** The address the detector would append is always already in the text, so the text
    * scored is the text given. */
  lemma ScoredTextIsInput(text: string)
    ensures ScoredText(text) == text
  {
    if ExtractFirstEmail(Some(text)).Some? {
      ExtractIsSubstring(Some(text));
    }
  }

  lemma DetectIsDetectOn(cfg: Config, text: string, rx: RegexTest)
    ensures Detect(cfg, text, rx) == DetectOn(cfg, text, rx)
  {
    ScoredTextIsInput(text);
  }

  // ---------------------------------------------------------------------
  // containsAny
  // ---------------------------------------------------------------------

  /** An empty phrase occurs in every text: a rule listing one always hits. */
  lemma EmptyPhraseAlwaysHits(text: string, arr: seq<string>, i: nat)
    requires i < |arr| && arr[i] == ""
    ensures ContainsAny(text, arr)
  {
    assert Lower(arr[i]) == "";
    ContainsAt(Lower(text), "", 0);
  }

  /** Matching ignores the case of the text. */
  lemma ContainsAnyIgnoresCase(text: string, arr: seq<string>)
    ensures ContainsAny(Lower(text), arr) == ContainsAny(text, arr)
  {
    LowerIdempotent(text);
  }

  /** Matching ignores the case of the phrases. */
  lemma ContainsAnyIgnoresPhraseCase(text: string, arr: seq<string>)
    ensures ContainsAny(text, seq(|arr|, i requires 0 <= i < |arr| => Lower(arr[i]))) == ContainsAny(text, arr)
  {
    var low := seq(|arr|, i requires 0 <= i < |arr| => Lower(arr[i]));
    forall i | 0 <= i < |arr|
      ensures Lower(low[i]) == Lower(arr[i])
    {
      LowerIdempotent(arr[i]);
    }
  }

  // ---------------------------------------------------------------------
  // which rules hit
  // ---------------------------------------------------------------------

  /** The rules kept are exactly those of the list that satisfy the test. */
  lemma {:induction false} MatchingMembers(rs: seq<Rule>, f: Rule -> bool, r: Rule)
    ensures r in Matching(rs, f) <==> r in rs && f(r)
    decreases |rs|
  {
    if rs != [] {
      var init := rs[..|rs| - 1];
      MatchingMembers(init, f, r);
      assert rs == init + [rs[|rs| - 1]];
    }
  }

  lemma {:induction false} MarkerHitsMembers(groups: seq<seq<Rule>>, hit: Rule -> bool, r: Rule)
    ensures r in MarkerHits(groups, hit) <==> hit(r) && exists g :: 0 <= g < |groups| && r in groups[g]
    decreases |groups|
  {
    if groups != [] {
      var init := groups[..|groups| - 1];
      MarkerHitsMembers(init, hit, r);
      MatchingMembers(groups[|groups| - 1], hit, r);
      if r in groups[|groups| - 1] && hit(r) {
        assert r in MarkerHits(groups, hit);
      }
      if exists g :: 0 <= g < |groups| && r in groups[g] {
        var g :| 0 <= g < |groups| && r in groups[g];
        if g < |groups| - 1 {
          assert r in init[g];
        }
      }
      if exists g :: 0 <= g < |init| && r in init[g] {
        var g :| 0 <= g < |init| && r in init[g];
        assert r in groups[g];
      }
    }
  }

  /** The hits are those of the rules, one per rule. */
  lemma {:induction false} HitsOfMembers(rs: seq<Rule>, h: RuleHit)
    ensures h in HitsOf(rs) <==> exists r :: r in rs && h == RuleHit(r.id, r.weight)
    decreases |rs|
  {
    if rs != [] {
      var init := rs[..|rs| - 1];
      var last := rs[|rs| - 1];
      HitsOfMembers(init, h);
      assert rs == init + [last];
      assert HitsOf(rs) == HitsOf(init) + [RuleHit(last.id, last.weight)];
      if exists r :: r in rs && h == RuleHit(r.id, r.weight) {
        var r :| r in rs && h == RuleHit(r.id, r.weight);
        if r != last {
          assert r in init;
        }
      }
    }
  }

  /** A marker is matched when it is in one of the three groups and its terms occur. */
  lemma MarkerMembers(cfg: Config, hit: Rule -> bool, r: Rule)
    ensures r in MarkerHits(MarkerGroups(cfg), hit)
        <==> hit(r) && (r in cfg.toMarkers || r in cfg.subjectMarkers || r in cfg.bodyMarkers)
  {
    var groups := MarkerGroups(cfg);
    MarkerHitsMembers(groups, hit, r);
    if r in cfg.toMarkers || r in cfg.subjectMarkers || r in cfg.bodyMarkers {
      assert r in groups[0] || r in groups[1] || r in groups[2];
    }
  }

  /** A rule is matched on the text exactly when it is one of the configuration's rules
    * and hits. */
  lemma MatchedRules(cfg: Config, s: string, rx: RegexTest, r: Rule)
    ensures r in MatchesOf(cfg, s, rx).All() <==> HitOn(cfg, s, rx, r)
  {
    MatchingMembers(cfg.blockers, HitBy(s, false), r);
    MatchingMembers(cfg.triggers, HitBy(s, false), r);
    MatchingMembers(cfg.replyTriggers, HitBy(s, false), r);
    MatchingMembers(cfg.regexes, Fires(rx, s), r);
    MarkerMembers(cfg, HitBy(s, true), r);
  }

  /** Every recorded hit names a rule of the configuration that hit, with its weight; and
    * every rule that hits is recorded. */
  lemma HitsAreTheRulesThatHit(cfg: Config, s: string, rx: RegexTest, h: RuleHit)
    ensures h in DetectOn(cfg, s, rx).ruleHits
        <==> exists r :: r in AllRules(cfg) && HitOn(cfg, s, rx, r) && h == RuleHit(r.id, r.weight)
  {
    var m := MatchesOf(cfg, s, rx);
    HitsOfMembers(m.All(), h);
    if h in DetectOn(cfg, s, rx).ruleHits {
      var r :| r in m.All() && h == RuleHit(r.id, r.weight);
      MatchedRules(cfg, s, rx, r);
      assert r in AllRules(cfg);
    }
    if exists r :: r in AllRules(cfg) && HitOn(cfg, s, rx, r) && h == RuleHit(r.id, r.weight) {
      var r :| r in AllRules(cfg) && HitOn(cfg, s, rx, r) && h == RuleHit(r.id, r.weight);
      MatchedRules(cfg, s, rx, r);
    }
  }

  // ---------------------------------------------------------------------
  // scores
  // ---------------------------------------------------------------------

  /** The regular-expression rules that fired split between the two sides. */
  lemma {:induction false} TotalSplit(rs: seq<Rule>)
    ensures Total(rs) == Total(Matching(rs, NotReply)) + Total(Matching(rs, IsReply))
    decreases |rs|
  {
    if rs != [] {
      var init := rs[..|rs| - 1];
      var last := rs[|rs| - 1];
      TotalSplit(init);
      SideStep(rs, NotReply);
      SideStep(rs, IsReply);
      if last.target == ReplyTarget {
        assert IsReply(last) && !NotReply(last);
      } else {
        assert NotReply(last) && !IsReply(last);
      }
    }
  }

  /** The last rule weighs on a side exactly when it belongs to it. */
  lemma SideStep(rs: seq<Rule>, side: Rule -> bool)
    requires rs != []
    ensures var last := rs[|rs| - 1];
      Total(Matching(rs, side)) == Total(Matching(rs[..|rs| - 1], side)) + (if side(last) then last.weight else 0.0)
  {
    var init, last := rs[..|rs| - 1], rs[|rs| - 1];
    if side(last) {
      TotalSnoc(Matching(init, side), last);
    } else {
      assert Matching(rs, side) == Matching(init, side) + [];
      assert Matching(init, side) + [] == Matching(init, side);
    }
  }

  /** The recorded hits weigh as much as the two scores and the blockers that hit together:
    * every weight added to a score is recorded once, and blockers are recorded only. */
  lemma HitsAccountForScores(cfg: Config, s: string, rx: RegexTest)
    ensures var r := DetectOn(cfg, s, rx);
            HitWeight(r.ruleHits)
              == r.composeScore + r.replyScore + Total(Matching(cfg.blockers, HitBy(s, false)))
  {
    var m := MatchesOf(cfg, s, rx);
    HitWeightOfHits(m.All());
    TotalAppend(m.blocked, m.composeTriggers);
    TotalAppend(m.blocked + m.composeTriggers, m.replyTriggers);
    TotalAppend(m.blocked + m.composeTriggers + m.replyTriggers, m.markers);
    TotalAppend(m.blocked + m.composeTriggers + m.replyTriggers + m.markers, m.fired);
    TotalSplit(m.fired);
  }

  /** Blockers are recorded but never weigh in: whatever the blockers, the scores and the
    * label are the same. */
  lemma BlockersNeverScore(cfg: Config, bs: seq<Rule>, s: string, rx: RegexTest)
    ensures var r := DetectOn(cfg, s, rx);
            var r' := DetectOn(cfg.(blockers := bs), s, rx);
            r'.composeScore == r.composeScore && r'.replyScore == r.replyScore && r'.kind == r.kind
  {
  }

  /** The blockers' hits come first, before any that weighs in. */
  lemma BlockerHitsFirst(cfg: Config, s: string, rx: RegexTest)
    ensures var m := MatchesOf(cfg, s, rx);
            var hs := DetectOn(cfg, s, rx).ruleHits;
            |m.blocked| <= |hs| && hs[..|m.blocked|] == HitsOf(m.blocked)
  {
    var m := MatchesOf(cfg, s, rx);
    HitsOfAll(m);
    var rest := HitsOf(m.composeTriggers) + HitsOf(m.replyTriggers) + HitsOf(m.markers) + HitsOf(m.fired);
    Regroup(HitsOf(m.blocked), HitsOf(m.composeTriggers), HitsOf(m.replyTriggers), HitsOf(m.markers), HitsOf(m.fired));
    PrefixOfAppend(HitsOf(m.blocked), rest);
  }

  lemma Regroup(a: seq<RuleHit>, b: seq<RuleHit>, c: seq<RuleHit>, d: seq<RuleHit>, e: seq<RuleHit>)
    ensures a + b + c + d + e == a + (b + c + d + e)
  {
  }

  lemma PrefixOfAppend(a: seq<RuleHit>, b: seq<RuleHit>)
    ensures (a + b)[..|a|] == a
  {
  }

  lemma {:induction false} MatchingNonNegative(rs: seq<Rule>, f: Rule -> bool)
    requires NonNegative(rs)
    ensures Total(Matching(rs, f)) >= 0.0
    decreases |rs|
  {
    if rs != [] {
      var init := rs[..|rs| - 1];
      assert NonNegative(init);
      MatchingNonNegative(init, f);
      if f(rs[|rs| - 1]) {
        TotalSnoc(Matching(init, f), rs[|rs| - 1]);
      } else {
        assert Matching(rs, f) == Matching(init, f);
      }
    }
  }

  lemma {:induction false} MarkerHitsNonNegative(groups: seq<seq<Rule>>, hit: Rule -> bool)
    requires forall g :: 0 <= g < |groups| ==> NonNegative(groups[g])
    ensures Total(MarkerHits(groups, hit)) >= 0.0
    decreases |groups|
  {
    if groups != [] {
      var init := groups[..|groups| - 1];
      MarkerHitsNonNegative(init, hit);
      MatchingNonNegative(groups[|groups| - 1], hit);
      TotalAppend(MarkerHits(init, hit), Matching(groups[|groups| - 1], hit));
    }
  }

  /** With no negative weight among the scoring rules, neither score is negative. Blockers
    * may weigh anything. */
  lemma NonNegativeScores(cfg: Config, s: string, rx: RegexTest)
    requires NonNegative(cfg.triggers) && NonNegative(cfg.replyTriggers) && NonNegative(cfg.regexes)
    requires NonNegative(cfg.toMarkers) && NonNegative(cfg.subjectMarkers) && NonNegative(cfg.bodyMarkers)
    ensures DetectOn(cfg, s, rx).composeScore >= 0.0 && DetectOn(cfg, s, rx).replyScore >= 0.0
  {
    var m := MatchesOf(cfg, s, rx);
    MatchingNonNegative(cfg.triggers, HitBy(s, false));
    MatchingNonNegative(cfg.replyTriggers, HitBy(s, false));
    MarkerHitsNonNegative(MarkerGroups(cfg), HitBy(s, true));
    MatchingNonNegative(cfg.regexes, Fires(rx, s));
    forall k | 0 <= k < |m.fired| ensures m.fired[k].weight >= 0.0 {
      MatchingMembers(cfg.regexes, Fires(rx, s), m.fired[k]);
    }
    MatchingNonNegative(m.fired, NotReply);
    MatchingNonNegative(m.fired, IsReply);
  }

  /** Marker groups all target compose, so a text that only markers match has no reply
    * score. */
  lemma MarkersOnlyCompose(cfg: Config, s: string, rx: RegexTest)
    requires cfg.triggers == [] && cfg.replyTriggers == [] && cfg.regexes == []
    ensures DetectOn(cfg, s, rx).replyScore == 0.0
    ensures DetectOn(cfg, s, rx).composeScore == Total(MarkerHits(MarkerGroups(cfg), HitBy(s, true)))
  {
  }
}
