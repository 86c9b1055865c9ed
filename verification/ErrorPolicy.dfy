/**
 The error-policy compiler of `src/config.rs`: validation of adaptation rules, merging of a policy
 profile with a pool's overrides, and compilation to a classifier.
 */
module ErrorPolicy {
  import opened Outcomes
  import opened Strings
  import opened FirstOccurrences
  import opened ErrorClassifier

  datatype ActionConfig = ActionConfig(
    kind: Option<FailureKind>, primaryScope: Option<FailureScope>,
    retryable: Option<bool>, cooldownSeconds: Option<nat>)
  datatype MatcherConfig = MatcherConfig(codes: seq<string>, limitTypes: seq<string>, statuses: seq<string>)
  datatype RuleConfig = RuleConfig(id: string, enabled: bool, matcher: MatcherConfig, action: ActionConfig)
  datatype RulesConfig = RulesConfig(
    relayProfile: Option<RelayProfile>, balanceScope: Option<BalanceScope>,
    keepCodes: Option<seq<string>>, switchCodes: Option<seq<string>>, expireCodes: Option<seq<string>>,
    keepStatuses: Option<seq<string>>, switchStatuses: Option<seq<string>>, expireStatuses: Option<seq<string>>,
    rules: seq<RuleConfig>)

  const NO_RULES := RulesConfig(None, None, None, None, None, None, None, None, [])

  datatype ConfigError =
    | EmptyRuleId | EmptyMatcher | InvalidStatus | KindWithoutScope | ScopeWithoutKind | UnsupportedScope
    | UnsupportedPair | OverriddenCooldown | ZeroCooldown | UnsupportedBalanceScope | DuplicateRuleId
    | EmptyResourceId | UnknownProfile

  // --- Validation of one rule -------------------------------------------------------------------

  /** The nine pairs an action may set. */
  predicate Supported(kind: FailureKind, scope: FailureScope) {
    || (scope.CredentialScope?
        && (kind.AuthInvalid? || kind.RateLimited? || kind.QuotaExhausted? || kind.KeySwitchCooldown?))
    || (scope.ChannelScope? && (kind.RelayBalanceUnavailable? || kind.ProviderUnavailable?))
    || (scope.RequestOnly? && (kind.ClientError? || kind.Unknown?))
    || (scope.ModelGroup? && kind.ClientError?)
  }

  function ValidateCombination(kind: Option<FailureKind>, scope: Option<FailureScope>): Result<(), ConfigError> {
    if kind.Some? && scope.None? then Err(KindWithoutScope)
    else if kind.None? && scope.Some? then Err(ScopeWithoutKind)
    else if scope.None? then Ok(())
    else if scope.value.AccountScope? || scope.value.Deployment? || scope.value.ProviderAdapter?
            || scope.value.ClientTokenScope? then
      Err(UnsupportedScope)
    else if Supported(kind.value, scope.value) then Ok(()) else Err(UnsupportedPair)
  }

  predicate HasOverrides(action: ActionConfig) {
    action.retryable == Some(true) || action.cooldownSeconds.Some?
  }

  /** `into_action`. */
  function IntoAction(action: ActionConfig): Result<Action, ConfigError> {
    var checked := ValidateCombination(action.kind, action.primaryScope);
    if checked.Err? then Err(checked.error)
    else if action.kind == Some(KeySwitchCooldown) && action.primaryScope == Some(CredentialScope)
            && HasOverrides(action) then
      Err(OverriddenCooldown)
    else if action.cooldownSeconds == Some(0) then Err(ZeroCooldown)
    else Ok(Action(action.kind, action.primaryScope, action.retryable,
                   if action.cooldownSeconds.Some? then Some(FromSecs(action.cooldownSeconds.value)) else None))
  }

  /** `validate_key_switch_cooldown_action_override`: a rule that can see the code must not override the cooldown. */
  function ValidateOverride(matcher: Matcher, action: ActionConfig): Result<(), ConfigError> {
    var kind := OrElse(action.kind, KeySwitchCooldown);
    var scope := OrElse(action.primaryScope, CredentialScope);
    if matcher.codes != [] && "key_switch_cooldown" !in matcher.codes then Ok(())
    else if !(kind.KeySwitchCooldown? && scope.CredentialScope?) then Ok(())
    else if HasOverrides(action) then Err(OverriddenCooldown) else Ok(())
  }

  /** `into_rule`. */
  function IntoRule(rule: RuleConfig): Result<Rule, ConfigError> {
    var id, action, statuses := Trim(rule.id), IntoAction(rule.action), ParseAll(rule.matcher.statuses);
    if id == "" then Err(EmptyRuleId)
    else if action.Err? then Err(action.error)
    else if statuses.None? then Err(InvalidStatus)
    else
      var matcher := Matcher(rule.matcher.codes, rule.matcher.limitTypes, statuses.value);
      if matcher.IsEmpty() then Err(EmptyMatcher)
      else if ValidateOverride(matcher, rule.action).Err? then Err(OverriddenCooldown)
      else Ok(Rule(id, rule.enabled, matcher, action.value))
  }

  function IntoRules(rules: seq<RuleConfig>): Result<seq<Rule>, ConfigError> {
    if rules == [] then Ok([])
    else
      var first := IntoRule(rules[0]);
      if first.Err? then Err(first.error)
      else
        var rest := IntoRules(rules[1..]);
        if rest.Err? then rest else Ok([first.value] + rest.value)
  }

  function ValidateBalanceScope(scope: BalanceScope): Result<BalanceScope, ConfigError> {
    if scope.OnCredential? || scope.OnChannel? then Ok(scope) else Err(UnsupportedBalanceScope)
  }

  /** `into_classifier_with_context`. */
  function IntoClassifier(config: RulesConfig): Result<Classifier, ConfigError> {
    var scope, rules := ValidateBalanceScope(OrElse(config.balanceScope, OnCredential)), IntoRules(config.rules);
    if scope.Err? then Err(scope.error)
    else if rules.Err? then Err(rules.error)
    else
      var built := Build(Spec(OrElse(config.relayProfile, OfficialOpenAi), scope.value,
                              config.keepCodes, config.switchCodes, config.expireCodes,
                              config.keepStatuses, config.switchStatuses, config.expireStatuses, rules.value));
      if built.Some? then Ok(built.value) else Err(InvalidStatus)
  }

  // --- What validation guarantees about every later classification ------------------------------

  /** What an accepted rule can do. */
  ghost predicate RuleAccepted(rule: Rule) {
    && Trim(rule.id) == rule.id != ""
    && !rule.matcher.IsEmpty()
    && (rule.action.kind.Some? <==> rule.action.primaryScope.Some?)
    && (rule.action.kind.Some? ==> Supported(rule.action.kind.value, rule.action.primaryScope.value))
    && (&& (rule.matcher.codes == [] || "key_switch_cooldown" in rule.matcher.codes)
        && (rule.action.kind.None? || rule.action.kind.value.KeySwitchCooldown?)
        ==> rule.action.retryable != Some(true) && rule.action.cooldown.None?)
    && rule.action.cooldown != Some(0)
  }

  ghost predicate ClassifierAccepted(c: Classifier) {
    && (c.balanceScope.OnCredential? || c.balanceScope.OnChannel?)
    && forall rule <- c.rules :: RuleAccepted(rule)
  }

  lemma AcceptedRule(rule: RuleConfig)
    ensures IntoRule(rule).Ok? ==> RuleAccepted(IntoRule(rule).value)
  {
    TrimIsIdempotent(rule.id);
  }

  lemma {:induction false} AcceptedRules(rules: seq<RuleConfig>)
    ensures IntoRules(rules).Ok? ==> forall rule <- IntoRules(rules).value :: RuleAccepted(rule)
  {
    if rules != [] {
      AcceptedRule(rules[0]);
      AcceptedRules(rules[1..]);
    }
  }

  lemma CompiledIsAccepted(config: RulesConfig)
    ensures IntoClassifier(config).Ok? ==> ClassifierAccepted(IntoClassifier(config).value)
  {
    AcceptedRules(config.rules);
  }

  /**
   Configuration that compiles can never turn a key-switch cooldown into something else by stealth: whenever a
   response is a key-switch cooldown both before and after adaptation, the failure is not retryable and waits
   exactly as long as its Retry-After says, or not at all.
   */
  lemma KeySwitchCooldownIsProtected(config: RulesConfig, evidence: Evidence,
                                     wait: (Option<Duration>, Option<RetryAfterSource>))
    requires IntoClassifier(config).Ok?
    ensures var c := IntoClassifier(config).value;
            var before, after := Unadapted(c, evidence, wait), Classified(c, evidence, wait);
            before.kind.KeySwitchCooldown? && after.kind.KeySwitchCooldown? ==>
              !after.retryable && after.cooldown == wait.0 && after.primaryScope.CredentialScope?
  {
    var c := IntoClassifier(config).value;
    CompiledIsAccepted(config);
    FirstMatchIsARule(c.rules, evidence);
    KeySwitchCooldownNeedsItsCode(c, evidence);
  }

  lemma KeySwitchCooldownNeedsItsCode(c: Classifier, evidence: Evidence)
    ensures BaseVerdict(c, evidence).kind.KeySwitchCooldown? ==>
              evidence.code == Some("key_switch_cooldown") && !BaseVerdict(c, evidence).retryable
              && BaseVerdict(c, evidence).scope.CredentialScope?
  {
  }

  /** Before adaptation the verdict is one of the nine pairs, and only three of them are ever retryable. */
  lemma BaseVerdictIsSupported(c: Classifier, evidence: Evidence)
    requires c.balanceScope.OnCredential? || c.balanceScope.OnChannel?
    ensures var v := BaseVerdict(c, evidence);
            && Supported(v.kind, v.scope)
            && (v.retryable ==> || (v.kind.RateLimited? && v.scope.CredentialScope?)
                                || (v.kind.RelayBalanceUnavailable? && v.scope.ChannelScope?)
                                || (v.kind.ProviderUnavailable? && v.scope.ChannelScope?))
  {
  }

  /** Every classification by compiled configuration is one of the nine pairs the validator lists. */
  lemma ClassificationIsClosed(config: RulesConfig, evidence: Evidence,
                               wait: (Option<Duration>, Option<RetryAfterSource>))
    requires IntoClassifier(config).Ok?
    ensures var f := Classified(IntoClassifier(config).value, evidence, wait);
            && Supported(f.kind, f.primaryScope)
            && !f.primaryScope.AccountScope? && !f.primaryScope.Deployment?
            && !f.primaryScope.ProviderAdapter? && !f.primaryScope.ClientTokenScope?
  {
    var c := IntoClassifier(config).value;
    CompiledIsAccepted(config);
    FirstMatchIsARule(c.rules, evidence);
    BaseVerdictIsSupported(c, evidence);
  }

  /**
   The restriction on balance scopes is exactly what the closure needs: a quota code stays in the nine pairs if and only
   if the scope validates.
   */
  lemma BalanceScopeCheckIsExact(c: Classifier, evidence: Evidence)
    requires evidence.code.Some? && evidence.code.value in QUOTA_CODES && SwitchesByCode(c, evidence.code.value)
    ensures var v := BaseVerdict(c, evidence);
            Supported(v.kind, v.scope) <==> ValidateBalanceScope(c.balanceScope).Ok?
  {
  }

  /** The rule a configuration asks for, checks aside. */
  function Requested(rule: RuleConfig, statuses: seq<StatusMatcher>): Rule {
    Rule(Trim(rule.id), rule.enabled, Matcher(rule.matcher.codes, rule.matcher.limitTypes, statuses),
         Action(rule.action.kind, rule.action.primaryScope, rule.action.retryable,
                if rule.action.cooldownSeconds.Some? then Some(FromSecs(rule.action.cooldownSeconds.value)) else None))
  }

  /** With this rule alone, a key-switch cooldown stays one but becomes retryable or gains a wait. */
  ghost predicate Subverts(rule: Rule, evidence: Evidence) {
    var c := DEFAULT.(rules := [rule]);
    var before, after := Unadapted(c, evidence, (None, None)), Classified(c, evidence, (None, None));
    before.kind.KeySwitchCooldown? && after.kind.KeySwitchCooldown? && (after.retryable || after.cooldown.Some?)
  }

  /** A response that the matcher accepts and that is a key-switch cooldown, if there is one. */
  function Witness(matcher: Matcher): Evidence {
    Evidence(
      if matcher.statuses == [] then 400
      else if matcher.statuses[0].Exact? then matcher.statuses[0].status
      else matcher.statuses[0].start,
      Some("key_switch_cooldown"), if matcher.limitTypes == [] then None else Some(matcher.limitTypes[0]), false)
  }

  /** The override check refuses an enabled rule exactly when some response would subvert the key-switch cooldown. */
  lemma OverrideCheckIsExact(rule: RuleConfig, statuses: seq<StatusMatcher>)
    requires rule.enabled && Trim(rule.id) != "" && ParseAll(rule.matcher.statuses) == Some(statuses)
    requires ValidateCombination(rule.action.kind, rule.action.primaryScope).Ok?
    requires !Requested(rule, statuses).matcher.IsEmpty()
    ensures ValidateOverride(Requested(rule, statuses).matcher, rule.action).Err?
            <==> exists evidence :: Subverts(Requested(rule, statuses), evidence)
  {
    var r := Requested(rule, statuses);
    TrimIsIdempotent(rule.id);
    ParsedAreParseable(rule.matcher.statuses);
    if ValidateOverride(r.matcher, rule.action).Err? {
      WitnessMatches(r);
      assert [r][0] == r && FirstMatch([r], Witness(r.matcher)) == Some(r);
      assert Subverts(r, Witness(r.matcher));
    } else {
      forall evidence ensures !Subverts(r, evidence) {
        KeySwitchCooldownNeedsItsCode(DEFAULT.(rules := [r]), evidence);
        FirstMatchIsARule([r], evidence);
      }
    }
  }

  lemma WitnessMatches(rule: Rule)
    requires rule.enabled && Trim(rule.id) != "" && !rule.matcher.IsEmpty()
    requires rule.matcher.codes == [] || "key_switch_cooldown" in rule.matcher.codes
    requires forall m <- rule.matcher.statuses :: m.Parseable()
    ensures rule.Matches(Witness(rule.matcher))
  {
    if rule.matcher.statuses != [] {
      assert rule.matcher.statuses[0].Parseable();
      assert rule.matcher.statuses[0].Matches(Witness(rule.matcher).status);
    }
  }

  // --- Merging a profile with a pool ------------------------------------------------------------

  datatype RuleSource = FromProfile(profileId: string) | FromPool
  datatype AdaptationSource = AdaptationSource(id: string, source: RuleSource)
  datatype PolicySources = PolicySources(profileId: Option<string>, hasPoolOverride: bool, rules: seq<AdaptationSource>)

  function Normalized(rules: seq<RuleConfig>): seq<RuleConfig> {
    seq(|rules|, i requires 0 <= i < |rules| => rules[i].(id := Trim(rules[i].id)))
  }

  function TrimmedIds(rules: seq<RuleConfig>): seq<string> {
    seq(|rules|, i requires 0 <= i < |rules| => Trim(rules[i].id))
  }

  function SourcesOf(rules: seq<RuleConfig>, source: RuleSource): seq<AdaptationSource> {
    seq(|rules|, i requires 0 <= i < |rules| => AdaptationSource(rules[i].id, source))
  }

  /** The first violation in rule order: an empty id or one seen before. */
  function UniqueIds(rules: seq<RuleConfig>): Result<(), ConfigError> {
    if rules == [] then Ok(())
    else
      var rest, id := UniqueIds(rules[..|rules| - 1]), Trim(rules[|rules| - 1].id);
      if rest.Err? then rest
      else if id == "" then Err(EmptyRuleId)
      else if id in TrimmedIds(rules[..|rules| - 1]) then Err(DuplicateRuleId)
      else Ok(())
  }

  lemma {:induction false} UniqueIdsMeaning(rules: seq<RuleConfig>)
    ensures UniqueIds(rules).Ok? <==> Distinct(TrimmedIds(rules)) && "" !in TrimmedIds(rules)
  {
    if rules != [] {
      var init, ids := rules[..|rules| - 1], TrimmedIds(rules);
      UniqueIdsMeaning(init);
      assert ids == TrimmedIds(init) + [ids[|rules| - 1]];
      assert TrimmedIds(init) == ids[..|rules| - 1];
      if Distinct(TrimmedIds(init)) && ids[|rules| - 1] !in TrimmedIds(init) {
        DistinctSnoc(TrimmedIds(init), ids[|rules| - 1]);
      }
    }
  }

  lemma UniqueIdsStep(rules: seq<RuleConfig>, i: nat)
    requires i < |rules| && UniqueIds(rules[..i]).Ok?
    ensures var id, seen := Trim(rules[i].id), Elements(TrimmedIds(rules[..i]));
            && UniqueIds(rules[..i + 1])
               == (if id == "" then Err(EmptyRuleId) else if id in seen then Err(DuplicateRuleId) else Ok(()))
            && Elements(TrimmedIds(rules[..i + 1])) == seen + {id}
  {
    assert rules[..i + 1][..i] == rules[..i];
    assert TrimmedIds(rules[..i + 1]) == TrimmedIds(rules[..i]) + [Trim(rules[i].id)];
    ElementsOfConcat(TrimmedIds(rules[..i]), [Trim(rules[i].id)]);
  }

  /** The two validators: rejects an empty or repeated trimmed id. */
  method ValidateUniqueIds(rules: seq<RuleConfig>) returns (r: Result<(), ConfigError>)
    ensures r == UniqueIds(rules)
  {
    var seen: set<string> := {};
    for i := 0 to |rules|
      invariant UniqueIds(rules[..i]) == Ok(()) && seen == Elements(TrimmedIds(rules[..i]))
    {
      var id := Trim(rules[i].id);
      UniqueIdsStep(rules, i);
      if id == "" {
        UniqueIdsFailsEarly(rules, i + 1);
        return Err(EmptyRuleId);
      }
      if id in seen {
        UniqueIdsFailsEarly(rules, i + 1);
        return Err(DuplicateRuleId);
      }
      seen := seen + {id};
    }
    assert rules[..|rules|] == rules;
    r := Ok(());
  }

  lemma {:induction false} UniqueIdsFailsEarly(rules: seq<RuleConfig>, n: nat)
    requires n <= |rules| && UniqueIds(rules[..n]).Err?
    ensures UniqueIds(rules) == UniqueIds(rules[..n])
  {
    if n < |rules| {
      assert rules[..|rules| - 1][..n] == rules[..n];
      UniqueIdsFailsEarly(rules[..|rules| - 1], n);
    } else {
      assert rules[..n] == rules;
    }
  }

  function Prefer<T>(pool: Option<T>, profile: Option<T>): Option<T> {
    if pool.Some? then pool else profile
  }

  function HasOverride(rules: RulesConfig): bool {
    rules != NO_RULES
  }

  /** The pool's settings over the profile's, field by field; the rules of both. */
  function Merged(profile: RulesConfig, pool: RulesConfig): RulesConfig {
    RulesConfig(
      Prefer(pool.relayProfile, profile.relayProfile), Prefer(pool.balanceScope, profile.balanceScope),
      Prefer(pool.keepCodes, profile.keepCodes), Prefer(pool.switchCodes, profile.switchCodes),
      Prefer(pool.expireCodes, profile.expireCodes), Prefer(pool.keepStatuses, profile.keepStatuses),
      Prefer(pool.switchStatuses, profile.switchStatuses), Prefer(pool.expireStatuses, profile.expireStatuses),
      Normalized(profile.rules) + Normalized(pool.rules))
  }

  function MergedSources(profileId: Option<string>, profile: RulesConfig, pool: RulesConfig): PolicySources {
    PolicySources(profileId, HasOverride(pool),
                  (if profileId.Some? then SourcesOf(Normalized(profile.rules), FromProfile(profileId.value)) else [])
                  + SourcesOf(Normalized(pool.rules), FromPool))
  }

  /** The profile a pool names: its trimmed id and rules, or nothing. */
  function ProfileOf(name: Option<string>, profiles: map<string, RulesConfig>):
    Result<(Option<string>, RulesConfig), ConfigError>
  {
    if name.None? then Ok((None, NO_RULES))
    else if Trim(name.value) == "" then Err(EmptyResourceId)
    else if Trim(name.value) !in profiles then Err(UnknownProfile)
    else Ok((Some(Trim(name.value)), profiles[Trim(name.value)]))
  }

  /** `resolve_pool_error_policy`. */
  function PoolPolicy(name: Option<string>, pool: RulesConfig, profiles: map<string, RulesConfig>):
    Result<(RulesConfig, PolicySources), ConfigError>
  {
    var unique, profile := UniqueIds(pool.rules), ProfileOf(name, profiles);
    if unique.Err? then Err(unique.error)
    else if profile.Err? then Err(profile.error)
    else
      var merged := Merged(profile.value.1, pool);
      if UniqueIds(merged.rules).Err? then Err(UniqueIds(merged.rules).error)
      else Ok((merged, MergedSources(profile.value.0, profile.value.1, pool)))
  }

  /** The pool's settings over the profile's, one field at a time; the rules are merged separately. */
  method OverrideFields(profile: RulesConfig, pool: RulesConfig) returns (merged: RulesConfig)
    ensures merged == Merged(profile, pool).(rules := profile.rules)
  {
    merged := profile;
    merged := merged.(keepCodes := Prefer(pool.keepCodes, merged.keepCodes));
    merged := merged.(switchCodes := Prefer(pool.switchCodes, merged.switchCodes));
    merged := merged.(expireCodes := Prefer(pool.expireCodes, merged.expireCodes));
    merged := merged.(keepStatuses := Prefer(pool.keepStatuses, merged.keepStatuses));
    merged := merged.(switchStatuses := Prefer(pool.switchStatuses, merged.switchStatuses));
    merged := merged.(expireStatuses := Prefer(pool.expireStatuses, merged.expireStatuses));
    merged := merged.(relayProfile := Prefer(pool.relayProfile, merged.relayProfile));
    merged := merged.(balanceScope := Prefer(pool.balanceScope, merged.balanceScope));
  }

  /** The same, updating the merged configuration step by step. */
  method ResolvePoolErrorPolicy(name: Option<string>, pool: RulesConfig, profiles: map<string, RulesConfig>)
    returns (r: Result<(RulesConfig, PolicySources), ConfigError>)
    ensures r == PoolPolicy(name, pool, profiles)
  {
    var unique := ValidateUniqueIds(pool.rules);
    if unique.Err? {
      return Err(unique.error);
    }
    var profileId: Option<string>, merged := None, NO_RULES;
    if name.Some? {
      var id := Trim(name.value);
      if id == "" {
        return Err(EmptyResourceId);
      }
      if id !in profiles {
        return Err(UnknownProfile);
      }
      profileId, merged := Some(id), profiles[id];
    }
    ghost var profile := merged;
    merged := OverrideFields(merged, pool);
    merged := merged.(rules := Normalized(merged.rules));
    var poolRules := Normalized(pool.rules);
    var mergedUnique := ValidateUniqueIds(merged.rules + poolRules);
    assert merged.rules + poolRules == Merged(profile, pool).rules;
    if mergedUnique.Err? {
      return Err(mergedUnique.error);
    }
    var sources: seq<AdaptationSource> := [];
    if profileId.Some? {
      sources := sources + SourcesOf(merged.rules, FromProfile(profileId.value));
    }
    sources := sources + SourcesOf(poolRules, FromPool);
    merged := merged.(rules := merged.rules + poolRules);
    assert merged == Merged(profile, pool);
    assert sources == MergedSources(profileId, profile, pool).rules;
    r := Ok((merged, PolicySources(profileId, HasOverride(pool), sources)));
  }

  /** The merged rules and their sources, before any validation. */
  lemma MergedSourcesAlign(profileId: Option<string>, profile: RulesConfig, pool: RulesConfig)
    requires profileId.None? ==> profile == NO_RULES
    ensures var (rules, sources) := (Merged(profile, pool).rules, MergedSources(profileId, profile, pool).rules);
            && |sources| == |rules|
            && forall i :: 0 <= i < |rules| ==>
                 sources[i].id == rules[i].id
                 && sources[i].source == if i < |profile.rules| then FromProfile(OrElse(profileId, "")) else FromPool
  {
  }

  lemma NormalizedIds(rules: seq<RuleConfig>)
    ensures TrimmedIds(Normalized(rules)) == TrimmedIds(rules)
    ensures forall i :: 0 <= i < |rules| ==>
              Normalized(rules)[i].id == TrimmedIds(rules)[i]
              && Trim(Normalized(rules)[i].id) == Normalized(rules)[i].id
  {
    forall i | 0 <= i < |rules| ensures Trim(Trim(rules[i].id)) == Trim(rules[i].id) {
      TrimIsIdempotent(rules[i].id);
    }
  }

  /**
   A successful merge lists the profile's rules and then the pool's, with trimmed, non-empty, pairwise distinct
   ids, and a source list aligned with it: profile rules name the profile, pool rules the pool.
   */
  lemma MergeKeepsProvenance(name: Option<string>, pool: RulesConfig, profiles: map<string, RulesConfig>)
    requires PoolPolicy(name, pool, profiles).Ok?
    ensures var (merged, sources) := PoolPolicy(name, pool, profiles).value;
            var (profileId, profile) := ProfileOf(name, profiles).value;
            && merged.rules == Normalized(profile.rules) + Normalized(pool.rules)
            && Distinct(TrimmedIds(merged.rules)) && "" !in TrimmedIds(merged.rules)
            && |sources.rules| == |merged.rules|
            && forall i :: 0 <= i < |merged.rules| ==>
                 && sources.rules[i].id == merged.rules[i].id == Trim(merged.rules[i].id)
                 && sources.rules[i].source == SourceFor(i < |profile.rules|, profileId)
  {
    var (profileId, profile) := ProfileOf(name, profiles).value;
    var merged := PoolPolicy(name, pool, profiles).value.0;
    UniqueIdsMeaning(merged.rules);
    MergedSourcesAlign(profileId, profile, pool);
    NormalizedIds(profile.rules);
    NormalizedIds(pool.rules);
  }

  lemma {:induction false} CompiledRuleIds(rules: seq<RuleConfig>)
    requires IntoRules(rules).Ok?
    ensures |IntoRules(rules).value| == |rules|
    ensures forall i :: 0 <= i < |rules| ==> IntoRules(rules).value[i].id == Trim(rules[i].id)
  {
    if rules != [] {
      CompiledRuleIds(rules[1..]);
    }
  }

  // --- Compilation is modular -------------------------------------------------------------------

  lemma {:induction false} RulesCompileSeparately(a: seq<RuleConfig>, b: seq<RuleConfig>)
    ensures IntoRules(a + b).Ok? <==> IntoRules(a).Ok? && IntoRules(b).Ok?
    ensures IntoRules(a + b).Ok? ==> IntoRules(a + b).value == IntoRules(a).value + IntoRules(b).value
  {
    if a == [] {
      assert a + b == b;
      assert IntoRules(b).Ok? ==> [] + IntoRules(b).value == IntoRules(b).value;
    } else {
      assert (a + b)[1..] == a[1..] + b;
      RulesCompileSeparately(a[1..], b);
    }
  }

  lemma TrimmedRuleCompilesAlike(rule: RuleConfig)
    ensures IntoRule(rule.(id := Trim(rule.id))) == IntoRule(rule)
  {
    TrimIsIdempotent(rule.id);
  }

  lemma {:induction false} NormalizedCompilesAlike(rules: seq<RuleConfig>)
    ensures IntoRules(Normalized(rules)) == IntoRules(rules)
  {
    if rules != [] {
      TrimmedRuleCompilesAlike(rules[0]);
      assert Normalized(rules)[0] == rules[0].(id := Trim(rules[0].id));
      assert Normalized(rules)[1..] == Normalized(rules[1..]);
      NormalizedCompilesAlike(rules[1..]);
    }
  }

  predicate StatusesParse(statuses: Option<seq<string>>) {
    statuses.None? || ParseAll(statuses.value).Some?
  }

  predicate ScopeValidates(scope: Option<BalanceScope>) {
    scope.None? || ValidateBalanceScope(scope.value).Ok?
  }

  /** A configuration compiles exactly when its scope, its rules and its three status lists do. */
  lemma CompilesExactly(config: RulesConfig)
    ensures IntoClassifier(config).Ok?
            <==> && ScopeValidates(config.balanceScope) && IntoRules(config.rules).Ok?
                 && StatusesParse(config.keepStatuses) && StatusesParse(config.switchStatuses)
                 && StatusesParse(config.expireStatuses)
  {
  }

  /** Over a profile that compiles on its own, the merged policy compiles exactly when the pool's own part does. */
  lemma MergeCompilesModularly(profile: RulesConfig, pool: RulesConfig)
    requires IntoClassifier(profile).Ok?
    ensures IntoClassifier(Merged(profile, pool)).Ok? <==> IntoClassifier(pool).Ok?
  {
    CompilesExactly(profile);
    CompilesExactly(pool);
    CompilesExactly(Merged(profile, pool));
    NormalizedCompilesAlike(profile.rules);
    NormalizedCompilesAlike(pool.rules);
    RulesCompileSeparately(Normalized(profile.rules), Normalized(pool.rules));
  }

  /**
   Merging is associative, an empty side adds nothing but trimming, and a setting of the pool always wins: policies
   can be layered in any grouping.
   */
  lemma MergeIsLayering(a: RulesConfig, b: RulesConfig, c: RulesConfig)
    ensures Merged(Merged(a, b), c) == Merged(a, Merged(b, c))
    ensures Merged(a, NO_RULES) == Merged(NO_RULES, a) == a.(rules := Normalized(a.rules))
    ensures b.relayProfile.Some? ==> Merged(a, b).relayProfile == b.relayProfile
    ensures b.balanceScope.Some? ==> Merged(a, b).balanceScope == b.balanceScope
    ensures b.keepCodes.Some? ==> Merged(a, b).keepCodes == b.keepCodes
    ensures b.switchCodes.Some? ==> Merged(a, b).switchCodes == b.switchCodes
    ensures b.expireCodes.Some? ==> Merged(a, b).expireCodes == b.expireCodes
    ensures b.keepStatuses.Some? ==> Merged(a, b).keepStatuses == b.keepStatuses
    ensures b.switchStatuses.Some? ==> Merged(a, b).switchStatuses == b.switchStatuses
    ensures b.expireStatuses.Some? ==> Merged(a, b).expireStatuses == b.expireStatuses
  {
    NormalizedTwice(a.rules);
    NormalizedTwice(b.rules);
    NormalizedTwice(c.rules);
    NormalizedOfConcat(Normalized(a.rules), Normalized(b.rules));
    NormalizedOfConcat(Normalized(b.rules), Normalized(c.rules));
    assert Normalized(a.rules) + Normalized(b.rules) + Normalized(c.rules)
           == Normalized(a.rules) + (Normalized(b.rules) + Normalized(c.rules));
    assert Normalized(a.rules) + [] == Normalized(a.rules) == [] + Normalized(a.rules);
  }

  lemma NormalizedTwice(rules: seq<RuleConfig>)
    ensures Normalized(Normalized(rules)) == Normalized(rules)
  {
    forall i | 0 <= i < |rules| ensures Trim(Trim(rules[i].id)) == Trim(rules[i].id) {
      TrimIsIdempotent(rules[i].id);
    }
  }

  lemma NormalizedOfConcat(a: seq<RuleConfig>, b: seq<RuleConfig>)
    ensures Normalized(a + b) == Normalized(a) + Normalized(b)
  {
  }

  lemma {:induction false} FirstMatchOfConcat(a: seq<Rule>, b: seq<Rule>, evidence: Evidence)
    ensures FirstMatch(a + b, evidence)
            == if FirstMatch(a, evidence).Some? then FirstMatch(a, evidence) else FirstMatch(b, evidence)
  {
    if a == [] {
      assert a + b == b;
    } else {
      assert (a + b)[1..] == a[1..] + b;
      FirstMatchOfConcat(a[1..], b, evidence);
    }
  }

  /**
   In a merged policy the profile's rules decide first; the pool's rules are reached only by responses that no profile
   rule matches.
   */
  lemma ProfileRulesDecideFirst(profile: RulesConfig, pool: RulesConfig, evidence: Evidence)
    requires IntoRules(profile.rules).Ok? && IntoRules(pool.rules).Ok?
    ensures IntoRules(Merged(profile, pool).rules).Ok?
    ensures FirstMatch(IntoRules(Merged(profile, pool).rules).value, evidence)
            == var byProfile := FirstMatch(IntoRules(profile.rules).value, evidence);
               if byProfile.Some? then byProfile else FirstMatch(IntoRules(pool.rules).value, evidence)
  {
    NormalizedCompilesAlike(profile.rules);
    NormalizedCompilesAlike(pool.rules);
    RulesCompileSeparately(Normalized(profile.rules), Normalized(pool.rules));
    FirstMatchOfConcat(IntoRules(profile.rules).value, IntoRules(pool.rules).value, evidence);
  }

  ghost predicate SomeRuleMatches(rules: seq<Rule>, evidence: Evidence) {
    exists rule <- rules :: rule.Matches(evidence)
  }

  /** The first match is the rule at some index, and there is one exactly when some rule matches. */
  lemma {:induction false} FirstMatchAt(rules: seq<Rule>, evidence: Evidence)
    ensures FirstMatch(rules, evidence).Some? <==> SomeRuleMatches(rules, evidence)
    ensures FirstMatch(rules, evidence).Some? ==>
              exists i :: 0 <= i < |rules| && rules[i] == FirstMatch(rules, evidence).value
  {
    if rules != [] {
      assert rules == [rules[0]] + rules[1..];
      FirstMatchAt(rules[1..], evidence);
      if !rules[0].Matches(evidence) && FirstMatch(rules[1..], evidence).Some? {
        var i :| 0 <= i < |rules[1..]| && rules[1..][i] == FirstMatch(rules[1..], evidence).value;
        assert rules[i + 1] == FirstMatch(rules, evidence).value;
      }
    }
  }

  /** Where the first match of the profile's and the pool's rules together stands. */
  lemma FirstMatchSide(a: seq<Rule>, b: seq<Rule>, evidence: Evidence) returns (i: nat)
    requires FirstMatch(a + b, evidence).Some?
    ensures i < |a + b| && (a + b)[i] == FirstMatch(a + b, evidence).value
    ensures i < |a| <==> SomeRuleMatches(a, evidence)
  {
    FirstMatchOfConcat(a, b, evidence);
    FirstMatchAt(a, evidence);
    FirstMatchAt(b, evidence);
    if FirstMatch(a, evidence).Some? {
      i :| 0 <= i < |a| && a[i] == FirstMatch(a, evidence).value;
    } else {
      var j :| 0 <= j < |b| && b[j] == FirstMatch(b, evidence).value;
      i := |a| + j;
    }
  }

  /** The source entries that carry an id. */
  ghost predicate OnlyEntry(sources: seq<AdaptationSource>, id: string, i: nat) {
    && i < |sources| && sources[i].id == id
    && forall j :: 0 <= j < |sources| && sources[j].id == id ==> j == i
  }

  /**
   The id is there exactly when some rule matches, and it names exactly one source entry: the profile when some rule
   of the profile matches, the pool otherwise.
   */
  ghost predicate NamesItsSource(id: Option<string>, sources: seq<AdaptationSource>, profileId: Option<string>,
                                 ofProfile: seq<Rule>, ofPool: seq<Rule>, evidence: Evidence)
  {
    && (id.Some? <==> SomeRuleMatches(ofProfile, evidence) || SomeRuleMatches(ofPool, evidence))
    && (id.Some? ==>
          exists i: nat :: OnlyEntry(sources, id.value, i)
                      && sources[i].source == SourceFor(SomeRuleMatches(ofProfile, evidence), profileId))
  }

  function SourceFor(byProfile: bool, profileId: Option<string>): RuleSource {
    if byProfile then FromProfile(OrElse(profileId, "")) else FromPool
  }

  /** An adaptation id on a classified failure names its source. */
  lemma AdaptationIdNamesOneSource(name: Option<string>, pool: RulesConfig, profiles: map<string, RulesConfig>,
                                   merged: RulesConfig, sources: PolicySources, c: Classifier,
                                   evidence: Evidence, wait: (Option<Duration>, Option<RetryAfterSource>))
    requires PoolPolicy(name, pool, profiles) == Ok((merged, sources)) && IntoClassifier(merged) == Ok(c)
    ensures var (profileId, profile) := ProfileOf(name, profiles).value;
            var id := Classified(c, evidence, wait).adaptationRuleId;
            && IntoRules(profile.rules).Ok? && IntoRules(pool.rules).Ok?
            && NamesItsSource(id, sources.rules, profileId,
                              IntoRules(profile.rules).value, IntoRules(pool.rules).value, evidence)
  {
    var (profileId, profile) := ProfileOf(name, profiles).value;
    NormalizedCompilesAlike(profile.rules);
    NormalizedCompilesAlike(pool.rules);
    MergeKeepsProvenance(name, pool, profiles);
    RulesCompileSeparately(Normalized(profile.rules), Normalized(pool.rules));
    var a, b := IntoRules(profile.rules).value, IntoRules(pool.rules).value;
    FirstMatchOfConcat(a, b, evidence);
    FirstMatchAt(a, evidence);
    FirstMatchAt(b, evidence);
    if FirstMatch(a + b, evidence).Some? {
      var i := FirstMatchSide(a, b, evidence);
      CompiledRuleIds(profile.rules);
      CompiledRuleIds(merged.rules);
      OneEntry(merged, sources, i);
    }
  }

  lemma OneEntry(merged: RulesConfig, sources: PolicySources, i: nat)
    requires i < |merged.rules| == |sources.rules| && Distinct(TrimmedIds(merged.rules))
    requires forall k :: 0 <= k < |merged.rules| ==>
               sources.rules[k].id == merged.rules[k].id == Trim(merged.rules[k].id)
    ensures OnlyEntry(sources.rules, Trim(merged.rules[i].id), i)
  {
    forall j | 0 <= j < |sources.rules| && sources.rules[j].id == Trim(merged.rules[i].id) ensures j == i {
      assert TrimmedIds(merged.rules)[j] == TrimmedIds(merged.rules)[i];
    }
  }
}
