/** What a compiled classifier does, said of the configuration it was compiled from. */
module CompiledPolicy {
  import opened Outcomes
  import opened Strings
  import opened FirstOccurrences
  import opened ErrorClassifier
  import opened ErrorPolicy

  // --- The configuration with its defaults ------------------------------------------------------

  function KeepCodes(config: RulesConfig): seq<string> {
    if config.keepCodes.Some? then config.keepCodes.value else ["key_switch_cooldown"]
  }

  function ExpireCodes(config: RulesConfig): seq<string> {
    if config.expireCodes.Some? then config.expireCodes.value else ["invalid_api_key"]
  }

  function SwitchCodes(config: RulesConfig): seq<string> {
    if config.switchCodes.Some? then config.switchCodes.value
    else ["insufficient_quota", "quota_exceeded", "rate_limit_exceeded", "rate_limit_cooldown",
          "billing_hard_limit_reached"]
  }

  /** The status a configured string spells, or any of the hundred it names. */
  predicate Denotes(raw: string, status: U16) {
    if |raw| >= 2 && raw[|raw| - 2..] == "xx" then ParseUnsigned(raw[..|raw| - 2], 65536) == Some(status / 100)
    else ParseUnsigned(raw, 65536) == Some(status)
  }

  ghost predicate SomeDenotes(raw: seq<string>, status: U16) {
    exists i :: 0 <= i < |raw| && Denotes(raw[i], status)
  }

  ghost predicate Lists(configured: Option<seq<string>>, defaults: set<int>, status: U16) {
    if configured.Some? then SomeDenotes(configured.value, status) else status in defaults
  }

  ghost predicate KeepsStatus(config: RulesConfig, status: U16) {
    Lists(config.keepStatuses, {}, status)
  }

  ghost predicate ExpiresStatus(config: RulesConfig, status: U16) {
    Lists(config.expireStatuses, {401, 403}, status)
  }

  ghost predicate SwitchesStatus(config: RulesConfig, status: U16) {
    Lists(config.switchStatuses, {502, 503, 504}, status)
  }

  // --- Compiled lists ---------------------------------------------------------------------------

  lemma {:induction false} ParsedListMatches(raw: seq<string>, status: U16)
    requires ParseAll(raw).Some?
    ensures MatchesStatus(ParseAll(raw).value, status) <==> SomeDenotes(raw, status)
    ensures |ParseAll(raw).value| == |raw|
  {
    if raw != [] {
      var rest := ParseAll(raw[1..]).value;
      ParsedListMatches(raw[1..], status);
      StatusStringsDenote(raw[0], status);
      ConsMatches(ParseStatus(raw[0]).value, rest, status);
      ConsDenotes(raw, status);
    }
  }

  lemma ConsDenotes(raw: seq<string>, status: U16)
    requires raw != []
    ensures SomeDenotes(raw, status) <==> Denotes(raw[0], status) || SomeDenotes(raw[1..], status)
  {
    if SomeDenotes(raw[1..], status) {
      var i :| 0 <= i < |raw[1..]| && Denotes(raw[1..][i], status);
      assert raw[i + 1] == raw[1..][i];
    }
    if i :| 0 <= i < |raw| && Denotes(raw[i], status) {
      assert i > 0 ==> raw[1..][i - 1] == raw[i];
    }
  }

  lemma ConsMatches(m: StatusMatcher, rest: seq<StatusMatcher>, status: U16)
    ensures MatchesStatus([m] + rest, status) <==> m.Matches(status) || MatchesStatus(rest, status)
  {
    if MatchesStatus(rest, status) {
      var i :| 0 <= i < |rest| && rest[i].Matches(status);
      assert ([m] + rest)[i + 1] == rest[i];
    }
    if m.Matches(status) {
      assert ([m] + rest)[0] == m;
    }
  }

  /** Lists, profile and scope of a compiled classifier are the configured ones, or the defaults spelt out here. */
  lemma CompiledLists(config: RulesConfig, c: Classifier, status: U16)
    requires IntoClassifier(config) == Ok(c)
    ensures c.keepCodes == KeepCodes(config) && c.expireCodes == ExpireCodes(config)
            && c.switchCodes == SwitchCodes(config)
    ensures MatchesStatus(c.keepStatuses, status) <==> KeepsStatus(config, status)
    ensures MatchesStatus(c.expireStatuses, status) <==> ExpiresStatus(config, status)
    ensures MatchesStatus(c.switchStatuses, status) <==> SwitchesStatus(config, status)
    ensures c.relayProfile == if config.relayProfile.Some? then config.relayProfile.value else OfficialOpenAi
    ensures c.balanceScope == if config.balanceScope.Some? then config.balanceScope.value else OnCredential
    ensures c.balanceScope in {OnCredential, OnChannel}
  {
    if config.keepStatuses.Some? {
      ParsedListMatches(config.keepStatuses.value, status);
    }
    if config.expireStatuses.Some? {
      ParsedListMatches(config.expireStatuses.value, status);
    } else {
      assert c.expireStatuses == [Exact(401), Exact(403)];
      assert c.expireStatuses[0] == Exact(401) && c.expireStatuses[1] == Exact(403);
    }
    if config.switchStatuses.Some? {
      ParsedListMatches(config.switchStatuses.value, status);
    } else {
      assert c.switchStatuses == [Exact(502), Exact(503), Exact(504)];
      assert c.switchStatuses[0] == Exact(502) && c.switchStatuses[1] == Exact(503)
             && c.switchStatuses[2] == Exact(504);
    }
  }

  // --- Codes and statuses decide as configured --------------------------------------------------

  /** A configured code decides: keeping comes before expiring, expiring before switching. */
  lemma ConfiguredCodeDecides(config: RulesConfig, c: Classifier, evidence: Evidence)
    requires IntoClassifier(config) == Ok(c) && evidence.code.Some?
    ensures var v, code := BaseVerdict(c, evidence), evidence.code.value;
            if code in KeepCodes(config) then
              v == if code == "key_switch_cooldown" then Verdict(KeySwitchCooldown, CredentialScope, false, High)
                   else if code in MODEL_CODES then Verdict(ClientError, ModelGroup, false, Medium)
                   else Verdict(Unknown, RequestOnly, false, Low)
            else if code in ExpireCodes(config) then
              v == Verdict(AuthInvalid, CredentialScope, false, if code == "invalid_api_key" then High else Low)
            else if code in SwitchCodes(config) then
              v == if code in QUOTA_CODES then
                     if config.balanceScope == Some(OnChannel) then Verdict(RelayBalanceUnavailable, ChannelScope, true,
                                                                            Medium)
                     else Verdict(QuotaExhausted, CredentialScope, false, Medium)
                   else
                     Verdict(RateLimited, CredentialScope, true,
                             if code in {"rate_limit_exceeded", "rate_limit_cooldown"} then Medium else Low)
            else code == "key_switch_cooldown" || code in MODEL_CODES || !CodeDecides(c, evidence)
  {
    CompiledLists(config, c, evidence.status);
    BalanceVerdictsExactly(c, evidence);
    LimitVerdictsInFull(c, evidence);
    AuthInvalidExactly(c, evidence);
    SwitchVerdictsExactly(c, evidence);
    RetryableExactly(c, evidence);
    ClientErrorsExactly(c, evidence);
    UnknownExactly(c, evidence);
    KeySwitchExactly(c, evidence);
  }

  /** Where no code decides, and no error object without a code hides it, the status decides in the same order. */
  lemma ConfiguredStatusDecides(config: RulesConfig, c: Classifier, evidence: Evidence)
    requires IntoClassifier(config) == Ok(c) && !CodeDecides(c, evidence) && !CodeLess(evidence)
    ensures var v, status := BaseVerdict(c, evidence), evidence.status;
            var official := config.relayProfile.None? || config.relayProfile == Some(OfficialOpenAi);
            if KeepsStatus(config, status) then v == Verdict(Unknown, RequestOnly, false, Low)
            else if ExpiresStatus(config, status) then
              v == if official || status !in {401, 403} then Verdict(AuthInvalid, CredentialScope, false, Medium)
                   else Verdict(ClientError, RequestOnly, false, Medium)
            else if SwitchesStatus(config, status) then
              v == if 500 <= status <= 599 then Verdict(ProviderUnavailable, ChannelScope, true, Low)
                   else Verdict(RateLimited, CredentialScope, true, Low)
            else v == if status == 429 then Verdict(RateLimited, CredentialScope, false, Low)
                      else Verdict(Unknown, RequestOnly, false, Low)
  {
    CompiledLists(config, c, evidence.status);
  }

  // --- Rules ------------------------------------------------------------------------------------

  /** The nine pairs of kind and scope. */
  const PAIRS := {
    (AuthInvalid, CredentialScope), (RateLimited, CredentialScope), (QuotaExhausted, CredentialScope),
    (KeySwitchCooldown, CredentialScope), (RelayBalanceUnavailable, ChannelScope), (ProviderUnavailable, ChannelScope),
    (ClientError, RequestOnly), (Unknown, RequestOnly), (ClientError, ModelGroup)}

  lemma SupportedExactly(kind: FailureKind, scope: FailureScope)
    ensures Supported(kind, scope) <==> (kind, scope) in PAIRS
  {
  }

  /** An accepted status is a whole hundred from 1xx to 5xx or a number from 100 to 599. */
  predicate SpellsStatus(raw: string) {
    if |raw| >= 2 && raw[|raw| - 2..] == "xx" then
      exists h :: 1 <= h <= 5 && ParseUnsigned(raw[..|raw| - 2], 65536) == Some(h)
    else exists n :: 100 <= n <= 599 && ParseUnsigned(raw, 65536) == Some(n)
  }

  lemma StatusParsesExactly(raw: string)
    ensures ParseStatus(raw).Some? <==> SpellsStatus(raw)
  {
    if |raw| >= 2 {
      assert raw[|raw| - 2..] == [raw[|raw| - 2], raw[|raw| - 1]];
      assert "xx" == ['x', 'x'];
    }
  }

  lemma {:induction false} StatusesParseExactly(raw: seq<string>)
    ensures ParseAll(raw).Some? <==> forall s <- raw :: SpellsStatus(s)
  {
    if raw != [] {
      StatusParsesExactly(raw[0]);
      StatusesParseExactly(raw[1..]);
      assert forall s :: s in raw <==> s == raw[0] || s in raw[1..];
    }
  }

  /** The action retries or waits although the rule leaves a key-switch cooldown one. */
  ghost predicate Overrides(rule: RuleConfig) {
    var action := rule.action;
    && (action.retryable == Some(true) || action.cooldownSeconds.Some?)
    && ((action.kind == Some(KeySwitchCooldown) && action.primaryScope == Some(CredentialScope))
        || ((rule.matcher.codes == [] || "key_switch_cooldown" in rule.matcher.codes)
            && action.kind in {None, Some(KeySwitchCooldown)} && action.primaryScope in {None, Some(CredentialScope)}))
  }

  /** What a configured rule must satisfy to compile. */
  ghost predicate Compilable(rule: RuleConfig) {
    && Trim(rule.id) != ""
    && (rule.action.kind.Some? <==> rule.action.primaryScope.Some?)
    && (rule.action.kind.Some? && rule.action.primaryScope.Some? ==>
          (rule.action.kind.value, rule.action.primaryScope.value) in PAIRS)
    && rule.action.cooldownSeconds != Some(0)
    && (forall s <- rule.matcher.statuses :: SpellsStatus(s))
    && (rule.matcher.codes != [] || rule.matcher.limitTypes != [] || rule.matcher.statuses != [])
    && !Overrides(rule)
  }

  lemma ActionCompilesExactly(action: ActionConfig)
    ensures IntoAction(action).Ok?
            <==> && (action.kind.Some? <==> action.primaryScope.Some?)
                 && (action.kind.Some? && action.primaryScope.Some? ==> (action.kind.value,
                                                                         action.primaryScope.value) in PAIRS)
                 && action.cooldownSeconds != Some(0)
                 && !(action.kind == Some(KeySwitchCooldown) && action.primaryScope == Some(CredentialScope)
                      && (action.retryable == Some(true) || action.cooldownSeconds.Some?))
  {
    if action.kind.Some? && action.primaryScope.Some? {
      SupportedExactly(action.kind.value, action.primaryScope.value);
    }
  }

  /** A rule compiles exactly when it is compilable. */
  lemma RuleCompilesExactly(rule: RuleConfig)
    ensures IntoRule(rule).Ok? <==> Compilable(rule)
  {
    ActionCompilesExactly(rule.action);
    StatusesParseExactly(rule.matcher.statuses);
    if ParseAll(rule.matcher.statuses).Some? {
      ParsedListMatches(rule.matcher.statuses, 0);
    }
  }

  lemma {:induction false} RulesCompileExactly(rules: seq<RuleConfig>)
    ensures IntoRules(rules).Ok? <==> forall rule <- rules :: Compilable(rule)
    ensures IntoRules(rules).Ok? ==>
              |IntoRules(rules).value| == |rules|
              && forall i :: 0 <= i < |rules| ==> IntoRule(rules[i]) == Ok(IntoRules(rules).value[i])
  {
    if rules != [] {
      RuleCompilesExactly(rules[0]);
      RulesCompileExactly(rules[1..]);
      assert forall rule :: rule in rules <==> rule == rules[0] || rule in rules[1..];
    }
  }

  /** A configuration compiles exactly when balances belong to credential or channel, and every status and rule does. */
  lemma ConfigCompilesExactly(config: RulesConfig)
    ensures IntoClassifier(config).Ok?
            <==> && ScopeAccepted(config)
                 && (config.keepStatuses.Some? ==> forall s <- config.keepStatuses.value :: SpellsStatus(s))
                 && (config.switchStatuses.Some? ==> forall s <- config.switchStatuses.value :: SpellsStatus(s))
                 && (config.expireStatuses.Some? ==> forall s <- config.expireStatuses.value :: SpellsStatus(s))
                 && forall rule <- config.rules :: Compilable(rule)
  {
    CompilesExactly(config);
    RulesCompileExactly(config.rules);
    if config.keepStatuses.Some? { StatusesParseExactly(config.keepStatuses.value); }
    if config.switchStatuses.Some? { StatusesParseExactly(config.switchStatuses.value); }
    if config.expireStatuses.Some? { StatusesParseExactly(config.expireStatuses.value); }
  }

  /** A configured rule applies to a response: it is enabled and each list it gives has an entry for the response. */
  ghost predicate Applies(rule: RuleConfig, evidence: Evidence) {
    && rule.enabled
    && (rule.matcher.codes == [] || (evidence.code.Some? && evidence.code.value in rule.matcher.codes))
    && (rule.matcher.limitTypes == []
        || (evidence.limitType.Some? && evidence.limitType.value in rule.matcher.limitTypes))
    && (rule.matcher.statuses == [] || SomeDenotes(rule.matcher.statuses, evidence.status))
  }

  /**
   The compiled rule is the configured one: trimmed id, flag, lists, and the action with its cooldown in nanoseconds.
   */
  lemma CompiledRule(rule: RuleConfig, compiled: Rule, evidence: Evidence)
    requires IntoRule(rule) == Ok(compiled)
    ensures compiled.id == Trim(rule.id) && compiled.enabled == rule.enabled
    ensures compiled.matcher.codes == rule.matcher.codes && compiled.matcher.limitTypes == rule.matcher.limitTypes
    ensures MatchesStatus(compiled.matcher.statuses, evidence.status)
            <==> SomeDenotes(rule.matcher.statuses, evidence.status)
    ensures compiled.action.kind == rule.action.kind && compiled.action.primaryScope == rule.action.primaryScope
    ensures compiled.action.retryable == rule.action.retryable
    ensures compiled.action.cooldown
            == if rule.action.cooldownSeconds.Some? then Some(rule.action.cooldownSeconds.value * 1_000_000_000)
            else None
    ensures compiled.Matches(evidence) <==> Applies(rule, evidence)
  {
    ParsedListMatches(rule.matcher.statuses, evidence.status);
    TrimIsIdempotent(rule.id);
  }

  /**
   The first configured rule that applies sets exactly the fields its action gives; the base verdict gives the others.
   */
  lemma ConfiguredRuleAdapts(config: RulesConfig, c: Classifier, evidence: Evidence,
                             wait: (Option<Duration>, Option<RetryAfterSource>), i: nat)
    requires IntoClassifier(config) == Ok(c)
    requires i < |config.rules| && Applies(config.rules[i], evidence)
    requires forall j :: 0 <= j < i ==> !Applies(config.rules[j], evidence)
    ensures var f, v, action := Classified(c, evidence, wait), BaseVerdict(c, evidence), config.rules[i].action;
            && f.kind == (if action.kind.Some? then action.kind.value else v.kind)
            && f.primaryScope == (if action.primaryScope.Some? then action.primaryScope.value else v.scope)
            && f.retryable == (if action.retryable.Some? then action.retryable.value else v.retryable)
            && f.cooldown == (if wait.0.Some? then wait.0
                              else if action.cooldownSeconds.None? then None
                              else Some(action.cooldownSeconds.value * 1_000_000_000))
            && f.adaptationRuleId == Some(Trim(config.rules[i].id))
  {
    RulesCompileExactly(config.rules);
    forall j | 0 <= j < |config.rules| ensures c.rules[j].Matches(evidence) <==> Applies(config.rules[j], evidence) {
      CompiledRule(config.rules[j], c.rules[j], evidence);
    }
    CompiledRule(config.rules[i], c.rules[i], evidence);
    AdaptedInFull(c, evidence, wait, i);
  }

  /** If no configured rule applies, the classification is the base verdict with the wait of the response. */
  lemma NoConfiguredRule(config: RulesConfig, c: Classifier, evidence: Evidence,
                         wait: (Option<Duration>, Option<RetryAfterSource>))
    requires IntoClassifier(config) == Ok(c) && forall i :: 0 <= i < |config.rules| ==>
               !Applies(config.rules[i], evidence)
    ensures var f, v := Classified(c, evidence, wait), BaseVerdict(c, evidence);
            && f.kind == v.kind && f.primaryScope == v.scope && f.retryable == v.retryable && f.cooldown == wait.0
            && f.adaptationRuleId == None
  {
    RulesCompileExactly(config.rules);
    forall rule <- c.rules ensures !rule.Matches(evidence) {
      var j :| 0 <= j < |c.rules| && c.rules[j] == rule;
      CompiledRule(config.rules[j], rule, evidence);
    }
    UnadaptedInFull(c, evidence, wait);
  }

  // --- The merged policy ------------------------------------------------------------------------

  /** The pool's setting where it has one, else the profile's. */
  ghost predicate Layers<T>(merged: Option<T>, profile: Option<T>, pool: Option<T>) {
    if pool.Some? then merged == pool else merged == profile
  }

  ghost predicate PresentAndDistinct(ids: seq<string>) {
    Distinct(ids) && "" !in ids
  }

  /**
   A pool's policy resolves exactly when its rule ids are present and distinct, the profile it names exists, and no id
   is in both. Then each setting is the pool's, else the profile's; the sources name the profile by its trimmed id and
   say whether the pool sets anything.
   */
  lemma PolicyResolvesExactly(name: Option<string>, pool: RulesConfig, profiles: map<string, RulesConfig>)
    ensures var r := PoolPolicy(name, pool, profiles);
            var known := name.None? || (Trim(name.value) != "" && Trim(name.value) in profiles);
            var profile := if name.Some? && known then profiles[Trim(name.value)] else NO_RULES;
            && (r.Ok? <==> known && PresentAndDistinct(TrimmedIds(profile.rules) + TrimmedIds(pool.rules)))
            && (r.Ok? ==>
                  var (merged, sources) := r.value;
                  && Layers(merged.relayProfile, profile.relayProfile, pool.relayProfile)
                  && Layers(merged.balanceScope, profile.balanceScope, pool.balanceScope)
                  && Layers(merged.keepCodes, profile.keepCodes, pool.keepCodes)
                  && Layers(merged.switchCodes, profile.switchCodes, pool.switchCodes)
                  && Layers(merged.expireCodes, profile.expireCodes, pool.expireCodes)
                  && Layers(merged.keepStatuses, profile.keepStatuses, pool.keepStatuses)
                  && Layers(merged.switchStatuses, profile.switchStatuses, pool.switchStatuses)
                  && Layers(merged.expireStatuses, profile.expireStatuses, pool.expireStatuses)
                  && sources.profileId == (if name.Some? then Some(Trim(name.value)) else None)
                  && (sources.hasPoolOverride
                      <==> || pool.relayProfile.Some? || pool.balanceScope.Some? || pool.keepCodes.Some?
                           || pool.switchCodes.Some? || pool.expireCodes.Some? || pool.keepStatuses.Some?
                           || pool.switchStatuses.Some? || pool.expireStatuses.Some? || pool.rules != []))
  {
    var profile := if name.Some? && Trim(name.value) in profiles then profiles[Trim(name.value)] else NO_RULES;
    var merged := Merged(profile, pool);
    UniqueIdsMeaning(pool.rules);
    UniqueIdsMeaning(merged.rules);
    NormalizedIds(profile.rules);
    NormalizedIds(pool.rules);
    MergedIds(profile, pool);
    SuffixOfDistinct(TrimmedIds(profile.rules), TrimmedIds(pool.rules));
  }

  lemma MergedIds(profile: RulesConfig, pool: RulesConfig)
    ensures TrimmedIds(Merged(profile, pool).rules) == TrimmedIds(profile.rules) + TrimmedIds(pool.rules)
  {
    NormalizedIds(profile.rules);
    NormalizedIds(pool.rules);
    assert TrimmedIds(Normalized(profile.rules) + Normalized(pool.rules))
           == TrimmedIds(Normalized(profile.rules)) + TrimmedIds(Normalized(pool.rules));
  }

  lemma SuffixOfDistinct(a: seq<string>, b: seq<string>)
    ensures PresentAndDistinct(a + b) ==> PresentAndDistinct(b)
  {
    assert forall i :: 0 <= i < |b| ==> b[i] == (a + b)[|a| + i];
  }

  /** The validator reports the first rule at fault: an empty id, or one that an earlier rule has. */
  lemma {:induction false} FirstFaultIsReported(rules: seq<RuleConfig>)
    ensures UniqueIds(rules).Err? ==>
              exists i :: 0 <= i < |rules| && PresentAndDistinct(TrimmedIds(rules)[..i])
                          && if Trim(rules[i].id) == "" then UniqueIds(rules) == Err(EmptyRuleId)
                             else UniqueIds(rules) == Err(DuplicateRuleId)
                                  && Trim(rules[i].id) in TrimmedIds(rules)[..i]
  {
    if rules != [] {
      var init := rules[..|rules| - 1];
      FirstFaultIsReported(init);
      UniqueIdsMeaning(init);
      assert TrimmedIds(init) == TrimmedIds(rules)[..|init|];
      if UniqueIds(init).Err? {
        var i :| 0 <= i < |init| && PresentAndDistinct(TrimmedIds(init)[..i])
                 && if Trim(init[i].id) == "" then UniqueIds(init) == Err(EmptyRuleId)
                    else UniqueIds(init) == Err(DuplicateRuleId) && Trim(init[i].id) in TrimmedIds(init)[..i];
        assert TrimmedIds(init)[..i] == TrimmedIds(rules)[..i] && rules[i] == init[i];
      }
    }
  }

  // --- Why a configuration is refused -----------------------------------------------------------

  /** The scopes no action may set. */
  const FOREIGN_SCOPES := {AccountScope, Deployment, ProviderAdapter, ClientTokenScope}

  /** Each error of an action, by the condition it reports. */
  lemma ActionFailsExactly(action: ActionConfig)
    ensures var r, kind, scope := IntoAction(action), action.kind, action.primaryScope;
            var cooldown := kind == Some(KeySwitchCooldown) && scope == Some(CredentialScope)
                            && (action.retryable == Some(true) || action.cooldownSeconds.Some?);
            && (r == Err(KindWithoutScope) <==> kind.Some? && scope.None?)
            && (r == Err(ScopeWithoutKind) <==> kind.None? && scope.Some?)
            && (r == Err(UnsupportedScope) <==> kind.Some? && scope.Some? && scope.value in FOREIGN_SCOPES)
            && (r == Err(UnsupportedPair)
                <==> && kind.Some? && scope.Some? && scope.value !in FOREIGN_SCOPES
                     && (kind.value, scope.value) !in PAIRS)
            && (r == Err(OverriddenCooldown) <==> cooldown)
            && (r == Err(ZeroCooldown)
                <==> && action.cooldownSeconds == Some(0) && !cooldown && (kind.Some? <==> scope.Some?)
                     && (kind.Some? && scope.Some? ==> (kind.value, scope.value) in PAIRS))
  {
    if action.kind.Some? && action.primaryScope.Some? {
      SupportedExactly(action.kind.value, action.primaryScope.value);
    }
  }

  /** The first fault of a rule is reported: its id, its action, its statuses, its matcher, its override. */
  lemma RuleFailsExactly(rule: RuleConfig)
    ensures var r, action := IntoRule(rule), IntoAction(rule.action);
            if Trim(rule.id) == "" then r == Err(EmptyRuleId)
            else if action.Err? then r == Err(action.error)
            else if exists s <- rule.matcher.statuses :: !SpellsStatus(s) then r == Err(InvalidStatus)
            else if rule.matcher.codes == [] && rule.matcher.limitTypes == [] && rule.matcher.statuses == [] then
              r == Err(EmptyMatcher)
            else if Overrides(rule) then r == Err(OverriddenCooldown)
            else r.Ok?
  {
    RuleCompilesExactly(rule);
    StatusesParseExactly(rule.matcher.statuses);
    if ParseAll(rule.matcher.statuses).Some? {
      ParsedListMatches(rule.matcher.statuses, 0);
    }
  }

  lemma {:induction false} RulesFailExactly(rules: seq<RuleConfig>, i: nat)
    requires i < |rules| && !Compilable(rules[i]) && forall j :: 0 <= j < i ==> Compilable(rules[j])
    ensures IntoRule(rules[i]).Err? && IntoRules(rules) == Err(IntoRule(rules[i]).error)
  {
    RuleCompilesExactly(rules[0]);
    if i > 0 {
      RulesFailExactly(rules[1..], i - 1);
    }
  }

  ghost predicate FirstBad(rules: seq<RuleConfig>, i: nat) {
    i < |rules| && !Compilable(rules[i]) && forall j :: 0 <= j < i ==> Compilable(rules[j])
  }

  /** A configuration is refused for its balance scope, else for its first bad rule. */
  lemma ConfigFailsFirst(config: RulesConfig, i: nat)
    requires FirstBad(config.rules, i)
    ensures IntoRule(config.rules[i]).Err?
    ensures IntoClassifier(config)
            == Err(if ScopeAccepted(config) then IntoRule(config.rules[i]).error else UnsupportedBalanceScope)
  {
    RulesFailExactly(config.rules, i);
  }

  /** Without a bad rule, it is refused for its balance scope, else for a status that does not parse. */
  lemma ConfigFailsLast(config: RulesConfig)
    requires forall rule <- config.rules :: Compilable(rule)
    ensures if !ScopeAccepted(config) then IntoClassifier(config) == Err(UnsupportedBalanceScope)
            else IntoClassifier(config).Ok? || IntoClassifier(config) == Err(InvalidStatus)
  {
    RulesCompileExactly(config.rules);
  }

  ghost predicate ScopeAccepted(config: RulesConfig) {
    config.balanceScope in {None, Some(OnCredential), Some(OnChannel)}
  }

  /** A pool's policy is refused for its own rule ids, else for the profile it names, else for the ids of both. */
  lemma PolicyFailsExactly(name: Option<string>, pool: RulesConfig, profiles: map<string, RulesConfig>)
    ensures var r := PoolPolicy(name, pool, profiles);
            if UniqueIds(pool.rules).Err? then r == Err(UniqueIds(pool.rules).error)
            else if name.Some? && Trim(name.value) == "" then r == Err(EmptyResourceId)
            else if name.Some? && Trim(name.value) !in profiles then r == Err(UnknownProfile)
            else
              var both := (if name.Some? then profiles[Trim(name.value)].rules else []) + pool.rules;
              if UniqueIds(both).Err? then r == Err(UniqueIds(both).error) else r.Ok?
  {
    if name.None? || Trim(name.value) in profiles {
      var profile := if name.Some? then profiles[Trim(name.value)] else NO_RULES;
      MergedIds(profile, pool);
      assert TrimmedIds(profile.rules + pool.rules) == TrimmedIds(profile.rules) + TrimmedIds(pool.rules);
      SameIdsFailAlike(Merged(profile, pool).rules, profile.rules + pool.rules);
    }
  }

  lemma {:induction false} SameIdsFailAlike(a: seq<RuleConfig>, b: seq<RuleConfig>)
    requires TrimmedIds(a) == TrimmedIds(b)
    ensures UniqueIds(a) == UniqueIds(b)
    decreases |a|
  {
    assert |a| == |TrimmedIds(a)| == |TrimmedIds(b)| == |b|;
    if a != [] {
      var n := |a| - 1;
      assert TrimmedIds(a[..n]) == TrimmedIds(a)[..n] && TrimmedIds(b[..n]) == TrimmedIds(b)[..n];
      assert Trim(a[n].id) == TrimmedIds(a)[n] == TrimmedIds(b)[n] == Trim(b[n].id);
      SameIdsFailAlike(a[..n], b[..n]);
    }
  }
}
