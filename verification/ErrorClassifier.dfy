/** The upstream error classifier of `src/error.rs`, from parsed response evidence to a classified failure. */
module ErrorClassifier {
  import opened Outcomes
  import opened Strings

  datatype FailureKind =
    RateLimited | KeySwitchCooldown | AuthInvalid | QuotaExhausted | RelayBalanceUnavailable
    | ProviderUnavailable | ResponseFilterRejected | ClientError | Unknown
  datatype FailureScope =
    RequestOnly | CredentialScope | AccountScope | ChannelScope | Deployment | ModelGroup | ProviderAdapter
    | ClientTokenScope
  datatype RelayProfile = OfficialOpenAi | GenericRelay | UntrustedRelay
  datatype BalanceScope = OnCredential | OnChannel | OnAccount | OnProvider | OnClientToken
  datatype FailureConfidence = Low | Medium | High
  datatype RetryAfterSource = DeltaSeconds | HttpDate

  type U16 = n: nat | n < 65536

  /** A span of time in nanoseconds. */
  type Duration = nat

  function FromSecs(seconds: nat): Duration {
    seconds * 1_000_000_000
  }

  // --- Status matchers --------------------------------------------------------------------------

  datatype StatusMatcher = Exact(status: U16) | Range(start: U16, end: U16)
  {
    predicate Matches(code: U16) {
      match this
      case Exact(value) => value == code
      case Range(first, last) => first <= code <= last
    }

    /** The string form used in configuration; the 16-bit addition wraps. */
    function AsConfigString(): string {
      match this
      case Exact(value) => Decimal(value)
      case Range(first, last) =>
        if first % 100 == 0 && last == (first + 99) % 65536 then Decimal(first / 100) + "xx"
        else Decimal(first) + "-" + Decimal(last)
    }

    /** One status from 100 to 599, or one of the five whole hundreds. */
    predicate Parseable() {
      match this
      case Exact(value) => 100 <= value <= 599
      case Range(first, last) => first in {100, 200, 300, 400, 500} && last == first + 99
    }
  }

  function ParseStatus(raw: string): Option<StatusMatcher> {
    var n := |raw|;
    if n >= 2 && raw[n - 2] == 'x' && raw[n - 1] == 'x' then
      match ParseUnsigned(raw[..n - 2], 65536)
      case Some(hundreds) => if 1 <= hundreds <= 5 then Some(Range(hundreds * 100, hundreds * 100 + 99)) else None
      case None => None
    else
      match ParseUnsigned(raw, 65536)
      case Some(status) => if 100 <= status <= 599 then Some(Exact(status)) else None
      case None => None
  }

  lemma ParsedIsParseable(raw: string)
    ensures ParseStatus(raw).Some? ==> ParseStatus(raw).value.Parseable()
  {
  }

  lemma {:induction false} DecimalIsDigits(n: nat)
    ensures forall c <- Decimal(n) :: IsDigit(c)
  {
    if n >= 10 {
      DecimalIsDigits(n / 10);
    }
  }

  lemma ExactRoundTrip(value: nat)
    requires 100 <= value <= 599
    ensures ParseStatus(Decimal(value)) == Some(Exact(value))
  {
    ParseInvertsDecimal(value, 65536);
    DecimalIsDigits(value);
    assert Decimal(value)[|Decimal(value)| - 1] in Decimal(value);
  }

  lemma RangeRoundTrip(hundreds: nat)
    requires 1 <= hundreds <= 5
    ensures ParseStatus(Decimal(hundreds) + "xx") == Some(Range(hundreds * 100, hundreds * 100 + 99))
  {
    ParseInvertsDecimal(hundreds, 65536);
    var s := Decimal(hundreds) + "xx";
    assert s[..|s| - 2] == Decimal(hundreds);
  }

  /** Printing and parsing a matcher gives it back exactly when some configuration string parses to it. */
  lemma StatusRoundTrip(m: StatusMatcher)
    ensures ParseStatus(m.AsConfigString()) == Some(m) <==> m.Parseable()
  {
    ParsedIsParseable(m.AsConfigString());
    if m.Parseable() {
      match m {
        case Exact(value) => ExactRoundTrip(value);
        case Range(first, last) => RangeRoundTrip(first / 100);
      }
    }
  }

  ghost predicate ReadsAs(digits: string, value: nat) {
    ParseUnsigned(digits, 65536) == Some(value)
  }

  ghost predicate SpellsHundred(text: string, hundreds: nat) {
    exists digits :: text == digits + "xx" && ReadsAs(digits, hundreds)
  }

  ghost predicate SpellsRange(text: string, first: nat, last: nat) {
    exists a, b :: text == a + "-" + b && ReadsAs(a, first) && ReadsAs(b, last)
  }

  /**
   What is printed: the number, the hundreds of a whole hundred, or both ends of any other range; a range can also wrap
   into a whole hundred.
   */
  lemma PrintedStatusSpells(m: StatusMatcher)
    ensures m.Exact? ==> ReadsAs(m.AsConfigString(), m.status)
    ensures m.Range? ==>
              if m.start % 100 == 0 && m.end == (m.start + 99) % 65536
              then SpellsHundred(m.AsConfigString(), m.start / 100)
              else SpellsRange(m.AsConfigString(), m.start, m.end)
  {
    if m.Exact? {
      ParseInvertsDecimal(m.status, 65536);
    } else if m.start % 100 == 0 && m.end == (m.start + 99) % 65536 {
      HundredSpells(m.start / 100);
    } else {
      RangeSpells(m.start, m.end);
    }
  }

  lemma HundredSpells(hundreds: U16)
    ensures SpellsHundred(Decimal(hundreds) + "xx", hundreds)
  {
    ParseInvertsDecimal(hundreds, 65536);
    assert ReadsAs(Decimal(hundreds), hundreds);
  }

  lemma RangeSpells(first: U16, last: U16)
    ensures SpellsRange(Decimal(first) + "-" + Decimal(last), first, last)
  {
    ParseInvertsDecimal(first, 65536);
    ParseInvertsDecimal(last, 65536);
    assert ReadsAs(Decimal(first), first) && ReadsAs(Decimal(last), last);
  }

  /** What a configured status means: "4xx" all of its hundred, any other accepted string the one status it spells. */
  lemma StatusStringsDenote(raw: string, status: U16)
    requires ParseStatus(raw).Some?
    ensures ParseStatus(raw).value.Matches(status)
            <==> if |raw| >= 2
            && raw[|raw| - 2..] == "xx" then ParseUnsigned(raw[..|raw| - 2], 65536) == Some(status / 100)
                 else ParseUnsigned(raw, 65536) == Some(status)
  {
    if |raw| >= 2 {
      assert raw[|raw| - 2..] == [raw[|raw| - 2], raw[|raw| - 1]];
      assert "xx" == ['x', 'x'];
    }
  }

  // --- Rules and classifiers --------------------------------------------------------------------

  datatype Matcher = Matcher(codes: seq<string>, limitTypes: seq<string>, statuses: seq<StatusMatcher>)
  {
    predicate IsEmpty() {
      codes == [] && limitTypes == [] && statuses == []
    }

    predicate Matches(evidence: Evidence) {
      && (codes == [] || (evidence.code.Some? && evidence.code.value in codes))
      && (limitTypes == [] || (evidence.limitType.Some? && evidence.limitType.value in limitTypes))
      && (statuses == [] || MatchesStatus(statuses, evidence.status))
    }
  }

  datatype Action = Action(
    kind: Option<FailureKind>, primaryScope: Option<FailureScope>, retryable: Option<bool>, cooldown: Option<Duration>)

  datatype Rule = Rule(id: string, enabled: bool, matcher: Matcher, action: Action)
  {
    predicate Matches(evidence: Evidence) {
      enabled && Trim(id) != "" && !matcher.IsEmpty() && matcher.Matches(evidence)
    }
  }

  /** What is known of a response once its body has been parsed. */
  datatype Evidence = Evidence(status: U16, code: Option<string>, limitType: Option<string>,
                               hasTopLevelErrorObject: bool)

  datatype Classifier = Classifier(
    relayProfile: RelayProfile, balanceScope: BalanceScope,
    keepCodes: seq<string>, switchCodes: seq<string>, expireCodes: seq<string>,
    keepStatuses: seq<StatusMatcher>, switchStatuses: seq<StatusMatcher>, expireStatuses: seq<StatusMatcher>,
    rules: seq<Rule>)

  datatype Verdict = Verdict(kind: FailureKind, scope: FailureScope, retryable: bool, confidence: FailureConfidence)

  datatype ClassifiedFailure = ClassifiedFailure(
    kind: FailureKind, primaryScope: FailureScope, retryable: bool, cooldown: Option<Duration>,
    retryAfterSource: Option<RetryAfterSource>, confidence: FailureConfidence, upstreamStatus: Option<U16>,
    upstreamCode: Option<string>, upstreamLimitType: Option<string>, adaptationRuleId: Option<string>)

  predicate MatchesStatus(matchers: seq<StatusMatcher>, status: U16) {
    exists i :: 0 <= i < |matchers| && matchers[i].Matches(status)
  }

  // --- Base classification ----------------------------------------------------------------------

  function ClassifyCode(c: Classifier, code: string): Option<Verdict> {
    if code in c.keepCodes then
      Some(if code == "key_switch_cooldown" then Verdict(KeySwitchCooldown, CredentialScope, false, High)
           else if code == "model_not_found" || code == "unsupported_endpoint" || code == "unsupported_parameter" then
             Verdict(ClientError, ModelGroup, false, Medium)
           else Verdict(Unknown, RequestOnly, false, Low))
    else if code in c.expireCodes then
      Some(Verdict(AuthInvalid, CredentialScope, false, if code == "invalid_api_key" then High else Low))
    else if code in c.switchCodes then
      Some(if code == "insufficient_quota" || code == "quota_exceeded" || code == "billing_hard_limit_reached" then
             BalanceVerdict(c.balanceScope)
           else if code == "rate_limit_exceeded" || code == "rate_limit_cooldown" then
             Verdict(RateLimited, CredentialScope, true, Medium)
           else Verdict(RateLimited, CredentialScope, true, Low))
    else if code == "key_switch_cooldown" then Some(Verdict(KeySwitchCooldown, CredentialScope, false, High))
    else if code == "model_not_found" || code == "unsupported_endpoint" || code == "unsupported_parameter" then
      Some(Verdict(ClientError, ModelGroup, false, Medium))
    else None
  }

  function BalanceVerdict(scope: BalanceScope): Verdict {
    match scope
    case OnCredential => Verdict(QuotaExhausted, CredentialScope, false, Medium)
    case OnChannel => Verdict(RelayBalanceUnavailable, ChannelScope, true, Medium)
    case OnAccount => Verdict(Unknown, AccountScope, false, Medium)
    case OnProvider => Verdict(Unknown, ProviderAdapter, false, Medium)
    case OnClientToken => Verdict(Unknown, ClientTokenScope, false, Medium)
  }

  function ClassifyStatus(c: Classifier, status: U16): Verdict {
    if MatchesStatus(c.keepStatuses, status) then Verdict(Unknown, RequestOnly, false, Low)
    else if MatchesStatus(c.expireStatuses, status) then
      if !c.relayProfile.OfficialOpenAi? && (status == 401 || status == 403)
      then Verdict(ClientError, RequestOnly, false, Medium)
      else Verdict(AuthInvalid, CredentialScope, false, Medium)
    else if MatchesStatus(c.switchStatuses, status) then
      if 500 <= status <= 599 then Verdict(ProviderUnavailable, ChannelScope, true, Low)
      else Verdict(RateLimited, CredentialScope, true, Low)
    else if status == 429 then Verdict(RateLimited, CredentialScope, false, Low)
    else Verdict(Unknown, RequestOnly, false, Low)
  }

  /** A top-level error object without a code keeps only some of the status verdicts. */
  function ClassifyCodeLess(c: Classifier, status: U16): Verdict {
    var v := ClassifyStatus(c, status);
    if || (v.kind.ProviderUnavailable? && v.scope.ChannelScope? && v.retryable)
       || (v.kind.RateLimited? && v.scope.CredentialScope?)
       || (v.kind.ClientError? && v.scope.RequestOnly? && !v.retryable)
    then v
    else Verdict(ClientError, RequestOnly, false, Medium)
  }

  function BaseVerdict(c: Classifier, evidence: Evidence): Verdict {
    var byCode := if evidence.code.Some? then ClassifyCode(c, evidence.code.value) else None;
    if byCode.Some? then byCode.value
    else if evidence.code.None? && evidence.hasTopLevelErrorObject then ClassifyCodeLess(c, evidence.status)
    else ClassifyStatus(c, evidence.status)
  }

  // --- When each verdict is reached -------------------------------------------------------------

  const QUOTA_CODES := {"insufficient_quota", "quota_exceeded", "billing_hard_limit_reached"}
  const MODEL_CODES := {"model_not_found", "unsupported_endpoint", "unsupported_parameter"}

  /** The code is listed or known, so that the status is not consulted. */
  predicate CodeDecides(c: Classifier, evidence: Evidence) {
    && evidence.code.Some?
    && var code := evidence.code.value;
       code in c.keepCodes || code in c.expireCodes || code in c.switchCodes || code == "key_switch_cooldown"
       || code in MODEL_CODES
  }

  /** Listed for switching, and for neither keeping nor expiring, which come first. */
  predicate SwitchesByCode(c: Classifier, code: string) {
    code !in c.keepCodes && code !in c.expireCodes && code in c.switchCodes
  }

  predicate SwitchesByStatus(c: Classifier, status: U16) {
    && !MatchesStatus(c.keepStatuses, status) && !MatchesStatus(c.expireStatuses, status)
    && MatchesStatus(c.switchStatuses, status)
  }

  /**
   A failure is retryable exactly when its code switches, quota codes only if balances belong to the channel, or when
   no code decides and its status switches; a missing code under a top-level error object makes no difference.
   */
  lemma RetryableExactly(c: Classifier, evidence: Evidence)
    ensures BaseVerdict(c, evidence).retryable
            <==> if CodeDecides(c, evidence) then
                   SwitchesByCode(c, evidence.code.value)
                   && (evidence.code.value in QUOTA_CODES ==> c.balanceScope.OnChannel?)
                 else
                   SwitchesByStatus(c, evidence.status)
  {
  }

  /**
   A credential is reported invalid exactly when its code expires it, or when no code decides and the status expires
   it: never by a status under a code-less error object, and never by 401 or 403 from a relay.
   */
  lemma AuthInvalidExactly(c: Classifier, evidence: Evidence)
    ensures BaseVerdict(c, evidence).kind.AuthInvalid?
            <==> if CodeDecides(c, evidence) then
                   evidence.code.value !in c.keepCodes && evidence.code.value in c.expireCodes
                 else
                   && !(evidence.code.None? && evidence.hasTopLevelErrorObject)
                   && !MatchesStatus(c.keepStatuses, evidence.status)
                   && MatchesStatus(c.expireStatuses, evidence.status)
                   && (c.relayProfile.OfficialOpenAi? || evidence.status !in {401, 403})
  {
  }

  /** Rate limits, provider failures and exhausted balances are told apart by the quota codes, the 5xx range and 429. */
  lemma SwitchVerdictsExactly(c: Classifier, evidence: Evidence)
    ensures var v, decided, status := BaseVerdict(c, evidence), CodeDecides(c, evidence), evidence.status;
            && (v.kind.RateLimited?
                <==> if decided then SwitchesByCode(c, evidence.code.value) && evidence.code.value !in QUOTA_CODES
                     else || (SwitchesByStatus(c, status) && !(500 <= status <= 599))
                          || (status == 429 && !MatchesStatus(c.keepStatuses, status)
                              && !MatchesStatus(c.expireStatuses, status)))
            && (v.kind.ProviderUnavailable? <==> !decided && SwitchesByStatus(c, status) && 500 <= status <= 599)
            && (v.kind.QuotaExhausted? || v.kind.RelayBalanceUnavailable?
                <==> decided && SwitchesByCode(c, evidence.code.value) && evidence.code.value in QUOTA_CODES
                     && c.balanceScope in {OnCredential, OnChannel})
  {
  }

  /** The code is kept, or known without being listed for expiring or switching. */
  predicate KeepsByCode(c: Classifier, code: string) {
    code in c.keepCodes || (code !in c.expireCodes && code !in c.switchCodes)
  }

  /** An error object without a code. */
  predicate CodeLess(evidence: Evidence) {
    evidence.code.None? && evidence.hasTopLevelErrorObject
  }

  /** The status is read as a rate limit or a provider failure. */
  predicate LimitsByStatus(c: Classifier, status: U16) {
    SwitchesByStatus(c, status)
    || (status == 429 && !MatchesStatus(c.keepStatuses, status) && !MatchesStatus(c.expireStatuses, status))
  }

  /** A relay's 401 or 403 that would expire a credential of the official provider. */
  predicate RelayRefusal(c: Classifier, status: U16) {
    && !c.relayProfile.OfficialOpenAi? && status in {401, 403}
    && !MatchesStatus(c.keepStatuses, status) && MatchesStatus(c.expireStatuses, status)
  }

  /** A quota code that switches says that the balance of the configured owner is spent, and nothing else says so. */
  lemma BalanceVerdictsExactly(c: Classifier, evidence: Evidence)
    ensures var v := BaseVerdict(c, evidence);
            var spent := CodeDecides(c, evidence) && SwitchesByCode(c, evidence.code.value)
                && evidence.code.value in QUOTA_CODES;
            && (v.kind.QuotaExhausted? <==> spent && c.balanceScope.OnCredential?)
            && (v.kind.QuotaExhausted? ==> v == Verdict(QuotaExhausted, CredentialScope, false, Medium))
            && (v.kind.RelayBalanceUnavailable? <==> spent && c.balanceScope.OnChannel?)
            && (v.kind.RelayBalanceUnavailable? ==> v == Verdict(RelayBalanceUnavailable, ChannelScope, true, Medium))
            && (v.scope.AccountScope? <==> spent && c.balanceScope.OnAccount?)
            && (v.scope.ProviderAdapter? <==> spent && c.balanceScope.OnProvider?)
            && (v.scope.ClientTokenScope? <==> spent && c.balanceScope.OnClientToken?)
  {
  }

  /** A key-switch cooldown is reported exactly when its code is kept, by list or for want of another listing. */
  lemma KeySwitchExactly(c: Classifier, evidence: Evidence)
    ensures var v := BaseVerdict(c, evidence);
            && (v.kind.KeySwitchCooldown?
                <==> evidence.code == Some("key_switch_cooldown") && KeepsByCode(c, "key_switch_cooldown"))
            && (v.kind.KeySwitchCooldown? ==> v == Verdict(KeySwitchCooldown, CredentialScope, false, High))
  {
  }

  /** Client errors: a kept model code, a relay's refusal, or an error object without a code that is no limit. */
  lemma ClientErrorsExactly(c: Classifier, evidence: Evidence)
    ensures var v, decided, status := BaseVerdict(c, evidence), CodeDecides(c, evidence), evidence.status;
            && (v.kind.ClientError? && v.scope.ModelGroup?
                <==> evidence.code.Some? && evidence.code.value in MODEL_CODES && KeepsByCode(c, evidence.code.value))
            && (v.scope.ModelGroup? ==> v == Verdict(ClientError, ModelGroup, false, Medium))
            && (v.kind.ClientError? && v.scope.RequestOnly?
                <==> !decided && (RelayRefusal(c, status) || (CodeLess(evidence) && !LimitsByStatus(c, status))))
            && (v.kind.ClientError? && v.scope.RequestOnly? ==> v == Verdict(ClientError, RequestOnly, false, Medium))
            && (v.kind.ClientError? ==> v.scope.ModelGroup? || v.scope.RequestOnly?)
  {
  }

  /** What remains is unknown: a kept code or status, a status nobody lists, or a balance nobody here owns. */
  lemma UnknownExactly(c: Classifier, evidence: Evidence)
    ensures var v, decided, status := BaseVerdict(c, evidence), CodeDecides(c, evidence), evidence.status;
            && (v.kind.Unknown? && v.scope.RequestOnly?
                <==> if decided then
                       evidence.code.value in c.keepCodes && evidence.code.value !in MODEL_CODES
                       && evidence.code.value != "key_switch_cooldown"
                     else
                       && !CodeLess(evidence) && !LimitsByStatus(c, status)
                       && (MatchesStatus(c.keepStatuses, status) || !MatchesStatus(c.expireStatuses, status)))
            && (v.kind.Unknown? && v.scope.RequestOnly? ==> v == Verdict(Unknown, RequestOnly, false, Low))
            && (v.kind.Unknown? ==> v.scope in {RequestOnly, AccountScope, ProviderAdapter, ClientTokenScope})
            && !v.kind.ResponseFilterRejected?
  {
  }

  /** Scope and confidence of the limits and of an invalid credential. */
  lemma LimitVerdictsInFull(c: Classifier, evidence: Evidence)
    ensures var v, decided := BaseVerdict(c, evidence), CodeDecides(c, evidence);
            && (v.kind.RateLimited? ==>
                  && v.scope.CredentialScope?
                  && v.confidence == if decided && evidence.code.value in {"rate_limit_exceeded", "rate_limit_cooldown"}
                                     then Medium else Low)
            && (v.kind.ProviderUnavailable? ==> v == Verdict(ProviderUnavailable, ChannelScope, true, Low))
            && (v.kind.AuthInvalid? ==>
                  && v.scope.CredentialScope?
                  && v.confidence == if !decided then Medium
                                     else if evidence.code.value == "invalid_api_key" then High else Low)
  {
  }

  // --- Retry-After (RFC 9110, section 10.2.3) ---------------------------------------------------

  function AsciiLower(s: string): string {
    seq(|s|, i requires 0 <= i < |s| => if 'A' <= s[i] <= 'Z' then (s[i] as int + 32) as char else s[i])
  }

  /** The first Retry-After header, as delta seconds or as a date the given parser understands. */
  function RetryAfter(headers: seq<(string, string)>, now: nat, parseDate: string -> Option<nat>):
    (Option<Duration>, Option<RetryAfterSource>)
  {
    if headers == [] then (None, None)
    else if AsciiLower(headers[0].0) != "retry-after" then RetryAfter(headers[1..], now, parseDate)
    else
      var value := Trim(headers[0].1);
      var seconds, date := ParseUnsigned(value, 0x1_0000_0000_0000_0000), parseDate(value);
      if seconds.Some? then (Some(FromSecs(seconds.value)), Some(DeltaSeconds))
      else if date.Some? then (Some(if date.value >= now then date.value - now else 0), Some(HttpDate))
      else (None, None)
  }

  predicate IsRetryAfter(header: (string, string)) {
    AsciiLower(header.0) == "retry-after"
  }

  lemma {:induction false} OnlyTheFirstCounts(headers: seq<(string, string)>, i: nat, now: nat,
                                              parseDate: string -> Option<nat>)
    requires i <= |headers| && forall j :: 0 <= j < i ==> !IsRetryAfter(headers[j])
    ensures RetryAfter(headers, now, parseDate) == RetryAfter(headers[i..], now, parseDate)
  {
    if i == 0 {
      assert headers[0..] == headers;
    } else {
      OnlyTheFirstCounts(headers[1..], i - 1, now, parseDate);
      assert headers[1..][i - 1..] == headers[i..];
    }
  }

  /** The value is read as a number of seconds. */
  predicate ReadsAsSeconds(value: string) {
    IsNumeral(Unsigned(value)) && DigitsValue(Unsigned(value)).Some?
    && DigitsValue(Unsigned(value)).value < 0x1_0000_0000_0000_0000
  }

  /**
   Only the first Retry-After header counts, whatever its letter case. Its trimmed value is read as seconds exactly
   when it is an optional plus sign and digits below 2^64, else as a date when it parses as one; a date in the past
   gives no wait, and anything else neither wait nor source.
   */
  lemma RetryAfterReadsExactly(headers: seq<(string, string)>, i: nat, now: nat, parseDate: string -> Option<nat>)
    requires i < |headers| && IsRetryAfter(headers[i]) && forall j :: 0 <= j < i ==> !IsRetryAfter(headers[j])
    ensures var (wait, source) := RetryAfter(headers, now, parseDate);
            var value := Trim(headers[i].1);
            && (source == Some(DeltaSeconds) <==> ReadsAsSeconds(value))
            && (ReadsAsSeconds(value) ==> wait == Some(FromSecs(DigitsValue(Unsigned(value)).value)))
            && (source == Some(HttpDate) <==> !ReadsAsSeconds(value) && parseDate(value).Some?)
            && (source == Some(HttpDate) ==>
                  wait.Some?
                  && wait.value + now == if parseDate(value).value > now then parseDate(value).value else now)
            && (wait.Some? <==> source.Some?)
  {
    OnlyTheFirstCounts(headers, i, now, parseDate);
    ParsesExactly(Trim(headers[i].1), 0x1_0000_0000_0000_0000);
  }

  lemma NoRetryAfter(headers: seq<(string, string)>, now: nat, parseDate: string -> Option<nat>)
    requires forall header <- headers :: !IsRetryAfter(header)
    ensures RetryAfter(headers, now, parseDate) == (None, None)
  {
    OnlyTheFirstCounts(headers, |headers|, now, parseDate);
    assert headers[|headers|..] == [];
  }

  /**
   Of the values read as seconds, those in the form of section 10.2.3 (digits only) are exactly those without the plus
   sign.
   */
  lemma RfcFormExactly(value: string)
    requires ReadsAsSeconds(value)
    ensures IsNumeral(value) <==> value[0] != '+'
  {
    if value[0] == '+' {
      assert '+' in value && !IsDigit('+');
    }
  }

  /** The code accepts a value that the RFC form excludes. */
  lemma PlusSignExample(now: nat, parseDate: string -> Option<nat>)
    ensures RetryAfter([("Retry-After", "+5")], now, parseDate) == (Some(FromSecs(5)), Some(DeltaSeconds))
    ensures !IsNumeral("+5")
  {
    var headers := [("Retry-After", "+5")];
    assert AsciiLower("Retry-After") == "retry-after";
    assert TrimStart("+5") == "+5" && TrimEnd("+5") == "+5";
    assert Unsigned("+5") == "5" && DigitsValue("5") == Some(5);
    RetryAfterReadsExactly(headers, 0, now, parseDate);
    assert "+5"[0] == '+' && '+' in "+5" && !IsDigit('+');
  }

  // --- Adaptation rules -------------------------------------------------------------------------

  /** The first matching rule. */
  function FirstMatch(rules: seq<Rule>, evidence: Evidence): Option<Rule> {
    if rules == [] then None
    else if rules[0].Matches(evidence) then Some(rules[0])
    else FirstMatch(rules[1..], evidence)
  }

  function Adapt(failure: ClassifiedFailure, rule: Rule): ClassifiedFailure {
    failure.(
      kind := if rule.action.kind.Some? then rule.action.kind.value else failure.kind,
      primaryScope := if rule.action.primaryScope.Some? then rule.action.primaryScope.value else failure.primaryScope,
      retryable := if rule.action.retryable.Some? then rule.action.retryable.value else failure.retryable,
      cooldown := if failure.cooldown.Some? then failure.cooldown else rule.action.cooldown,
      adaptationRuleId := Some(rule.id))
  }

  /** The failure before adaptation. */
  function Unadapted(c: Classifier, evidence: Evidence,
                     wait: (Option<Duration>, Option<RetryAfterSource>)): ClassifiedFailure {
    var v := BaseVerdict(c, evidence);
    ClassifiedFailure(v.kind, v.scope, v.retryable, wait.0, wait.1, v.confidence, Some(evidence.status),
                      evidence.code, evidence.limitType, None)
  }

  function Classified(c: Classifier, evidence: Evidence,
                      wait: (Option<Duration>, Option<RetryAfterSource>)): ClassifiedFailure {
    var rule := FirstMatch(c.rules, evidence);
    if rule.Some? then Adapt(Unadapted(c, evidence, wait), rule.value) else Unadapted(c, evidence, wait)
  }

  /** `apply_adaptation_rules`: finds the first matching rule and overwrites the fields it sets. */
  method ApplyAdaptationRules(c: Classifier, evidence: Evidence, before: ClassifiedFailure)
    returns (failure: ClassifiedFailure)
    ensures var rule := FirstMatch(c.rules, evidence);
            failure == if rule.Some? then Adapt(before, rule.value) else before
  {
    failure := before;
    var i := 0;
    while i < |c.rules| && !c.rules[i].Matches(evidence)
      invariant i <= |c.rules| && FirstMatch(c.rules, evidence) == FirstMatch(c.rules[i..], evidence)
    {
      assert c.rules[i..][1..] == c.rules[i + 1..];
      i := i + 1;
    }
    if i == |c.rules| {
      return;
    }
    var rule := c.rules[i];
    if rule.action.kind.Some? {
      failure := failure.(kind := rule.action.kind.value);
    }
    if rule.action.primaryScope.Some? {
      failure := failure.(primaryScope := rule.action.primaryScope.value);
    }
    if rule.action.retryable.Some? {
      failure := failure.(retryable := rule.action.retryable.value);
    }
    if rule.action.cooldown.Some? && failure.cooldown.None? {
      failure := failure.(cooldown := rule.action.cooldown);
    }
    failure := failure.(adaptationRuleId := Some(rule.id));
  }

  method ClassifyFailure(c: Classifier, evidence: Evidence, headers: seq<(string, string)>, now: nat,
                         parseDate: string -> Option<nat>)
    returns (failure: ClassifiedFailure)
    ensures failure == Classified(c, evidence, RetryAfter(headers, now, parseDate))
  {
    var v := BaseVerdict(c, evidence);
    var (cooldown, retryAfterSource) := RetryAfter(headers, now, parseDate);
    var base := ClassifiedFailure(v.kind, v.scope, v.retryable, cooldown, retryAfterSource, v.confidence,
                                  Some(evidence.status), evidence.code, evidence.limitType, None);
    failure := ApplyAdaptationRules(c, evidence, base);
  }

  // --- Rules that cannot matter -----------------------------------------------------------------

  function EnabledRules(rules: seq<Rule>): seq<Rule> {
    if rules == [] then []
    else (if rules[0].enabled then [rules[0]] else []) + EnabledRules(rules[1..])
  }

  lemma {:induction false} FirstMatchSkipsDisabled(rules: seq<Rule>, evidence: Evidence)
    ensures FirstMatch(EnabledRules(rules), evidence) == FirstMatch(rules, evidence)
  {
    if rules != [] {
      FirstMatchSkipsDisabled(rules[1..], evidence);
      if rules[0].enabled {
        assert EnabledRules(rules)[1..] == EnabledRules(rules[1..]);
      } else {
        assert EnabledRules(rules) == EnabledRules(rules[1..]);
      }
    }
  }

  lemma {:induction false} FirstMatchStopsEarly(rules: seq<Rule>, evidence: Evidence, i: nat)
    requires i < |rules| && rules[i].Matches(evidence)
    ensures FirstMatch(rules[..i + 1], evidence) == FirstMatch(rules, evidence)
  {
    if i > 0 && !rules[0].Matches(evidence) {
      FirstMatchStopsEarly(rules[1..], evidence, i - 1);
      assert rules[1..][..i] == rules[..i + 1][1..];
    }
  }

  lemma SameBaseVerdict(c: Classifier, rules: seq<Rule>, evidence: Evidence)
    ensures BaseVerdict(c.(rules := rules), evidence) == BaseVerdict(c, evidence)
  {
    var c' := c.(rules := rules);
    assert ClassifyStatus(c', evidence.status) == ClassifyStatus(c, evidence.status);
    if evidence.code.Some? {
      assert ClassifyCode(c', evidence.code.value) == ClassifyCode(c, evidence.code.value);
    }
  }

  /** The classification depends on the rules only through the first match. */
  lemma SameFirstMatch(c: Classifier, rules: seq<Rule>, evidence: Evidence,
                       wait: (Option<Duration>, Option<RetryAfterSource>))
    requires FirstMatch(rules, evidence) == FirstMatch(c.rules, evidence)
    ensures Classified(c.(rules := rules), evidence, wait) == Classified(c, evidence, wait)
  {
    SameBaseVerdict(c, rules, evidence);
  }

  /** Disabled rules, and all rules after one that matches, can be deleted without changing the classification. */
  lemma IrrelevantRules(c: Classifier, evidence: Evidence, wait: (Option<Duration>, Option<RetryAfterSource>), i: nat)
    ensures Classified(c.(rules := EnabledRules(c.rules)), evidence, wait) == Classified(c, evidence, wait)
    ensures i < |c.rules| && c.rules[i].Matches(evidence) ==>
              Classified(c.(rules := c.rules[..i + 1]), evidence, wait) == Classified(c, evidence, wait)
  {
    FirstMatchSkipsDisabled(c.rules, evidence);
    SameFirstMatch(c, EnabledRules(c.rules), evidence, wait);
    if i < |c.rules| && c.rules[i].Matches(evidence) {
      FirstMatchStopsEarly(c.rules, evidence, i);
      SameFirstMatch(c, c.rules[..i + 1], evidence, wait);
    }
  }

  lemma {:induction false} FirstMatchIsARule(rules: seq<Rule>, evidence: Evidence)
    ensures var r := FirstMatch(rules, evidence); r.Some? ==> r.value in rules && r.value.Matches(evidence)
  {
    if rules != [] {
      FirstMatchIsARule(rules[1..], evidence);
    }
  }

  /**
   The failure repeats the evidence and the wait, takes its verdict from the base, and names no rule if none matches.
   */
  lemma UnadaptedInFull(c: Classifier, evidence: Evidence, wait: (Option<Duration>, Option<RetryAfterSource>))
    ensures var f, v := Classified(c, evidence, wait), BaseVerdict(c, evidence);
            && f.upstreamStatus == Some(evidence.status) && f.upstreamCode == evidence.code
            && f.upstreamLimitType == evidence.limitType && f.retryAfterSource == wait.1 && f.confidence == v.confidence
            && ((forall rule <- c.rules :: !rule.Matches(evidence)) ==>
                  && f.kind == v.kind && f.primaryScope == v.scope && f.retryable == v.retryable && f.cooldown == wait.0
                  && f.adaptationRuleId == None)
  {
    FirstMatchIsARule(c.rules, evidence);
  }

  /**
   The first rule that matches sets exactly the fields its action gives; a wait from the response is never replaced.
   */
  lemma AdaptedInFull(c: Classifier, evidence: Evidence, wait: (Option<Duration>, Option<RetryAfterSource>), i: nat)
    requires i < |c.rules| && c.rules[i].Matches(evidence) && forall j :: 0 <= j < i ==> !c.rules[j].Matches(evidence)
    ensures var f, v, action := Classified(c, evidence, wait), BaseVerdict(c, evidence), c.rules[i].action;
            && (if action.kind.Some? then f.kind == action.kind.value else f.kind == v.kind)
            && f.primaryScope == (if action.primaryScope.Some? then action.primaryScope.value else v.scope)
            && (if action.retryable.Some? then f.retryable == action.retryable.value else f.retryable == v.retryable)
            && (if wait.0.Some? then f.cooldown == wait.0 else f.cooldown == action.cooldown)
            && f.adaptationRuleId == Some(c.rules[i].id)
  {
    FirstMatchAtIndex(c.rules, evidence, i);
  }

  lemma {:induction false} FirstMatchAtIndex(rules: seq<Rule>, evidence: Evidence, i: nat)
    requires i < |rules| && rules[i].Matches(evidence) && forall j :: 0 <= j < i ==> !rules[j].Matches(evidence)
    ensures FirstMatch(rules, evidence) == Some(rules[i])
  {
    if i > 0 {
      FirstMatchAtIndex(rules[1..], evidence, i - 1);
    }
  }

  // --- Building and snapshots -------------------------------------------------------------------

  datatype Spec = Spec(
    relayProfile: RelayProfile, balanceScope: BalanceScope,
    keepCodes: Option<seq<string>>, switchCodes: Option<seq<string>>, expireCodes: Option<seq<string>>,
    keepStatuses: Option<seq<string>>, switchStatuses: Option<seq<string>>, expireStatuses: Option<seq<string>>,
    rules: seq<Rule>)

  const DEFAULT := Classifier(
    OfficialOpenAi, OnCredential, ["key_switch_cooldown"],
    ["insufficient_quota", "quota_exceeded", "rate_limit_exceeded", "rate_limit_cooldown",
     "billing_hard_limit_reached"],
    ["invalid_api_key"], [], [Exact(502), Exact(503), Exact(504)], [Exact(401), Exact(403)], [])

  function ParseAll(raw: seq<string>): Option<seq<StatusMatcher>> {
    if raw == [] then Some([])
    else
      match ParseStatus(raw[0])
      case None => None
      case Some(m) =>
        match ParseAll(raw[1..])
        case None => None
        case Some(rest) => Some([m] + rest)
  }

  function ParseStatuses(raw: Option<seq<string>>, default: seq<StatusMatcher>): Option<seq<StatusMatcher>> {
    if raw.Some? then ParseAll(raw.value) else Some(default)
  }

  function OrElse<T>(configured: Option<T>, default: T): T {
    if configured.Some? then configured.value else default
  }

  /** `ErrorClassifierSpec::build`: fails when a status does not parse. */
  function Build(spec: Spec): Option<Classifier> {
    var keep := ParseStatuses(spec.keepStatuses, DEFAULT.keepStatuses);
    var switch := ParseStatuses(spec.switchStatuses, DEFAULT.switchStatuses);
    var expire := ParseStatuses(spec.expireStatuses, DEFAULT.expireStatuses);
    if keep.None? || switch.None? || expire.None? then None
    else Some(Classifier(
      spec.relayProfile, spec.balanceScope,
      OrElse(spec.keepCodes, DEFAULT.keepCodes), OrElse(spec.switchCodes, DEFAULT.switchCodes),
      OrElse(spec.expireCodes, DEFAULT.expireCodes), keep.value, switch.value, expire.value, spec.rules))
  }

  function PrintAll(matchers: seq<StatusMatcher>): seq<string> {
    if matchers == [] then [] else [matchers[0].AsConfigString()] + PrintAll(matchers[1..])
  }

  /** The configuration a snapshot spells out. */
  function SnapshotSpec(c: Classifier): Spec {
    Spec(c.relayProfile, c.balanceScope, Some(c.keepCodes), Some(c.switchCodes), Some(c.expireCodes),
         Some(PrintAll(c.keepStatuses)), Some(PrintAll(c.switchStatuses)), Some(PrintAll(c.expireStatuses)), c.rules)
  }

  lemma {:induction false} ParseInvertsPrint(matchers: seq<StatusMatcher>)
    requires forall m <- matchers :: m.Parseable()
    ensures ParseAll(PrintAll(matchers)) == Some(matchers)
  {
    if matchers != [] {
      StatusRoundTrip(matchers[0]);
      ParseInvertsPrint(matchers[1..]);
      assert PrintAll(matchers)[1..] == PrintAll(matchers[1..]);
      assert [matchers[0]] + matchers[1..] == matchers;
    }
  }

  lemma {:induction false} ParsedAreParseable(raw: seq<string>)
    ensures ParseAll(raw).Some? ==> forall m <- ParseAll(raw).value :: m.Parseable()
  {
    if raw != [] {
      ParsedAreParseable(raw[1..]);
    }
  }

  /** Rebuilding from the snapshot of any classifier that was itself built gives an equal classifier. */
  lemma SnapshotRoundTrip(spec: Spec)
    ensures Build(spec).Some? ==> Build(SnapshotSpec(Build(spec).value)) == Build(spec)
  {
    if Build(spec).Some? {
      var c := Build(spec).value;
      if spec.keepStatuses.Some? { ParsedAreParseable(spec.keepStatuses.value); }
      if spec.switchStatuses.Some? { ParsedAreParseable(spec.switchStatuses.value); }
      if spec.expireStatuses.Some? { ParsedAreParseable(spec.expireStatuses.value); }
      ParseInvertsPrint(c.keepStatuses);
      ParseInvertsPrint(c.switchStatuses);
      ParseInvertsPrint(c.expireStatuses);
    }
  }
}
