/**
 Routing telemetry: what a failure observation reports (`src/failure_observer.rs`) and how it is counted
 (`src/events.rs`).
 */
module Telemetry {
  import opened Outcomes
  import opened RingBuffers

  datatype RetryDecisionReason =
    PolicyDisabled | FailureNotRetryable | BodyNotReplayable | StreamingNotRetryable | PartialOutputStarted
    | AttemptLimitReached | NoFrozenCandidate | EffectiveDeadlineExhausted | RouteTargetRetryDisabled | NoRouteCandidate
  datatype RetryDirective =
    ReturnCurrentError(reason: RetryDecisionReason) | RetryCredential(credentialId: string) | RetryRouteTarget
    | RetrySameTarget
  datatype DuplicateChargeRisk = NoRisk | UnknownRisk

  /** The fields of the failure telemetry that the retry-pressure counters read. */
  datatype FailureTelemetry = FailureTelemetry(
    directive: string, retryDecision: string, denialReason: Option<string>,
    duplicateChargeRisk: string, accounted: bool)

  datatype RoutingTelemetry = UpstreamFailureObserved(failure: FailureTelemetry) | OtherTelemetry(kind: string)

  function ReasonCode(reason: RetryDecisionReason): string {
    match reason
    case PolicyDisabled => "policy_disabled"
    case FailureNotRetryable => "failure_not_retryable"
    case BodyNotReplayable => "body_not_replayable"
    case StreamingNotRetryable => "streaming_not_retryable"
    case PartialOutputStarted => "partial_output_started"
    case AttemptLimitReached => "attempt_limit_reached"
    case NoFrozenCandidate => "no_frozen_candidate"
    case EffectiveDeadlineExhausted => "effective_deadline_exhausted"
    case RouteTargetRetryDisabled => "route_target_retry_disabled"
    case NoRouteCandidate => "no_route_candidate"
  }

  /** Directive, decision and reason codes of a retry directive. */
  function RetryDecision(directive: RetryDirective): (string, string, Option<string>) {
    match directive
    case ReturnCurrentError(reason) => ("return_error", "return_current_error", Some(ReasonCode(reason)))
    case RetryCredential(_) => ("retry_credential", "retry_credential", Some("credential_retry_allowed"))
    case RetryRouteTarget => ("retry_route_target", "retry_route_target", Some("route_target_retry_allowed"))
    case RetrySameTarget => ("retry_same_target", "retry_same_target", Some("pre_output_transient_retry_allowed"))
  }

  function RiskCode(risk: DuplicateChargeRisk): string {
    match risk
    case NoRisk => "none"
    case UnknownRisk => "unknown"
  }

  /** `upstream_failure_telemetry`. Only errors after partial output are left out of the retry-pressure accounts. */
  function Observation(directive: RetryDirective, risk: DuplicateChargeRisk): FailureTelemetry {
    var (code, decision, reason) := RetryDecision(directive);
    FailureTelemetry(code, decision, reason, RiskCode(risk), directive != ReturnCurrentError(PartialOutputStarted))
  }

  // --- Counters ---------------------------------------------------------------------------------

  datatype Counters = Counters(
    retryCredential: nat, retryRouteTarget: nat, retrySameTarget: nat, returnError: nat,
    byDenialReason: map<string, nat>, none: nat, knownNoCharge: nat, unknown: nat)

  const ZERO := Counters(0, 0, 0, 0, map[], 0, 0, 0)

  function Bump(n: nat, condition: bool): nat {
    if condition then SaturatingAdd(n, 1) else n
  }

  function BumpReason(counts: map<string, nat>, reason: Option<string>): map<string, nat> {
    if reason.None? then counts
    else counts[reason.value := SaturatingAdd(if reason.value in counts then counts[reason.value] else 0, 1)]
  }

  /** `RetryPressureCounters::observe`. */
  function Observed(c: Counters, f: FailureTelemetry): Counters {
    if !f.accounted then c
    else Counters(
      Bump(c.retryCredential, f.directive == "retry_credential"),
      Bump(c.retryRouteTarget, f.directive == "retry_route_target"),
      Bump(c.retrySameTarget, f.directive == "retry_same_target"),
      Bump(c.returnError, f.directive == "return_error" || f.directive == "return_current_error"),
      BumpReason(c.byDenialReason, f.denialReason),
      Bump(c.none, f.duplicateChargeRisk == "none"),
      Bump(c.knownNoCharge, f.duplicateChargeRisk == "known_no_charge"),
      Bump(c.unknown, f.duplicateChargeRisk == "unknown"))
  }

  /** `retry_pressure_snapshot` over the buffered events. */
  function Pressure(events: seq<RoutingTelemetry>): Counters {
    if events == [] then ZERO
    else
      var rest, last := Pressure(events[..|events| - 1]), events[|events| - 1];
      if last.UpstreamFailureObserved? then Observed(rest, last.failure) else rest
  }

  class RetryPressureCounters {
    var retryCredential: nat
    var retryRouteTarget: nat
    var retrySameTarget: nat
    var returnError: nat
    var byDenialReason: map<string, nat>
    var none: nat
    var knownNoCharge: nat
    var unknown: nat

    ghost function Contents(): Counters
      reads this
    {
      Counters(retryCredential, retryRouteTarget, retrySameTarget, returnError, byDenialReason, none, knownNoCharge,
               unknown)
    }

    constructor ()
      ensures Contents() == ZERO
    {
      retryCredential, retryRouteTarget, retrySameTarget, returnError := 0, 0, 0, 0;
      byDenialReason := map[];
      none, knownNoCharge, unknown := 0, 0, 0;
    }

    method Observe(failure: FailureTelemetry)
      modifies this
      ensures Contents() == Observed(old(Contents()), failure)
    {
      if !failure.accounted {
        return;
      }
      DirectiveCodesDiffer();
      if failure.directive == "retry_credential" {
        retryCredential := SaturatingAdd(retryCredential, 1);
      } else if failure.directive == "retry_route_target" {
        retryRouteTarget := SaturatingAdd(retryRouteTarget, 1);
      } else if failure.directive == "retry_same_target" {
        retrySameTarget := SaturatingAdd(retrySameTarget, 1);
      } else if failure.directive == "return_error" || failure.directive == "return_current_error" {
        returnError := SaturatingAdd(returnError, 1);
      }
      if failure.denialReason.Some? {
        var reason := failure.denialReason.value;
        var count := if reason in byDenialReason then byDenialReason[reason] else 0;
        byDenialReason := byDenialReason[reason := SaturatingAdd(count, 1)];
      }
      if failure.duplicateChargeRisk == "none" {
        none := SaturatingAdd(none, 1);
      } else if failure.duplicateChargeRisk == "known_no_charge" {
        knownNoCharge := SaturatingAdd(knownNoCharge, 1);
      } else if failure.duplicateChargeRisk == "unknown" {
        unknown := SaturatingAdd(unknown, 1);
      }
    }
  }

  lemma DirectiveCodesDiffer()
    ensures "retry_credential" !in {"retry_route_target", "retry_same_target"}
            && "retry_route_target" != "retry_same_target"
    ensures "return_error" !in {"retry_credential", "retry_route_target", "retry_same_target"}
    ensures "return_current_error" !in {"retry_credential", "retry_route_target", "retry_same_target"}
    ensures "none" !in {"known_no_charge", "unknown"} && "known_no_charge" != "unknown"
  {
    assert "retry_credential"[6] == 'c' && "retry_route_target"[6] == 'r' && "retry_same_target"[6] == 's';
    assert "return_error"[3] == 'u' && "return_current_error"[3] == 'u';
    assert "retry_credential"[3] == 'r' && "retry_route_target"[3] == 'r' && "retry_same_target"[3] == 'r';
    assert "none"[0] == 'n' && "known_no_charge"[0] == 'k' && "unknown"[0] == 'u';
  }

  method RetryPressureSnapshot(events: seq<RoutingTelemetry>) returns (counters: RetryPressureCounters)
    ensures fresh(counters) && counters.Contents() == Pressure(events)
  {
    counters := new RetryPressureCounters();
    for i := 0 to |events|
      invariant fresh(counters) && counters.Contents() == Pressure(events[..i])
    {
      assert events[..i + 1][..i] == events[..i];
      if events[i].UpstreamFailureObserved? {
        counters.Observe(events[i].failure);
      }
    }
    assert events[..|events|] == events;
  }

  // --- The three sums agree ---------------------------------------------------------------------

  ghost function MapSum(m: map<string, nat>): nat {
    if m == map[] then 0
    else
      var k :| k in m;
      m[k] + MapSum(m - {k})
  }

  lemma {:induction false} MapSumTakesOut(m: map<string, nat>, k: string)
    requires k in m
    ensures MapSum(m) == m[k] + MapSum(m - {k})
    decreases |m|
  {
    var first :| first in m && MapSum(m) == m[first] + MapSum(m - {first});
    if first != k {
      MapSumTakesOut(m - {first}, k);
      MapSumTakesOut(m - {k}, first);
      assert m - {first} - {k} == m - {k} - {first};
    }
  }

  lemma MapSumUpdate(m: map<string, nat>, k: string, v: nat)
    ensures MapSum(m[k := v]) == MapSum(m) - (if k in m then m[k] else 0) + v
  {
    MapSumTakesOut(m[k := v], k);
    assert m[k := v] - {k} == m - {k};
    if k in m {
      MapSumTakesOut(m, k);
    } else {
      assert m - {k} == m;
    }
  }

  lemma MapSumBoundsEntries(m: map<string, nat>, k: string)
    requires k in m
    ensures m[k] <= MapSum(m)
  {
    MapSumTakesOut(m, k);
  }

  function AccountedFailures(events: seq<RoutingTelemetry>): nat {
    if events == [] then 0
    else
      var rest, last := AccountedFailures(events[..|events| - 1]), events[|events| - 1];
      if last.UpstreamFailureObserved? && last.failure.accounted then rest + 1 else rest
  }

  ghost predicate IsObservation(event: RoutingTelemetry) {
    event.UpstreamFailureObserved? ==> exists directive, risk :: event.failure == Observation(directive, risk)
  }

  /** Every directive, denial-reason and duplicate-charge counter, each group summing to n. */
  ghost predicate SumsTo(c: Counters, n: nat) {
    && c.retryCredential + c.retryRouteTarget + c.retrySameTarget + c.returnError == n
    && MapSum(c.byDenialReason) == n
    && c.none + c.knownNoCharge + c.unknown == n
  }

  lemma ObservationCounts(c: Counters, n: nat, directive: RetryDirective, risk: DuplicateChargeRisk)
    requires SumsTo(c, n) && n < U64_MAX
    ensures var f := Observation(directive, risk); SumsTo(Observed(c, f), if f.accounted then n + 1 else n)
  {
    var f := Observation(directive, risk);
    DirectiveCodesDiffer();
    var reason := f.denialReason.value;
    if reason in c.byDenialReason {
      MapSumBoundsEntries(c.byDenialReason, reason);
    }
    MapSumUpdate(c.byDenialReason, reason, (if reason in c.byDenialReason then c.byDenialReason[reason] else 0) + 1);
  }

  /**
   In any window whose failure events are real observations, the directive counters, the denial-reason counters and
   the duplicate-charge counters each sum to the number of accounted failures.
   */
  lemma {:induction false} PressureSumsAgree(events: seq<RoutingTelemetry>)
    requires forall event <- events :: IsObservation(event)
    requires |events| <= U64_MAX
    ensures SumsTo(Pressure(events), AccountedFailures(events)) && AccountedFailures(events) <= |events|
  {
    if events != [] {
      var init, last := events[..|events| - 1], events[|events| - 1];
      PressureSumsAgree(init);
      assert IsObservation(last);
      if last.UpstreamFailureObserved? {
        var directive, risk :| last.failure == Observation(directive, risk);
        ObservationCounts(Pressure(init), AccountedFailures(init), directive, risk);
      }
    }
  }

  // --- What each counter means ------------------------------------------------------------------

  datatype DecisionGroup =
    | CredentialRetry | RouteTargetRetry | SameTargetRetry | ErrorReturned
    | Denied(reason: RetryDecisionReason) | AtRisk(given: DuplicateChargeRisk)

  datatype Decision = Decision(directive: RetryDirective, risk: DuplicateChargeRisk)
  {
    predicate Accounted() {
      directive != ReturnCurrentError(PartialOutputStarted)
    }

    /** Whether an accounted decision belongs to the group. */
    predicate In(group: DecisionGroup) {
      Accounted()
      && match group
         case CredentialRetry => directive.RetryCredential?
         case RouteTargetRetry => directive.RetryRouteTarget?
         case SameTargetRetry => directive.RetrySameTarget?
         case ErrorReturned => directive.ReturnCurrentError?
         case Denied(reason) => directive == ReturnCurrentError(reason)
         case AtRisk(given) => risk == given
    }

    function Event(): RoutingTelemetry {
      UpstreamFailureObserved(Observation(directive, risk))
    }
  }

  function Events(decisions: seq<Decision>): seq<RoutingTelemetry> {
    seq(|decisions|, i requires 0 <= i < |decisions| => decisions[i].Event())
  }

  function CountIn(decisions: seq<Decision>, group: DecisionGroup): nat {
    if decisions == [] then 0
    else CountIn(decisions[..|decisions| - 1], group) + if decisions[|decisions| - 1].In(group) then 1 else 0
  }

  lemma {:induction false} CountInBound(decisions: seq<Decision>, group: DecisionGroup)
    ensures CountIn(decisions, group) <= |decisions|
  {
    if decisions != [] {
      CountInBound(decisions[..|decisions| - 1], group);
    }
  }

  /** Length and first letter tell the codes apart. */
  function ShapeOf(reason: RetryDecisionReason): (nat, char) {
    match reason
    case PolicyDisabled => (15, 'p')
    case FailureNotRetryable => (21, 'f')
    case BodyNotReplayable => (19, 'b')
    case StreamingNotRetryable => (23, 's')
    case PartialOutputStarted => (22, 'p')
    case AttemptLimitReached => (21, 'a')
    case NoFrozenCandidate => (19, 'n')
    case EffectiveDeadlineExhausted => (28, 'e')
    case RouteTargetRetryDisabled => (27, 'r')
    case NoRouteCandidate => (18, 'n')
  }

  lemma ReasonCodeShape(reason: RetryDecisionReason)
    ensures |ReasonCode(reason)| == ShapeOf(reason).0 && ReasonCode(reason)[0] == ShapeOf(reason).1
  {
  }

  lemma ReasonCodesDiffer(a: RetryDecisionReason, b: RetryDecisionReason)
    ensures ReasonCode(a) == ReasonCode(b) ==> a == b
    ensures ReasonCode(a) !in {"credential_retry_allowed", "route_target_retry_allowed",
                               "pre_output_transient_retry_allowed"}
  {
    ReasonCodeShape(a);
    ReasonCodeShape(b);
  }

  function CountOf(counts: map<string, nat>, reason: string): nat {
    if reason in counts then counts[reason] else 0
  }

  lemma PressureOfSnoc(decisions: seq<Decision>)
    requires decisions != []
    ensures var init, last := decisions[..|decisions| - 1], decisions[|decisions| - 1];
            Pressure(Events(decisions)) == Observed(Pressure(Events(init)), Observation(last.directive, last.risk))
  {
    assert Events(decisions)[..|decisions| - 1] == Events(decisions[..|decisions| - 1]);
  }

  function One(decision: Decision, group: DecisionGroup): nat {
    if decision.In(group) then 1 else 0
  }

  lemma ObservedCounters(c: Counters, d: Decision)
    requires c.retryCredential < U64_MAX && c.retryRouteTarget < U64_MAX && c.retrySameTarget < U64_MAX
             && c.returnError < U64_MAX
    requires c.none < U64_MAX && c.unknown < U64_MAX
    ensures var c' := Observed(c, Observation(d.directive, d.risk));
            && c'.retryCredential == c.retryCredential + One(d, CredentialRetry)
            && c'.retryRouteTarget == c.retryRouteTarget + One(d, RouteTargetRetry)
            && c'.retrySameTarget == c.retrySameTarget + One(d, SameTargetRetry)
            && c'.returnError == c.returnError + One(d, ErrorReturned)
            && c'.none == c.none + One(d, AtRisk(NoRisk))
            && c'.unknown == c.unknown + One(d, AtRisk(UnknownRisk))
            && c'.knownNoCharge == c.knownNoCharge
  {
    DirectiveCodesDiffer();
  }

  /** The keys of the reason counters, as they are published. */
  const PUBLISHED: seq<(DecisionGroup, string)> := [
    (CredentialRetry, "credential_retry_allowed"),
    (RouteTargetRetry, "route_target_retry_allowed"),
    (SameTargetRetry, "pre_output_transient_retry_allowed"),
    (Denied(PolicyDisabled), "policy_disabled"),
    (Denied(FailureNotRetryable), "failure_not_retryable"),
    (Denied(BodyNotReplayable), "body_not_replayable"),
    (Denied(StreamingNotRetryable), "streaming_not_retryable"),
    (Denied(PartialOutputStarted), "partial_output_started"),
    (Denied(AttemptLimitReached), "attempt_limit_reached"),
    (Denied(NoFrozenCandidate), "no_frozen_candidate"),
    (Denied(EffectiveDeadlineExhausted), "effective_deadline_exhausted"),
    (Denied(RouteTargetRetryDisabled), "route_target_retry_disabled"),
    (Denied(NoRouteCandidate), "no_route_candidate")]

  /** The group of decisions a directive belongs to when it is accounted. */
  function GroupOf(directive: RetryDirective): DecisionGroup {
    match directive
    case ReturnCurrentError(reason) => Denied(reason)
    case RetryCredential(_) => CredentialRetry
    case RetryRouteTarget => RouteTargetRetry
    case RetrySameTarget => SameTargetRetry
  }

  /** The reason code of a group of decisions, read off an observation of it. */
  function CodeOf(group: DecisionGroup): string
    requires !group.ErrorReturned? && !group.AtRisk?
  {
    match group
    case CredentialRetry => RetryDecision(RetryCredential("")).2.value
    case RouteTargetRetry => RetryDecision(RetryRouteTarget).2.value
    case SameTargetRetry => RetryDecision(RetrySameTarget).2.value
    case Denied(reason) => RetryDecision(ReturnCurrentError(reason)).2.value
  }

  lemma PublishedAtIndex(i: nat)
    requires i < |PUBLISHED|
    ensures var group := PUBLISHED[i].0;
            !group.ErrorReturned? && !group.AtRisk? && CodeOf(group) == PUBLISHED[i].1
  {
  }

  lemma CodesDiffer(a: DecisionGroup, b: DecisionGroup)
    requires !a.ErrorReturned? && !a.AtRisk? && !b.ErrorReturned? && !b.AtRisk?
    ensures CodeOf(a) == CodeOf(b) ==> a == b
  {
    var credential, target, same := CodeOf(CredentialRetry), CodeOf(RouteTargetRetry), CodeOf(SameTargetRetry);
    assert credential[0] == 'c' && target[0] == 'r' && same[0] == 'p';
    if a.Denied? && b.Denied? {
      ReasonCodesDiffer(a.reason, b.reason);
    } else if a.Denied? {
      ReasonCodesDiffer(a.reason, a.reason);
    } else if b.Denied? {
      ReasonCodesDiffer(b.reason, b.reason);
    }
  }

  lemma ObservedReasons(c: Counters, d: Decision, group: DecisionGroup)
    requires !group.ErrorReturned? && !group.AtRisk? && CountOf(c.byDenialReason, CodeOf(group)) < U64_MAX
    ensures CountOf(Observed(c, Observation(d.directive, d.risk)).byDenialReason, CodeOf(group))
            == CountOf(c.byDenialReason, CodeOf(group)) + One(d, group)
  {
    CodesDiffer(group, GroupOf(d.directive));
  }

  /**
   Over any decisions, each directive counter is the number of accounted decisions with that directive, and the risk
   counters split them by risk; nothing is ever counted as known to be free of charge.
   */
  lemma {:induction false} CountersAreExact(decisions: seq<Decision>)
    requires |decisions| <= U64_MAX
    ensures var c := Pressure(Events(decisions));
            && c.retryCredential == CountIn(decisions, CredentialRetry)
            && c.retryRouteTarget == CountIn(decisions, RouteTargetRetry)
            && c.retrySameTarget == CountIn(decisions, SameTargetRetry)
            && c.returnError == CountIn(decisions, ErrorReturned)
            && c.none == CountIn(decisions, AtRisk(NoRisk))
            && c.unknown == CountIn(decisions, AtRisk(UnknownRisk))
            && c.knownNoCharge == 0
  {
    if decisions != [] {
      var init := decisions[..|decisions| - 1];
      CountersAreExact(init);
      PressureOfSnoc(decisions);
      forall group { CountInBound(init, group); }
      ObservedCounters(Pressure(Events(init)), decisions[|decisions| - 1]);
    }
  }

  lemma {:induction false} ReasonCounted(decisions: seq<Decision>, group: DecisionGroup)
    requires |decisions| <= U64_MAX && !group.ErrorReturned? && !group.AtRisk?
    ensures CountOf(Pressure(Events(decisions)).byDenialReason, CodeOf(group)) == CountIn(decisions, group)
  {
    if decisions != [] {
      var init := decisions[..|decisions| - 1];
      ReasonCounted(init, group);
      PressureOfSnoc(decisions);
      CountInBound(init, group);
      ObservedReasons(Pressure(Events(init)), decisions[|decisions| - 1], group);
    }
  }

  /**
   Each published reason is counted once for every decision it names: the retry reasons for retries of their kind, a
   denial reason for the errors returned for it, except after partial output.
   */
  lemma DenialCountersAreExact(decisions: seq<Decision>, i: nat)
    requires |decisions| <= U64_MAX && i < |PUBLISHED|
    ensures var (group, code) := PUBLISHED[i];
            CountOf(Pressure(Events(decisions)).byDenialReason, code) == CountIn(decisions, group)
  {
    PublishedAtIndex(i);
    ReasonCounted(decisions, PUBLISHED[i].0);
  }

  /** An observation repeats its directive as its decision, save for the error code. */
  lemma DecisionRepeatsDirective(directive: RetryDirective, risk: DuplicateChargeRisk)
    ensures var f := Observation(directive, risk);
            && f.denialReason == Some(CodeOf(GroupOf(directive)))
            && (directive.ReturnCurrentError? <==> f.directive == "return_error")
            && f.retryDecision == if f.directive == "return_error" then "return_current_error" else f.directive
  {
    DirectiveCodesDiffer();
  }

  // --- The recorder -----------------------------------------------------------------------------

  datatype LockState = Free | Contended | Poisoned

  /** The shared buffer and the counter of calls that found it locked; the counter wraps. */
  datatype Recorder<T> = Recorder(buffer: Ring<T>, contentionDrops: nat)

  /** `record_routing_telemetry_to_buffer`. */
  function RecordedCall<T>(r: Recorder<T>, lock: LockState, event: T): Recorder<T> {
    if lock.Contended? then r.(contentionDrops := (r.contentionDrops + 1) % (U64_MAX + 1))
    else r.(buffer := Apply(r.buffer, Push(event)))
  }

  /** Recorder calls, capacity changes on reload, and drops reported from outside. */
  datatype RecorderOp<T> = Call(lock: LockState, event: T) | Reload(capacity: nat) | DropElsewhere(count: nat)

  function Stepped<T>(r: Recorder<T>, op: RecorderOp<T>): Recorder<T> {
    match op
    case Call(lock, event) => RecordedCall(r, lock, event)
    case Reload(capacity) => r.(buffer := Apply(r.buffer, Resize(capacity)))
    case DropElsewhere(count) => r.(buffer := Apply(r.buffer, Drop(count)))
  }

  function RecordAll<T>(capacity: nat, ops: seq<RecorderOp<T>>): Recorder<T> {
    if ops == [] then Recorder(Ring(capacity, 0, []), 0)
    else Stepped(RecordAll(capacity, ops[..|ops| - 1]), ops[|ops| - 1])
  }

  /** What one operation does to the buffer, if it gets past the lock. */
  function Reaching<T>(op: RecorderOp<T>): seq<RingOp<T>> {
    match op
    case Call(lock, event) => if lock.Contended? then [] else [Push(event)]
    case Reload(capacity) => [Resize(capacity)]
    case DropElsewhere(count) => [Drop(count)]
  }

  function RingOps<T>(ops: seq<RecorderOp<T>>): seq<RingOp<T>> {
    if ops == [] then [] else RingOps(ops[..|ops| - 1]) + Reaching(ops[|ops| - 1])
  }

  function ContendedCalls<T>(ops: seq<RecorderOp<T>>): nat {
    if ops == [] then 0 else ContendedCalls(ops[..|ops| - 1]) + Lost(ops[|ops| - 1])
  }

  /** Calls and drops reported from outside. */
  function Reported<T>(ops: seq<RecorderOp<T>>): nat {
    if ops == [] then 0
    else
      var rest := Reported(ops[..|ops| - 1]);
      match ops[|ops| - 1]
      case Call(_, _) => rest + 1
      case Reload(_) => rest
      case DropElsewhere(count) => rest + count
  }

  lemma RunOfSnoc<T>(capacity: nat, ops: seq<RingOp<T>>, op: RingOp<T>)
    ensures Run(capacity, ops + [op]) == Apply(Run(capacity, ops), op)
    ensures Offered(ops + [op])
            == Offered(ops) + (match op case Push(_) => 1 case Drop(count) => count case Resize(_) => 0)
  {
    assert (ops + [op])[..|ops|] == ops;
  }

  /** The recorder has run some operations on its ring and lost some calls at the lock. */
  ghost predicate Amounts<T>(r: Recorder<T>, capacity: nat, ringOps: seq<RingOp<T>>, contended: nat) {
    r.buffer == Run(capacity, ringOps) && r.contentionDrops == contended % (U64_MAX + 1)
  }

  function Lost<T>(op: RecorderOp<T>): nat {
    if op.Call? && op.lock.Contended? then 1 else 0
  }

  lemma StepAmounts<T>(r: Recorder<T>, capacity: nat, ringOps: seq<RingOp<T>>, contended: nat, op: RecorderOp<T>)
    requires Amounts(r, capacity, ringOps, contended)
    ensures Amounts(Stepped(r, op), capacity, ringOps + Reaching(op), contended + Lost(op))
  {
    if Lost(op) == 1 {
      WrapOnce(contended);
      assert ringOps + [] == ringOps;
    } else {
      RunOfSnoc(capacity, ringOps, Reaching(op)[0]);
    }
  }

  lemma StepOffers<T>(ringOps: seq<RingOp<T>>, op: RecorderOp<T>)
    ensures Offered(ringOps + Reaching(op)) + Lost(op)
            == Offered(ringOps) + (match op case Call(_, _) => 1 case Reload(_) => 0 case DropElsewhere(count) => count)
  {
    if Lost(op) == 1 {
      assert ringOps + [] == ringOps;
    } else {
      RunOfSnoc(0, ringOps, Reaching(op)[0]);
    }
  }

  /** The recorder is the ring run on what gets past the lock, beside a wrapping count of what does not. */
  lemma {:induction false} RecorderIsRing<T>(capacity: nat, ops: seq<RecorderOp<T>>)
    ensures Amounts(RecordAll(capacity, ops), capacity, RingOps(ops), ContendedCalls(ops))
    ensures Offered(RingOps(ops)) + ContendedCalls(ops) == Reported(ops)
  {
    if ops != [] {
      var init, last := ops[..|ops| - 1], ops[|ops| - 1];
      RecorderIsRing(capacity, init);
      StepAmounts(RecordAll(capacity, init), capacity, RingOps(init), ContendedCalls(init), last);
      StepOffers(RingOps(init), last);
    }
  }

  lemma WrapOnce(n: nat)
    ensures (n % (U64_MAX + 1) + 1) % (U64_MAX + 1) == (n + 1) % (U64_MAX + 1)
  {
  }

  /**
   Whatever calls meet a locked buffer and whenever the capacity changes, each call and each drop reported from
   outside is buffered, dropped by the buffer, or dropped at the lock.
   */
  lemma EveryCallIsAccounted<T>(capacity: nat, ops: seq<RecorderOp<T>>)
    requires Reported(ops) <= U64_MAX
    ensures var r := RecordAll(capacity, ops);
            && |r.buffer.events| + r.buffer.dropped + r.contentionDrops == Reported(ops)
            && |r.buffer.events| <= r.buffer.capacity
            && IsSuffix(r.buffer.events, Accepted(capacity, RingOps(ops)))
  {
    RecorderIsRing(capacity, ops);
    NoWrap(ContendedCalls(ops));
    RingIsAccounted(capacity, RingOps(ops), RecordAll(capacity, ops));
  }

  lemma RingIsAccounted<T>(capacity: nat, ringOps: seq<RingOp<T>>, r: Recorder<T>)
    requires r.buffer == Run(capacity, ringOps) && Offered(ringOps) <= U64_MAX
    ensures |r.buffer.events| + r.buffer.dropped == Offered(ringOps) && |r.buffer.events| <= r.buffer.capacity
    ensures IsSuffix(r.buffer.events, Accepted(capacity, ringOps))
  {
    RingBooksBalance(capacity, ringOps);
    RingConservation(capacity, ringOps);
  }

  lemma NoWrap(n: nat)
    requires n <= U64_MAX
    ensures n % (U64_MAX + 1) == n
  {
  }

  class TelemetryRecorder {
    const buffer: RoutingTelemetryBuffer<RoutingTelemetry>
    var lockContentionDrops: nat

    ghost function Contents(): Recorder<RoutingTelemetry>
      reads this, buffer
    {
      Recorder(buffer.Contents(), lockContentionDrops)
    }

    constructor (capacity: nat)
      ensures Contents() == RecordAll(capacity, []) && fresh(buffer)
    {
      buffer := new RoutingTelemetryBuffer(capacity);
      lockContentionDrops := 0;
    }

    method Record(lock: LockState, event: RoutingTelemetry)
      requires |buffer.events| <= buffer.capacity
      modifies this, buffer
      ensures Contents() == Stepped(old(Contents()), Call(lock, event)) && |buffer.events| <= buffer.capacity
    {
      match lock {
        case Free => buffer.Push(event);
        case Contended => lockContentionDrops := (lockContentionDrops + 1) % (U64_MAX + 1);
        case Poisoned => buffer.Push(event);
      }
    }

    /** The capacity change of a reload. */
    method ReplaceCapacity(capacity: nat)
      modifies buffer
      ensures Contents() == Stepped(old(Contents()), Reload(capacity)) && |buffer.events| <= buffer.capacity
    {
      buffer.ReplaceCapacity(capacity);
    }

    method RecordDroppedEvents(count: nat)
      modifies buffer
      ensures Contents() == Stepped(old(Contents()), DropElsewhere(count))
    {
      buffer.RecordDroppedEvents(count);
    }
  }
}
