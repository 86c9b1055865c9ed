/** What runs of the whole store with last-in-first-out compensations guarantee for every credential. */
module CompensationLaws {
  import opened Outcomes
  import opened CredentialImports
  import opened CredentialLifecycle
  import opened Ledger

  // --- The discipline ---------------------------------------------------------------------------

  /** What the caller remembers of an update: the state before it and the history id it returned. */
  datatype Receipt = Receipt(previous: LifecycleState, historyId: nat)

  type Receipts = map<Key, seq<Receipt>>

  function Stack(receipts: Receipts, key: Key): seq<Receipt> {
    if key in receipts then receipts[key] else []
  }

  predicate Known(s: Store, key: Key) {
    HasCredential(s.imports.Rows(key.setId), key.credentialId)
  }

  function StateNow(s: Store, key: Key): LifecycleState {
    var state := CurrentState(s.lifecycle, key);
    if state.Some? then state.value else Available
  }

  /** The receipts not yet redeemed; calls for unknown credentials are refused and leave none. */
  function Remembered(s: Store, receipts: Receipts, op: Op): Receipts {
    if op.Update? && Known(s, op.key) then
      receipts[op.key := [Receipt(StateNow(s, op.key), s.lifecycle.nextHistoryId)] + Stack(receipts, op.key)]
    else if op.Compensate? && Known(s, op.key) && Stack(receipts, op.key) != [] then
      receipts[op.key := Stack(receipts, op.key)[1..]]
    else receipts
  }

  function ReceiptsOf(ops: seq<Op>): Receipts {
    if ops == [] then map[]
    else Remembered(Run(ops[..|ops| - 1]), ReceiptsOf(ops[..|ops| - 1]), ops[|ops| - 1])
  }

  /** A compensation redeems the latest receipt of its credential. */
  predicate Redeems(s: Store, receipts: Receipts, op: Op) {
    op.Compensate? && Known(s, op.key) ==>
      var stack := Stack(receipts, op.key);
      stack != [] && op.state == stack[0].previous && op.stale == Some(stack[0].historyId)
  }

  /** In a run of the whole store, compensations are last-in-first-out per credential. */
  predicate LastInFirstOut(ops: seq<Op>) {
    ops == []
    || (LastInFirstOut(ops[..|ops| - 1])
        && Redeems(Run(ops[..|ops| - 1]), ReceiptsOf(ops[..|ops| - 1]), ops[|ops| - 1]))
  }

  // --- Views ------------------------------------------------------------------------------------

  /** All that a reader can see of one credential. */
  datatype View = View(state: Option<LifecycleState>, records: seq<HistoryRow>)
  {
    ghost predicate Consistent() {
      state == ShownBy(records)
    }

    /** The receipt belongs to the newest record. */
    predicate Fits(receipt: Receipt) {
      records != [] && records[0].id == receipt.historyId
    }

    function Undone(receipt: Receipt): View
      requires records != []
    {
      View(Some(receipt.previous), records[1..])
    }
  }

  /** The state that a history shows: that of its newest record, or available. */
  function ShownBy(records: seq<HistoryRow>): Option<LifecycleState> {
    if records == [] then Some(Available) else Decoded(records[0])
  }

  function ViewOf(t: LifecycleTables, key: Key): View {
    View(CurrentState(t, key), HistoryOf(t.history, key))
  }

  /** The view is consistent, and stays so however many of its receipts are redeemed. */
  ghost predicate Steady(view: View, stack: seq<Receipt>)
    decreases |stack|
  {
    && view.Consistent()
    && (stack != [] ==> view.Fits(stack[0]) && Steady(view.Undone(stack[0]), stack[1..]))
  }

  ghost predicate SteadyAt(s: Store, receipts: Receipts, key: Key) {
    Steady(ViewOf(s.lifecycle, key), Stack(receipts, key))
  }

  lemma CurrentStateIsDecodable(t: LifecycleTables, key: Key)
    requires LifecycleValid(t)
    ensures CurrentState(t, key).Some?
  {
    if key in t.states {
      var state: LifecycleState :| !state.Available? && t.states[key] == StateRow(StateKind(state), StateReason(state));
      CodecsRoundTrip(state, Compensation);
    }
  }

  /** An update pushes a record and its receipt. */
  ghost predicate Pushes(view: View, stack: seq<Receipt>, view': View, stack': seq<Receipt>, state: LifecycleState) {
    && stack' != [] && stack'[1..] == stack
    && view'.state == Some(state) && view'.Consistent() && view'.Fits(stack'[0]) && view'.Undone(stack'[0]) == view
  }

  /** A compensation pops both. */
  ghost predicate Pops(view: View, stack: seq<Receipt>, view': View, stack': seq<Receipt>) {
    stack != [] && stack' == stack[1..] && view.Fits(stack[0]) && view' == view.Undone(stack[0])
  }

  /** The operation is an accepted call on the lifecycle of the credential. */
  predicate Touches(s: Store, op: Op, key: Key) {
    (op.Update? || op.Compensate?) && op.key == key && Known(s, key)
  }

  /** What one operation does to the view and the receipts of one credential. */
  ghost predicate StepsView(s: Store, receipts: Receipts, op: Op, key: Key) {
    var (view, stack) := (ViewOf(s.lifecycle, key), Stack(receipts, key));
    var (view', stack') := (ViewOf(Apply(s, op).lifecycle, key), Stack(Remembered(s, receipts, op), key));
    if !Touches(s, op, key) then view' == view && stack' == stack
    else if op.Update? then Pushes(view, stack, view', stack', op.state)
    else Pops(view, stack, view', stack')
  }

  lemma UpdateOnViews(s: Store, receipts: Receipts, op: Op, key: Key)
    requires LifecycleValid(s.lifecycle) && op.Update? && Known(s, op.key)
    ensures StepsView(s, receipts, op, key)
  {
    CurrentStateIsDecodable(s.lifecycle, op.key);
    UpdateEffect(s.lifecycle, s.imports.Rows(op.key.setId), op.key, op.state, op.evidence, key);
  }

  lemma CompensationOnViews(s: Store, receipts: Receipts, op: Op, key: Key)
    requires LifecycleValid(s.lifecycle) && op.Compensate? && Known(s, op.key)
    requires Redeems(s, receipts, op) && SteadyAt(s, receipts, op.key)
    ensures StepsView(s, receipts, op, key)
  {
    var t := s.lifecycle;
    WriteStateIsLastWriteWins(t.states, op.key, op.state, key, t.history, t.nextHistoryId);
    DeleteNewest(t.history, op.key, op.stale.value, key);
  }

  /** In such a run every operation pushes or pops the view of the credential it touches, and no other view moves. */
  lemma StepOnViews(s: Store, receipts: Receipts, op: Op, key: Key)
    requires LifecycleValid(s.lifecycle) && Redeems(s, receipts, op)
    requires op.Compensate? ==> SteadyAt(s, receipts, op.key)
    ensures StepsView(s, receipts, op, key)
  {
    if op.Update? && Known(s, op.key) {
      UpdateOnViews(s, receipts, op, key);
    } else if op.Compensate? && Known(s, op.key) {
      CompensationOnViews(s, receipts, op, key);
    }
  }

  // --- Runs -------------------------------------------------------------------------------------

  lemma {:induction false} RunsStaySteady(ops: seq<Op>, key: Key)
    requires LastInFirstOut(ops)
    ensures SteadyAt(Run(ops), ReceiptsOf(ops), key)
  {
    if ops != [] {
      var init, op := ops[..|ops| - 1], ops[|ops| - 1];
      RunsAreValid(init);
      RunsStaySteady(init, key);
      if op.Compensate? {
        RunsStaySteady(init, op.key);
      }
      StepOnViews(Run(init), ReceiptsOf(init), op, key);
    }
  }

  /**
   In every run whose compensations are last-in-first-out, the newest record of each credential carries its current
   state.
   */
  lemma HistoryAlwaysMatchesState(ops: seq<Op>, key: Key)
    requires LastInFirstOut(ops)
    ensures HistoryMatchesState(Run(ops).lifecycle, key)
  {
    RunsStaySteady(ops, key);
  }

  /** One operation opens an update of the credential, closes one if there is one, or leaves the number alone. */
  function NextOpen(open: nat, op: Op, key: Key): Option<nat> {
    if !(op.Update? || op.Compensate?) || op.key != key then Some(open)
    else if op.Update? then Some(open + 1)
    else if open > 0 then Some(open - 1) else None
  }

  /** How many updates of the credential are open since some point of the run; none if one too many was closed. */
  function OpenSince(ops: seq<Op>, start: nat, key: Key): Option<nat>
    requires start <= |ops|
  {
    if |ops| == start then Some(0)
    else
      var open := OpenSince(ops[..|ops| - 1], start, key);
      if open.Some? then NextOpen(open.value, ops[|ops| - 1], key) else None
  }

  /** The view after redeeming the n latest receipts. */
  ghost function Unwound(view: View, stack: seq<Receipt>, n: nat): View
    requires n <= |stack| && Steady(view, stack)
    decreases n
  {
    if n == 0 then view else Unwound(view.Undone(stack[0]), stack[1..], n - 1)
  }

  ghost predicate UnwindsTo(s: Store, receipts: Receipts, key: Key, n: nat, view: View) {
    && n <= |Stack(receipts, key)| && SteadyAt(s, receipts, key)
    && Unwound(ViewOf(s.lifecycle, key), Stack(receipts, key), n) == view
  }

  lemma SamePrefix<T>(xs: seq<T>, n: nat)
    requires n < |xs|
    ensures xs[..|xs| - 1][..n] == xs[..n]
  {
  }

  lemma WholePrefix<T>(xs: seq<T>)
    ensures xs[..|xs|] == xs
  {
  }

  lemma KnownSince(ops: seq<Op>, start: nat, key: Key)
    requires start <= |ops| && Known(Run(ops[..start]), key)
    ensures Known(Run(ops), key)
  {
    if start == |ops| {
      WholePrefix(ops);
    } else {
      var init := ops[..|ops| - 1];
      SamePrefix(ops, start);
      KnownSince(init, start, key);
      RunsAreValid(init);
      KnownKeysStayKnown(Run(init), ops[|ops| - 1], key);
    }
  }

  lemma StepUnwinds(s: Store, receipts: Receipts, op: Op, key: Key, n: nat, view: View)
    requires LifecycleValid(s.lifecycle) && Redeems(s, receipts, op) && Known(s, key)
    requires op.Compensate? ==> SteadyAt(s, receipts, op.key)
    requires UnwindsTo(s, receipts, key, n, view)
    requires SteadyAt(Apply(s, op), Remembered(s, receipts, op), key)
    requires NextOpen(n, op, key).Some?
    ensures UnwindsTo(Apply(s, op), Remembered(s, receipts, op), key, NextOpen(n, op, key).value, view)
  {
    StepOnViews(s, receipts, op, key);
  }

  /** The step from a run without its last operation. */
  lemma LastStepUnwinds(all: seq<Op>, key: Key, n: nat, view: View)
    requires all != [] && LastInFirstOut(all)
    requires var init := all[..|all| - 1]; Known(Run(init), key) && UnwindsTo(Run(init), ReceiptsOf(init), key, n, view)
    requires NextOpen(n, all[|all| - 1], key).Some?
    ensures UnwindsTo(Run(all), ReceiptsOf(all), key, NextOpen(n, all[|all| - 1], key).value, view)
  {
    var init, op := all[..|all| - 1], all[|all| - 1];
    RunsAreValid(init);
    RunsStaySteady(all, key);
    if op.Compensate? {
      RunsStaySteady(init, op.key);
    }
    StepUnwinds(Run(init), ReceiptsOf(init), op, key, n, view);
  }

  lemma NothingOpenYet(ops: seq<Op>, key: Key)
    requires LastInFirstOut(ops)
    ensures UnwindsTo(Run(ops), ReceiptsOf(ops), key, 0, ViewOf(Run(ops).lifecycle, key))
  {
    RunsStaySteady(ops, key);
  }

  lemma {:induction false} OpenUpdatesUnwind(ops: seq<Op>, start: nat, key: Key, before: seq<Op>, view: View)
    requires LastInFirstOut(ops) && start <= |ops| && OpenSince(ops, start, key).Some?
    requires before == ops[..start] && Known(Run(before), key) && view == ViewOf(Run(before).lifecycle, key)
    ensures UnwindsTo(Run(ops), ReceiptsOf(ops), key, OpenSince(ops, start, key).value, view)
  {
    if start == |ops| {
      WholePrefix(ops);
      NothingOpenYet(ops, key);
    } else {
      var init := ops[..|ops| - 1];
      SamePrefix(ops, start);
      OpenUpdatesUnwind(init, start, key, before, view);
      KnownSince(init, start, key);
      LastStepUnwinds(ops, key, OpenSince(init, start, key).value, view);
    }
  }

  /**
   Whatever loads, appends, probes and calls on other credentials come in between, a stretch of a run that opens and
   closes as many updates of a credential leaves its current state and its whole history exactly as they were.
   */
  lemma BracketedRunRestoresView(ops: seq<Op>, start: nat, key: Key)
    requires LastInFirstOut(ops) && start <= |ops| && Known(Run(ops[..start]), key)
             && OpenSince(ops, start, key) == Some(0)
    ensures ViewOf(Run(ops).lifecycle, key) == ViewOf(Run(ops[..start]).lifecycle, key)
  {
    OpenUpdatesUnwind(ops, start, key, ops[..start], ViewOf(Run(ops[..start]).lifecycle, key));
  }

  // --- Any compensation -------------------------------------------------------------------------

  lemma {:induction false} NoRecordsOfKey(history: seq<HistoryRow>, key: Key)
    requires HistoryOf(history, key) == []
    ensures forall i :: 0 <= i < |history| ==> history[i].key != key
  {
    if history != [] {
      NoRecordsOfKey(history[..|history| - 1], key);
    }
  }

  lemma {:induction false} NewestSurvives(history: seq<HistoryRow>, key: Key, id: nat)
    requires HistoryOf(history, key) != [] && HistoryOf(history, key)[0].id != id
    ensures HistoryOf(DeleteHistory(history, key, id), key) != []
    ensures HistoryOf(DeleteHistory(history, key, id), key)[0] == HistoryOf(history, key)[0]
  {
    var init, last := history[..|history| - 1], history[|history| - 1];
    assert DeleteHistory(history, key, id) == DeleteHistory(init, key, id) + [last];
    if last.key != key {
      NewestSurvives(init, key, id);
    }
  }

  /** The records on top of which the compensated state is judged: the newest one goes exactly when its id is given. */
  function LeftOver(records: seq<HistoryRow>, stale: Option<nat>): seq<HistoryRow> {
    if stale.Some? && records != [] && records[0].id == stale.value then records[1..] else records
  }

  lemma LeftOverIsShown(history: seq<HistoryRow>, key: Key, id: nat)
    requires Ascending(history)
    ensures ShownBy(HistoryOf(DeleteHistory(history, key, id), key))
            == ShownBy(LeftOver(HistoryOf(history, key), Some(id)))
  {
    var records := HistoryOf(history, key);
    if records == [] {
      NoRecordsOfKey(history, key);
      DeleteAbsent(history, key, id);
    } else if records[0].id == id {
      DeleteNewest(history, key, id, key);
    } else {
      NewestSurvives(history, key, id);
    }
  }

  /**
   Any compensation, with whatever history id or none, leaves history and state together exactly when the state it
   writes is the one shown by the records left over: the newest record is passed over only if its own id was given.
   */
  lemma CompensationMatchesExactly(t: LifecycleTables, rows: seq<CredentialRow>, key: Key, previous: LifecycleState,
                                   stale: Option<nat>)
    requires LifecycleValid(t) && HasCredential(rows, key.credentialId)
    ensures HistoryMatchesState(Compensated(t, rows, key, previous, stale).0, key)
            <==> ShownBy(LeftOver(HistoryOf(t.history, key), stale)) == Some(previous)
  {
    WriteStateIsLastWriteWins(t.states, key, previous, key, t.history, t.nextHistoryId);
    if stale.Some? {
      LeftOverIsShown(t.history, key, stale.value);
    }
  }

  /**
   Compensating an update without its history id keeps the update's record as the newest, so history and state stay
   together exactly when the state written back is the one the update wrote.
   */
  lemma CompensationWithoutHistoryId(t: LifecycleTables, rows: seq<CredentialRow>, key: Key, state: LifecycleState,
                                     back: LifecycleState, evidence: Evidence)
    requires LifecycleValid(t) && HasCredential(rows, key.credentialId)
    ensures HistoryMatchesState(Compensated(Updated(t, rows, key, state, evidence).0, rows, key, back, None).0, key)
            <==> back == state
  {
    UpdateEffect(t, rows, key, state, evidence, key);
    UpdateKeepsValid(t, rows, key, state, evidence);
    CompensationMatchesExactly(Updated(t, rows, key, state, evidence).0, rows, key, back, None);
  }

  /** Of two updates, compensating the first keeps the second's record on top, whatever state is written back. */
  lemma FirstOfTwoCompensated(t: LifecycleTables, rows: seq<CredentialRow>, key: Key, a: LifecycleState,
                              b: LifecycleState, back: LifecycleState, evidence: Evidence)
    requires LifecycleValid(t) && HasCredential(rows, key.credentialId)
    ensures var t2 := Updated(Updated(t, rows, key, a, evidence).0, rows, key, b, evidence).0;
            HistoryMatchesState(Compensated(t2, rows, key, back, Some(t.nextHistoryId)).0, key) <==> back == b
  {
    var t1 := Updated(t, rows, key, a, evidence).0;
    UpdateKeepsValid(t, rows, key, a, evidence);
    UpdateKeepsValid(t1, rows, key, b, evidence);
    UpdateEffect(t1, rows, key, b, evidence, key);
    CompensationMatchesExactly(Updated(t1, rows, key, b, evidence).0, rows, key, back, Some(t.nextHistoryId));
  }

  /** Two ways an available credential ends with a history that shows a state it is not in. */
  lemma OutOfOrderExample(rows: seq<CredentialRow>, key: Key, evidence: Evidence)
    requires HasCredential(rows, key.credentialId)
    ensures var t0 := LifecycleTables(map[], [], 0);
            var t1 := Updated(t0, rows, key, Disabled("a"), evidence).0;
            var t2 := Updated(t1, rows, key, Expired("b"), evidence).0;
            && !HistoryMatchesState(Compensated(t2, rows, key, Available, Some(0)).0, key)
            && !HistoryMatchesState(Compensated(t1, rows, key, Available, None).0, key)
  {
    var t0 := LifecycleTables(map[], [], 0);
    FirstOfTwoCompensated(t0, rows, key, Disabled("a"), Expired("b"), Available, evidence);
    CompensationWithoutHistoryId(t0, rows, key, Disabled("a"), Available, evidence);
  }
}
