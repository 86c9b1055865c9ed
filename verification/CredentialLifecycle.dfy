/**
 The lifecycle side of `src/credential_repository.rs`: the current-state table, the append-only
 history with its never reused ids, and compensation of an update. Time stamps are not modelled.
 */
module CredentialLifecycle {
  import opened Outcomes
  import opened CredentialImports
  import opened FirstOccurrences

  datatype LifecycleState =
    | Available
    | Expired(reason: string)
    | QuotaExhausted(reason: string)
    | Disabled(reason: string)

  datatype HistorySource = ManagementCommand | Compensation | AutomaticFailure
  datatype Details = Details(
    reasonClass: Option<string>, actorId: Option<string>, actorName: Option<string>,
    actorRole: Option<string>, channelId: Option<string>)
  datatype Evidence = Evidence(source: HistorySource, details: Details)

  datatype Key = Key(setId: CredentialSetId, credentialId: CredentialId)

  /** A row of the state table; the key is its primary key. */
  datatype StateRow = StateRow(kind: string, reason: Option<string>)
  datatype HistoryRow =
    HistoryRow(id: nat, key: Key, kind: string, reason: Option<string>, source: string, details: Details)

  datatype LifecycleTables =
    LifecycleTables(states: map<Key, StateRow>, history: seq<HistoryRow>, nextHistoryId: nat)

  datatype Snapshot = Snapshot(setId: CredentialSetId, credentialId: CredentialId, state: LifecycleState)

  // --- Column codecs ----------------------------------------------------------------------------

  function StateKind(state: LifecycleState): string {
    match state
    case Available => "available"
    case Expired(_) => "expired"
    case QuotaExhausted(_) => "quota_exhausted"
    case Disabled(_) => "disabled"
  }

  function StateReason(state: LifecycleState): Option<string> {
    if state.Available? then None else Some(state.reason)
  }

  function StateFromParts(kind: string, reason: Option<string>): Option<LifecycleState> {
    var text := if reason.Some? then reason.value else "";
    if kind == "available" then Some(Available)
    else if kind == "expired" then Some(Expired(text))
    else if kind == "quota_exhausted" then Some(QuotaExhausted(text))
    else if kind == "disabled" then Some(Disabled(text))
    else None
  }

  function SourceCode(source: HistorySource): string {
    match source
    case ManagementCommand => "management_command"
    case Compensation => "compensation"
    case AutomaticFailure => "automatic_failure"
  }

  function SourceFromCode(code: string): Option<HistorySource> {
    if code == "management_command" then Some(ManagementCommand)
    else if code == "compensation" then Some(Compensation)
    else if code == "automatic_failure" then Some(AutomaticFailure)
    else None
  }

  /** Both columns codecs decode what they encode. */
  lemma CodecsRoundTrip(state: LifecycleState, source: HistorySource)
    ensures StateFromParts(StateKind(state), StateReason(state)) == Some(state)
    ensures SourceFromCode(SourceCode(source)) == Some(source)
  {
    assert "available"[0] == 'a' && "expired"[0] == 'e' && "quota_exhausted"[0] == 'q' && "disabled"[0] == 'd';
    assert "management_command"[0] == 'm' && "compensation"[0] == 'c' && "automatic_failure"[0] == 'a';
  }

  /** The stored codes, and what else decodes: a missing reason is read as the empty one, any other code not at all. */
  lemma CodecsExactly(kind: string, reason: Option<string>, state: LifecycleState, code: string, source: HistorySource)
    ensures StateFromParts(kind, reason) == Some(state)
            <==> match state
                 case Available => kind == "available"
                 case Expired(text) => kind == "expired" && ReadsReason(reason, text)
                 case QuotaExhausted(text) => kind == "quota_exhausted" && ReadsReason(reason, text)
                 case Disabled(text) => kind == "disabled" && ReadsReason(reason, text)
    ensures SourceFromCode(code) == Some(source)
            <==> match source
                 case ManagementCommand => code == "management_command"
                 case Compensation => code == "compensation"
                 case AutomaticFailure => code == "automatic_failure"
  {
    CodecsRoundTrip(state, source);
    CodecsRoundTrip(Available, ManagementCommand);
  }

  predicate ReadsReason(reason: Option<string>, text: string) {
    reason == Some(text) || (reason.None? && text == "")
  }

  // --- Transactions -----------------------------------------------------------------------------

  function HasCredential(rows: seq<CredentialRow>, id: CredentialId): bool {
    exists i :: 0 <= i < |rows| && rows[i].id == id
  }

  /** `persist_sqlite_lifecycle_snapshot`: available deletes the row, anything else upserts it. */
  function WriteState(states: map<Key, StateRow>, key: Key, state: LifecycleState): map<Key, StateRow> {
    if state.Available? then states - {key} else states[key := StateRow(StateKind(state), StateReason(state))]
  }

  /** `persist_lifecycle_update_with_evidence`, returning the history id. */
  function Updated(t: LifecycleTables, rows: seq<CredentialRow>, key: Key, state: LifecycleState, evidence: Evidence):
    (LifecycleTables, Result<nat, StoreError>)
  {
    if !HasCredential(rows, key.credentialId) then (t, Err(UnknownCredential))
    else
      (LifecycleTables(
         WriteState(t.states, key, state),
         t.history + [HistoryRow(t.nextHistoryId, key, StateKind(state), StateReason(state),
                                 SourceCode(evidence.source), evidence.details)],
         t.nextHistoryId + 1),
       Ok(t.nextHistoryId))
  }

  function DeleteHistory(history: seq<HistoryRow>, key: Key, id: nat): seq<HistoryRow> {
    if history == [] then []
    else
      var rest, last := DeleteHistory(history[..|history| - 1], key, id), history[|history| - 1];
      if last.id == id && last.key == key then rest else rest + [last]
  }

  /** `persist_lifecycle_snapshot`: writes the state and drops the stale history row. */
  function Compensated(t: LifecycleTables, rows: seq<CredentialRow>, key: Key, state: LifecycleState,
                       stale: Option<nat>):
    (LifecycleTables, Result<Snapshot, StoreError>)
  {
    if !HasCredential(rows, key.credentialId) then (t, Err(UnknownCredential))
    else
      (t.(states := WriteState(t.states, key, state),
          history := if stale.Some? then DeleteHistory(t.history, key, stale.value) else t.history),
       Ok(Snapshot(key.setId, key.credentialId, state)))
  }

  // --- Queries ----------------------------------------------------------------------------------

  /** The state of one credential: no row means available. */
  function CurrentState(t: LifecycleTables, key: Key): Option<LifecycleState> {
    if key in t.states then StateFromParts(t.states[key].kind, t.states[key].reason) else Some(Available)
  }

  /** The history rows of one credential, newest first (ORDER BY id DESC over ascending ids). */
  function HistoryOf(history: seq<HistoryRow>, key: Key): seq<HistoryRow> {
    if history == [] then []
    else
      var rest, last := HistoryOf(history[..|history| - 1], key), history[|history| - 1];
      if last.key == key then [last] + rest else rest
  }

  function Decoded(row: HistoryRow): Option<LifecycleState> {
    StateFromParts(row.kind, row.reason)
  }

  /** The newest history record carries the current state; no history means available. */
  ghost predicate HistoryMatchesState(t: LifecycleTables, key: Key) {
    var records := HistoryOf(t.history, key);
    CurrentState(t, key) == if records == [] then Some(Available) else Decoded(records[0])
  }

  ghost predicate Ascending(history: seq<HistoryRow>) {
    forall i, j :: 0 <= i < j < |history| ==> history[i].id < history[j].id
  }

  /** Decodable states, and history ids that ascend below the next id. */
  ghost predicate LifecycleValid(t: LifecycleTables) {
    && (forall key <- t.states ::
          exists state: LifecycleState :: (
            !state.Available? && t.states[key] == StateRow(StateKind(state), StateReason(state))))
    && (forall row <- t.history :: row.id < t.nextHistoryId)
    && Ascending(t.history)
  }

  // --- One write --------------------------------------------------------------------------------

  lemma WriteStateIsLastWriteWins(states: map<Key, StateRow>, key: Key, state: LifecycleState, other: Key,
                                  history: seq<HistoryRow>, id: nat)
    ensures var before := LifecycleTables(states, history, id);
            var after := LifecycleTables(WriteState(states, key, state), history, id);
            CurrentState(after, other) == if other == key then Some(state) else CurrentState(before, other)
  {
    CodecsRoundTrip(state, Compensation);
  }

  lemma DeleteKeepsOrder(history: seq<HistoryRow>, key: Key, id: nat)
    requires Ascending(history)
    ensures forall row <- DeleteHistory(history, key, id) :: row in history
    ensures Ascending(DeleteHistory(history, key, id))
  {
    if history != [] {
      var init, last := history[..|history| - 1], history[|history| - 1];
      DeleteKeepsOrder(init, key, id);
      assert forall row <- init :: row.id < last.id;
    }
  }

  lemma {:induction false} DeleteAbsent(history: seq<HistoryRow>, key: Key, id: nat)
    requires forall i :: 0 <= i < |history| ==> history[i].id != id || history[i].key != key
    ensures DeleteHistory(history, key, id) == history
  {
    if history != [] {
      DeleteAbsent(history[..|history| - 1], key, id);
    }
  }

  /** Deleting a credential's newest record uncovers the one below and leaves every other view alone. */
  lemma {:induction false} DeleteNewest(history: seq<HistoryRow>, key: Key, id: nat, other: Key)
    requires Ascending(history)
    requires HistoryOf(history, key) != [] && HistoryOf(history, key)[0].id == id
    ensures var after := HistoryOf(DeleteHistory(history, key, id), other);
            after == if other == key then HistoryOf(history, key)[1..] else HistoryOf(history, other)
  {
    var init, last := history[..|history| - 1], history[|history| - 1];
    if last.key == key {
      DeleteAbsent(init, key, id);
    } else {
      DeleteNewest(init, key, id, other);
      assert DeleteHistory(history, key, id) == DeleteHistory(init, key, id) + [last];
    }
  }

  lemma UpdateKeepsValid(t: LifecycleTables, rows: seq<CredentialRow>, key: Key, state: LifecycleState,
                         evidence: Evidence)
    requires LifecycleValid(t)
    ensures LifecycleValid(Updated(t, rows, key, state, evidence).0)
  {
  }

  lemma CompensationKeepsValid(t: LifecycleTables, rows: seq<CredentialRow>, key: Key, state: LifecycleState,
                               stale: Option<nat>)
    requires LifecycleValid(t)
    ensures LifecycleValid(Compensated(t, rows, key, state, stale).0)
  {
    if stale.Some? {
      DeleteKeepsOrder(t.history, key, stale.value);
    }
  }

  /** A successful update is the new current state and the newest record of its credential, and of no other. */
  lemma UpdateEffect(t: LifecycleTables, rows: seq<CredentialRow>, key: Key, state: LifecycleState, evidence: Evidence,
                     other: Key)
    requires HasCredential(rows, key.credentialId)
    ensures var (t', id) := Updated(t, rows, key, state, evidence);
            && CurrentState(t', other) == (if other == key then Some(state) else CurrentState(t, other))
            && HistoryOf(t'.history, other)
               == (if other == key then [t'.history[|t.history|]] else []) + HistoryOf(t.history, other)
            && Decoded(t'.history[|t.history|]) == Some(state)
            && SourceFromCode(t'.history[|t.history|].source) == Some(evidence.source)
            && t'.history[|t.history|].details == evidence.details
            && id == Ok(t'.history[|t.history|].id)
  {
    WriteStateIsLastWriteWins(t.states, key, state, other, t.history, t.nextHistoryId);
    CodecsRoundTrip(state, evidence.source);
    var t' := Updated(t, rows, key, state, evidence).0;
    assert t'.history[..|t.history|] == t.history;
  }

  /** An update or a compensation is refused exactly for an unknown credential, and then leaves no trace. */
  lemma WritesAnswer(t: LifecycleTables, rows: seq<CredentialRow>, key: Key, state: LifecycleState, evidence: Evidence,
                     stale: Option<nat>)
    ensures var known := exists row <- rows :: row.id == key.credentialId;
            && (if known then Updated(t, rows, key, state, evidence).1 == Ok(t.nextHistoryId)
                else Updated(t, rows, key, state, evidence) == (t, Err(UnknownCredential)))
            && (if known then
                  Compensated(t, rows, key, state, stale).1 == Ok(Snapshot(key.setId, key.credentialId, state))
                else Compensated(t, rows, key, state, stale) == (t, Err(UnknownCredential)))
  {
    assert HasCredential(rows, key.credentialId) <==> exists row <- rows :: row.id == key.credentialId;
  }

  // --- Compensation -----------------------------------------------------------------------------

  lemma DeleteAppended(history: seq<HistoryRow>, row: HistoryRow)
    requires forall r <- history :: r.id != row.id
    ensures DeleteHistory(history + [row], row.key, row.id) == history
  {
    DeleteAbsent(history, row.key, row.id);
    assert (history + [row])[..|history|] == history;
  }

  /** Writing a state and then the one that was there before restores the table. */
  lemma WriteStateBack(states: map<Key, StateRow>, key: Key, state: LifecycleState, before: LifecycleState)
    requires if key !in states then before.Available?
             else states[key] == StateRow(StateKind(before), StateReason(before)) && !before.Available?
    ensures WriteState(WriteState(states, key, state), key, before) == states
  {
  }

  /**
   Compensating an update with the state before it and its own history id undoes it exactly; only the id counter moves
   on.
   */
  lemma CompensationIsExactUndo(t: LifecycleTables, rows: seq<CredentialRow>, key: Key, state: LifecycleState,
                                evidence: Evidence)
    requires LifecycleValid(t) && HasCredential(rows, key.credentialId)
    ensures CurrentState(t, key).Some?
    ensures var (t1, id) := Updated(t, rows, key, state, evidence);
            Compensated(t1, rows, key, CurrentState(t, key).value, Some(id.value)).0
            == t.(nextHistoryId := t.nextHistoryId + 1)
  {
    var t1 := Updated(t, rows, key, state, evidence).0;
    DeleteAppended(t.history, t1.history[|t.history|]);
    if key in t.states {
      var before: LifecycleState :| !before.Available?
          && t.states[key] == StateRow(StateKind(before), StateReason(before));
      CodecsRoundTrip(before, Compensation);
      WriteStateBack(t.states, key, state, before);
    } else {
      WriteStateBack(t.states, key, state, Available);
    }
  }

  // --- Loading snapshots ------------------------------------------------------------------------

  /** The states of one set by credential. */
  function StatesOf(states: map<Key, StateRow>, setId: CredentialSetId): map<CredentialId, StateRow> {
    map key <- states | key.setId == setId :: key.credentialId := states[key]
  }

  function IdsOf(setId: CredentialSetId, rows: seq<CredentialRow>): seq<CredentialId> {
    seq(|rows|, i requires 0 <= i < |rows| => CredentialId(setId.name, rows[i].secret))
  }

  /** Only the three non-available kinds may be stored. */
  function StoredState(row: StateRow): Option<LifecycleState> {
    if row.kind == "available" then None else StateFromParts(row.kind, row.reason)
  }

  /** Takes the states off one by one in credential order; what is left over belongs to no credential. */
  function TakeSnapshots(setId: CredentialSetId, ids: seq<CredentialId>, byId: map<CredentialId, StateRow>):
    Result<seq<Snapshot>, StoreError>
  {
    if ids == [] then
      if byId == map[] then Ok([]) else Err(OrphanState)
    else if ids[0] !in byId then TakeSnapshots(setId, ids[1..], byId)
    else
      match StoredState(byId[ids[0]])
      case None => Err(UnknownState)
      case Some(state) => Prepend([Snapshot(setId, ids[0], state)], TakeSnapshots(setId, ids[1..], byId - {ids[0]}))
  }

  function Prepend(first: seq<Snapshot>, rest: Result<seq<Snapshot>, StoreError>): Result<seq<Snapshot>, StoreError> {
    if rest.Ok? then Ok(first + rest.value) else rest
  }

  /** `load_lifecycle_snapshots`. */
  function LoadedSnapshots(t: LifecycleTables, setId: CredentialSetId, rows: seq<CredentialRow>):
    Result<seq<Snapshot>, StoreError>
  {
    TakeSnapshots(setId, IdsOf(setId, ByPosition(rows)), StatesOf(t.states, setId))
  }

  /** The non-available credentials in the given order. */
  function Reported(setId: CredentialSetId, ids: seq<CredentialId>,
                    stateOf: CredentialId -> LifecycleState): seq<Snapshot> {
    if ids == [] then []
    else
      var rest := Reported(setId, ids[1..], stateOf);
      if stateOf(ids[0]).Available? then rest else [Snapshot(setId, ids[0], stateOf(ids[0]))] + rest
  }

  /** The reports are of some of the credentials, in their order. */
  predicate InOrderOf(reported: seq<Snapshot>, ids: seq<CredentialId>)
    decreases |ids|
  {
    reported == []
    || (ids != []
        && if reported[0].credentialId == ids[0] then InOrderOf(reported[1..], ids[1..])
           else InOrderOf(reported, ids[1..]))
  }

  /** What is reported: exactly the non-available credentials, each with its state, in the given order. */
  lemma {:induction false} ReportedExactly(setId: CredentialSetId, ids: seq<CredentialId>,
                                           stateOf: CredentialId -> LifecycleState)
    requires Distinct(ids)
    ensures forall s :: s in Reported(setId, ids, stateOf)
                        <==> s.setId == setId && s.credentialId in ids && !s.state.Available?
                             && s.state == stateOf(s.credentialId)
    ensures InOrderOf(Reported(setId, ids, stateOf), ids)
  {
    if ids != [] {
      var rest := Reported(setId, ids[1..], stateOf);
      ReportedExactly(setId, ids[1..], stateOf);
      assert forall id :: id in ids <==> id == ids[0] || id in ids[1..];
      assert rest != [] ==> rest[0] in rest;
    }
  }

  /** The row that stores a state, where available means no row. */
  ghost predicate Stores(byId: map<CredentialId, StateRow>, id: CredentialId, state: LifecycleState) {
    if state.Available? then id !in byId else id in byId && StoredState(byId[id]) == Some(state)
  }

  /** No state is orphaned and every stored kind is known. */
  ghost predicate Loadable(ids: seq<CredentialId>, byId: map<CredentialId, StateRow>) {
    forall id <- byId :: id in ids && StoredState(byId[id]).Some?
  }

  lemma LoadableHead(ids: seq<CredentialId>, byId: map<CredentialId, StateRow>)
    requires ids != [] && ids[0] !in ids[1..]
    ensures Loadable(ids, byId)
            <==> (ids[0] in byId ==> StoredState(byId[ids[0]]).Some?) && Loadable(ids[1..], byId - {ids[0]})
  {
    assert forall id :: id in ids <==> id == ids[0] || id in ids[1..];
    assert forall id <- byId :: id == ids[0] || id in byId - {ids[0]};
  }

  /** Loading succeeds exactly when no state is orphaned and every stored kind is known. */
  lemma {:induction false} LoadSucceedsExactly(setId: CredentialSetId, ids: seq<CredentialId>,
                                               byId: map<CredentialId, StateRow>)
    requires Distinct(ids)
    ensures TakeSnapshots(setId, ids, byId).Ok? <==> Loadable(ids, byId)
  {
    if ids == [] {
      assert byId == map[] <==> forall id <- byId :: false;
    } else {
      LoadableHead(ids, byId);
      LoadSucceedsExactly(setId, ids[1..], byId - {ids[0]});
      if ids[0] !in byId {
        assert byId - {ids[0]} == byId;
      }
    }
  }

  ghost predicate UnknownIn(ids: seq<CredentialId>, byId: map<CredentialId, StateRow>) {
    exists i :: 0 <= i < |ids| && ids[i] in byId && StoredState(byId[ids[i]]).None?
  }

  lemma UnknownHead(ids: seq<CredentialId>, byId: map<CredentialId, StateRow>)
    requires ids != [] && ids[0] !in ids[1..]
    ensures UnknownIn(ids, byId)
            <==> (ids[0] in byId && StoredState(byId[ids[0]]).None?) || UnknownIn(ids[1..], byId - {ids[0]})
  {
    var rest := byId - {ids[0]};
    if UnknownIn(ids, byId) && !(ids[0] in byId && StoredState(byId[ids[0]]).None?) {
      var i :| 0 <= i < |ids| && ids[i] in byId && StoredState(byId[ids[i]]).None?;
      assert ids[1..][i - 1] == ids[i] && ids[1..][i - 1] in rest;
    }
    if UnknownIn(ids[1..], rest) {
      var i :| 0 <= i < |ids[1..]| && ids[1..][i] in rest && StoredState(rest[ids[1..][i]]).None?;
      assert ids[i + 1] in byId;
    }
  }

  /** An unknown kind on a credential of the set is reported first, a state without a credential only otherwise. */
  lemma {:induction false} LoadErrorsExactly(setId: CredentialSetId, ids: seq<CredentialId>,
                                             byId: map<CredentialId, StateRow>)
    requires Distinct(ids)
    ensures TakeSnapshots(setId, ids, byId) == Err(UnknownState) <==> UnknownIn(ids, byId)
    ensures TakeSnapshots(setId, ids, byId) == Err(OrphanState)
            <==> !UnknownIn(ids, byId) && exists id <- byId :: id !in ids
  {
    if ids == [] {
      assert byId == map[] <==> forall id <- byId :: false;
    } else {
      var rest := byId - {ids[0]};
      UnknownHead(ids, byId);
      LoadErrorsExactly(setId, ids[1..], rest);
      OrphansStay(ids, byId);
      if ids[0] !in byId {
        assert rest == byId;
      }
    }
  }

  lemma OrphansStay(ids: seq<CredentialId>, byId: map<CredentialId, StateRow>)
    requires ids != []
    ensures (exists id <- byId :: id !in ids) <==> exists id <- byId - {ids[0]} :: id !in ids[1..]
  {
    assert forall id :: id in ids <==> id == ids[0] || id in ids[1..];
    if id :| id in byId - {ids[0]} && id !in ids[1..] {
      assert id in byId && id !in ids;
    }
    if id :| id in byId && id !in ids {
      assert id in byId - {ids[0]} && id !in ids[1..];
    }
  }

  /** When it succeeds it reports exactly the stored states, in credential order. */
  lemma {:induction false} LoadReportsStates(setId: CredentialSetId, ids: seq<CredentialId>,
                                             byId: map<CredentialId, StateRow>, stateOf: CredentialId -> LifecycleState)
    requires Distinct(ids)
    requires forall id <- ids :: Stores(byId, id, stateOf(id))
    requires forall id <- byId :: id in ids
    ensures TakeSnapshots(setId, ids, byId) == Ok(Reported(setId, ids, stateOf))
  {
    if ids == [] {
      assert byId == map[];
    } else {
      assert Stores(byId, ids[0], stateOf(ids[0]));
      var rest := if ids[0] in byId then byId - {ids[0]} else byId;
      assert forall id <- ids[1..] ::
               id != ids[0] && id in ids && Stores(byId, id, stateOf(id)) && Stores(rest, id, stateOf(id));
      LoadReportsStates(setId, ids[1..], rest, stateOf);
    }
  }
}
