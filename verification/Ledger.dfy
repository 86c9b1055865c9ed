/** The whole credential store: its operations as atomic steps, and what every run of them keeps. */
module Ledger {
  import opened Outcomes
  import opened FirstOccurrences
  import opened CredentialImports
  import opened CredentialLifecycle
  import opened CredentialProbes

  datatype Store = Store(imports: ImportTables, lifecycle: LifecycleTables, probes: ProbeTables)

  datatype Op =
    | Load(setId: CredentialSetId, path: string, raw: string)
    | Append(setId: CredentialSetId, call: AppendCall)
    | Update(key: Key, state: LifecycleState, evidence: Evidence)
    | Compensate(key: Key, state: LifecycleState, stale: Option<nat>)
    | Probe(key: Key, outcome: ProbeOutcome, details: ProbeDetails)

  const EMPTY := Store(ImportTables(map[], map[], []), LifecycleTables(map[], [], 0), ProbeTables([], 0))

  /** One operation; a refused one changes nothing. */
  function Apply(s: Store, op: Op): Store {
    match op
    case Load(setId, path, raw) => s.(imports := Bootstrapped(s.imports, setId, path, raw).0)
    case Append(setId, call) => s.(imports := Appended(s.imports, setId, call).0)
    case Update(key, state, evidence) =>
      s.(lifecycle := Updated(s.lifecycle, s.imports.Rows(key.setId), key, state, evidence).0)
    case Compensate(key, state, stale) =>
      s.(lifecycle := Compensated(s.lifecycle, s.imports.Rows(key.setId), key, state, stale).0)
    case Probe(key, outcome, details) =>
      s.(probes := Recorded(s.probes, s.imports.Rows(key.setId), key, outcome, details).0)
  }

  function Run(ops: seq<Op>): Store {
    if ops == [] then EMPTY else Apply(Run(ops[..|ops| - 1]), ops[|ops| - 1])
  }

  // --- The store invariant ----------------------------------------------------------------------

  ghost predicate KnownKey(imports: ImportTables, key: Key) {
    HasCredential(imports.Rows(key.setId), key.credentialId)
  }

  ghost predicate StoreValid(s: Store) {
    && ImportsValid(s.imports)
    && LifecycleValid(s.lifecycle)
    && ProbesValid(s.probes)
    && (forall key <- s.lifecycle.states :: KnownKey(s.imports, key))
    && (forall r <- s.probes.results :: KnownKey(s.imports, r.key))
  }

  lemma RowsOnlyGrow(s: Store, op: Op, setId: CredentialSetId)
    requires ImportsValid(s.imports)
    ensures s.imports.Rows(setId) <= Apply(s, op).imports.Rows(setId)
  {
    match op {
      case Load(loaded, path, raw) => BootstrapRowsGrow(s.imports, loaded, path, raw, setId);
      case Append(extended, call) => AppendRowsGrow(s.imports, extended, call, setId);
      case Update(_, _, _) => case Compensate(_, _, _) => case Probe(_, _, _) =>
    }
  }

  lemma KnownKeysStayKnown(s: Store, op: Op, key: Key)
    requires ImportsValid(s.imports) && KnownKey(s.imports, key)
    ensures KnownKey(Apply(s, op).imports, key)
  {
    var rows, rows' := s.imports.Rows(key.setId), Apply(s, op).imports.Rows(key.setId);
    RowsOnlyGrow(s, op, key.setId);
    var i :| 0 <= i < |rows| && rows[i].id == key.credentialId;
    assert rows'[i].id == key.credentialId;
  }

  lemma ApplyKeepsValid(s: Store, op: Op)
    requires StoreValid(s)
    ensures StoreValid(Apply(s, op))
  {
    match op {
      case Load(setId, path, raw) => BootstrapKeepsValid(s.imports, setId, path, raw);
      case Append(setId, call) => AppendKeepsValid(s.imports, setId, call);
      case Update(key, state, evidence) =>
        UpdateKeepsValid(s.lifecycle, s.imports.Rows(key.setId), key, state, evidence);
      case Compensate(key, state, stale) =>
        CompensationKeepsValid(s.lifecycle, s.imports.Rows(key.setId), key, state, stale);
      case Probe(key, outcome, details) => RecordKeepsValid(s.probes, s.imports.Rows(key.setId), key, outcome, details);
    }
    forall key | KnownKey(s.imports, key) { KnownKeysStayKnown(s, op, key); }
  }

  /** Every reachable store is valid: rows, counters, batches, states, history and probes agree. */
  lemma {:induction false} RunsAreValid(ops: seq<Op>)
    ensures StoreValid(Run(ops))
  {
    if ops != [] {
      RunsAreValid(ops[..|ops| - 1]);
      ApplyKeepsValid(Run(ops[..|ops| - 1]), ops[|ops| - 1]);
    }
  }

  // --- Conservation -----------------------------------------------------------------------------

  /** The accepted appends to one set since it was loaded. */
  function AcceptedAppends(ops: seq<Op>, setId: CredentialSetId): nat {
    if ops == [] then 0
    else
      var rest, last := AcceptedAppends(ops[..|ops| - 1], setId), ops[|ops| - 1];
      if last.Append? && last.setId == setId && setId in Run(ops[..|ops| - 1]).imports.sets then rest + 1 else rest
  }

  lemma GenerationStep(s: Store, op: Op, setId: CredentialSetId)
    requires ImportsValid(s.imports)
    ensures GenerationMoves(s.imports.sets, Apply(s, op).imports.sets, setId,
                            if op.Append? && op.setId == setId then 1 else 0)
  {
    match op {
      case Load(loaded, path, raw) => BootstrapGeneration(s.imports, loaded, path, raw, setId);
      case Append(extended, call) => AppendGeneration(s.imports, extended, call, setId);
      case Update(_, _, _) => case Compensate(_, _, _) => case Probe(_, _, _) =>
    }
  }

  lemma {:induction false} GenerationCountsAppends(ops: seq<Op>, setId: CredentialSetId)
    ensures var sets := Run(ops).imports.sets;
            if setId in sets then sets[setId].generation == 1 + AcceptedAppends(ops, setId)
            else AcceptedAppends(ops, setId) == 0
  {
    if ops != [] {
      GenerationCountsAppends(ops[..|ops| - 1], setId);
      RunsAreValid(ops[..|ops| - 1]);
      GenerationStep(Run(ops[..|ops| - 1]), ops[|ops| - 1], setId);
    }
  }

  /**
   In every reachable store the unique counter of a set is its row count, non-empty is unique plus duplicate,
   physical is non-empty plus empty, all five are the sums over its import batches, positions are 0 .. n-1,
   and the generation is one more than the number of accepted appends.
   */
  lemma LedgerConservation(ops: seq<Op>, setId: CredentialSetId)
    ensures var t := Run(ops).imports;
            setId in t.sets ==>
              var row := t.sets[setId];
              && row.counts.keys.unique == |t.Rows(setId)|
              && row.counts.keys.nonEmpty == row.counts.keys.unique + row.counts.keys.duplicates
              && row.counts.lines.physical == row.counts.keys.nonEmpty + row.counts.lines.empties
              && row.counts == BatchTotals(t.batches, setId)
              && row.generation == 1 + AcceptedAppends(ops, setId)
              && forall i :: 0 <= i < |t.Rows(setId)| ==> t.Rows(setId)[i].position == i
  {
    RunsAreValid(ops);
    GenerationCountsAppends(ops, setId);
    assert setId in Run(ops).imports.sets ==> SetValid(Run(ops).imports, setId);
  }

  // --- Lifecycle: last write wins ---------------------------------------------------------------

  /** Did the operation write this credential's state? Writes to unknown credentials are refused. */
  predicate Writes(s: Store, op: Op, key: Key) {
    (op.Update? || op.Compensate?) && op.key == key && HasCredential(s.imports.Rows(key.setId), key.credentialId)
  }

  /** The state of the last accepted write to a credential. */
  function LastWritten(ops: seq<Op>, key: Key): LifecycleState {
    if ops == [] then Available
    else if Writes(Run(ops[..|ops| - 1]), ops[|ops| - 1], key) then ops[|ops| - 1].state
    else LastWritten(ops[..|ops| - 1], key)
  }

  lemma {:induction false} CurrentStateIsLastWritten(ops: seq<Op>, key: Key)
    ensures CurrentState(Run(ops).lifecycle, key) == Some(LastWritten(ops, key))
  {
    if ops != [] {
      var s, op := Run(ops[..|ops| - 1]), ops[|ops| - 1];
      CurrentStateIsLastWritten(ops[..|ops| - 1], key);
      if op.Update? || op.Compensate? {
        WriteStateIsLastWriteWins(s.lifecycle.states, op.key, op.state, key, s.lifecycle.history,
                                  s.lifecycle.nextHistoryId);
      }
    }
  }

  lemma StatesOfStores(s: Store, setId: CredentialSetId, id: CredentialId, state: LifecycleState)
    requires LifecycleValid(s.lifecycle) && CurrentState(s.lifecycle, Key(setId, id)) == Some(state)
    ensures Stores(StatesOf(s.lifecycle.states, setId), id, state)
  {
    var key, byId := Key(setId, id), StatesOf(s.lifecycle.states, setId);
    if key in s.lifecycle.states {
      var stored: LifecycleState :| !stored.Available?
          && s.lifecycle.states[key] == StateRow(StateKind(stored), StateReason(stored));
      CodecsRoundTrip(stored, Compensation);
      assert byId[key.credentialId] == s.lifecycle.states[key];
      assert StateKind(stored)[0] != "available"[0];
    } else {
      assert id !in byId;
    }
  }

  lemma CredentialIdsDistinct(t: ImportTables, setId: CredentialSetId)
    requires ImportsValid(t)
    ensures Distinct(IdsOf(setId, t.Rows(setId)))
    ensures ByPosition(t.Rows(setId)) == t.Rows(setId)
    ensures forall id :: HasCredential(t.Rows(setId), id) ==> id in IdsOf(setId, t.Rows(setId))
  {
    var rows := t.Rows(setId);
    if setId in t.sets {
      assert SetValid(t, setId);
      InPositionOrder(rows, 0);
      assert forall i :: 0 <= i < |rows| ==>
               IdsOf(setId, rows)[i].secret == Secrets(rows)[i] && IdsOf(setId, rows)[i] == rows[i].id;
    }
  }

  /**
   After any run, loading the lifecycle snapshots of a set never fails: it returns exactly the credentials
   whose last accepted write was not "available", in position order, with the state and reason written.
   */
  lemma SnapshotsAreLastWritten(ops: seq<Op>, setId: CredentialSetId)
    ensures var rows := Run(ops).imports.Rows(setId);
            LoadedSnapshots(Run(ops).lifecycle, setId, rows)
            == Ok(Reported(setId, IdsOf(setId, rows), id => LastWritten(ops, Key(setId, id))))
  {
    var s := Run(ops);
    var ids, byId := IdsOf(setId, s.imports.Rows(setId)), StatesOf(s.lifecycle.states, setId);
    RunsAreValid(ops);
    CredentialIdsDistinct(s.imports, setId);
    forall id ensures Stores(byId, id, LastWritten(ops, Key(setId, id))) {
      CurrentStateIsLastWritten(ops, Key(setId, id));
      StatesOfStores(s, setId, id, LastWritten(ops, Key(setId, id)));
    }
    forall id <- byId ensures id in ids {
      assert Key(setId, id) in s.lifecycle.states;
      assert KnownKey(s.imports, Key(setId, id));
    }
    LoadReportsStates(setId, ids, byId, id => LastWritten(ops, Key(setId, id)));
  }

  lemma IdsAreRowIds(t: ImportTables, setId: CredentialSetId)
    requires ImportsValid(t)
    ensures var rows := t.Rows(setId);
            && |IdsOf(setId, rows)| == |rows|
            && (forall i :: 0 <= i < |rows| ==> IdsOf(setId, rows)[i] == rows[i].id && rows[i].position == i)
            && forall id :: id in IdsOf(setId, rows) <==> HasCredential(rows, id)
  {
    assert setId in t.sets ==> SetValid(t, setId);
    CredentialIdsDistinct(t, setId);
  }

  /** The same, said of each snapshot: a stored credential's last write when it was not "available". */
  lemma SnapshotsReadWrites(ops: seq<Op>, setId: CredentialSetId)
    ensures var rows := Run(ops).imports.Rows(setId);
            var r := LoadedSnapshots(Run(ops).lifecycle, setId, rows);
            && r.Ok?
            && (forall s :: s in r.value
                            <==> && s.setId == setId && HasCredential(rows, s.credentialId)
                                 && !s.state.Available? && s.state == LastWritten(ops, Key(setId, s.credentialId)))
            && InOrderOf(r.value, IdsOf(setId, rows))
            && forall i :: 0 <= i < |rows| ==> IdsOf(setId, rows)[i] == rows[i].id && rows[i].position == i
  {
    var t, rows := Run(ops).imports, Run(ops).imports.Rows(setId);
    SnapshotsAreLastWritten(ops, setId);
    RunsAreValid(ops);
    CredentialIdsDistinct(t, setId);
    ReportedExactly(setId, IdsOf(setId, rows), id => LastWritten(ops, Key(setId, id)));
    IdsAreRowIds(t, setId);
  }

  /** Without compensations, the newest history record of every credential carries its current state. */
  lemma {:induction false} EvidenceHistoryMatchesState(ops: seq<Op>, key: Key)
    requires forall op <- ops :: !op.Compensate?
    ensures HistoryMatchesState(Run(ops).lifecycle, key)
  {
    if ops != [] {
      var s, op := Run(ops[..|ops| - 1]), ops[|ops| - 1];
      EvidenceHistoryMatchesState(ops[..|ops| - 1], key);
      if op.Update? && HasCredential(s.imports.Rows(op.key.setId), op.key.credentialId) {
        UpdateEffect(s.lifecycle, s.imports.Rows(op.key.setId), op.key, op.state, op.evidence, key);
      }
    }
  }

  // --- Probe projections ------------------------------------------------------------------------

  /** In every reachable store the probe projections of a set split its credentials in position order. */
  lemma ReachableProjectionsAgree(ops: seq<Op>, setId: CredentialSetId)
    ensures ProjectionsAgree(Run(ops).probes.results, setId, IdsOf(setId, ByPosition(Run(ops).imports.Rows(setId))))
  {
    var s := Run(ops);
    var results, ids := s.probes.results, IdsOf(setId, s.imports.Rows(setId));
    RunsAreValid(ops);
    CredentialIdsDistinct(s.imports, setId);
    forall r <- results | r.key.setId == setId ensures r.key.credentialId in ids {
      assert KnownKey(s.imports, r.key);
    }
    ProjectionsPartition(results, setId, ids);
  }
}
