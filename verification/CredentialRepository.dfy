/** The SQLite credential repository: its transactions as methods, proved against the table functions. */
module CredentialRepository {
  import opened Outcomes
  import opened Strings
  import opened FirstOccurrences
  import opened CredentialImports
  import opened CredentialLifecycle
  import opened CredentialProbes
  import opened Ledger

  lemma ExistingLineOfConcat(a: seq<CredentialRow>, b: seq<CredentialRow>, secret: string)
    ensures ExistingLine(a + b, secret)
            == if ExistingLine(a, secret).Some? then ExistingLine(a, secret) else ExistingLine(b, secret)
  {
    if a == [] {
      assert a + b == b;
    } else {
      assert (a + b)[1..] == a[1..] + b;
      ExistingLineOfConcat(a[1..], b, secret);
    }
  }

  /**
   Inside the transaction the table already holds the batch's own rows; a secret not yet seen in the batch is looked up
   as before it.
   */
  lemma LookupInsideTransaction(ctx: ScanContext, lines: seq<string>, setId: CredentialSetId, secret: string)
    requires secret !in ScanLines(ctx, lines).lineOf
    ensures var rows := ctx.existing + RowsFor(setId, ScanLines(ctx, lines).added, |ctx.existing|);
            ExistingLine(rows, secret) == ExistingLine(ctx.existing, secret)
    ensures ExistingLine(ctx.existing, secret).None? ==>
              secret !in Secrets(ctx.existing + RowsFor(setId, ScanLines(ctx, lines).added, |ctx.existing|))
  {
    var added := ScanLines(ctx, lines).added;
    var newRows := RowsFor(setId, added, |ctx.existing|);
    ExistingLineOfConcat(ctx.existing, newRows, secret);
    ExistingLineFindsSecret(ctx.existing + newRows, secret);
    if ExistingLine(ctx.existing, secret).None? {
      ScanMeaning(ctx, lines);
      FirstsElements(Keys(lines), Known(ctx));
      assert Secrets(newRows) == AddedSecrets(added);
      assert secret !in Elements(AddedSecrets(added));
      ExistingLineFindsSecret(newRows, secret);
    }
  }

  lemma LookupAsBefore(ctx: ScanContext, lines: seq<string>, setId: CredentialSetId, rows: seq<CredentialRow>,
                       secret: string)
    requires secret !in ScanLines(ctx, lines).lineOf
    requires rows == ctx.existing + RowsFor(setId, ScanLines(ctx, lines).added, |ctx.existing|)
    ensures ExistingLine(rows, secret) == ExistingLine(ctx.existing, secret)
    ensures ExistingLine(rows, secret).None? ==> secret !in Secrets(rows)
  {
    LookupInsideTransaction(ctx, lines, setId, secret);
  }

  /** `insert_sqlite_credential`: the table demands an unused fingerprint and an unused position. */
  function InsertCredential(rows: seq<CredentialRow>, setId: CredentialSetId, credential: ImportedCredential,
                            position: nat): seq<CredentialRow>
    requires credential.secret !in Secrets(rows)
    requires forall row <- rows :: row.position != position
  {
    rows + [CredentialRow(CredentialId(setId.name, credential.secret), credential.secret, credential.source, position)]
  }

  lemma ScanStep(ctx: ScanContext, lines: seq<string>, i: nat)
    requires i < |lines|
    ensures ScanLines(ctx, lines[..i + 1]) == ScanLine(ctx, ScanLines(ctx, lines[..i]), lines[i], i + 1)
  {
    assert lines[..i + 1][..i] == lines[..i];
  }

  /** `import_raw_credentials`. */
  method ImportRawCredentials(setId: CredentialSetId, path: string, raw: string)
    returns (r: Result<KeyImport, StoreError>)
    ensures r == RawImport(setId, path, raw)
  {
    ghost var ctx := BootstrapContext(setId, path);
    var lines := Lines(raw);
    var credentials: seq<ImportedCredential>, duplicates: seq<DuplicateOccurrence> := [], [];
    var seen: map<string, nat> := map[];
    var nonEmpty, ignoredEmpty := 0, 0;
    for i := 0 to |lines|
      invariant ScanLines(ctx, lines[..i]) == Scan(seen, credentials, duplicates, nonEmpty, ignoredEmpty)
      invariant nonEmpty + ignoredEmpty == i
    {
      ScanStep(ctx, lines, i);
      var sourceLine, key := i + 1, Trim(lines[i]);
      if key == "" {
        ignoredEmpty := ignoredEmpty + 1;
        continue;
      }
      nonEmpty := nonEmpty + 1;
      if key in seen {
        duplicates := duplicates + [DuplicateOccurrence(seen[key], sourceLine, ShortHash(key))];
        continue;
      }
      seen := seen[key := sourceLine];
      var source := CredentialSource(Some(path), Some(sourceLine), Some(setId.name));
      credentials := credentials + [ImportedCredential(key, source)];
    }
    assert lines[..|lines|] == lines;
    if credentials == [] {
      return Err(NoKeys);
    }
    var counts := Counts(LineCounts(|lines|, ignoredEmpty), KeyCounts(nonEmpty, |credentials|, |duplicates|));
    r := Ok(KeyImport(credentials, ImportReport(path, counts, 1, duplicates)));
  }

  ghost predicate InOrder(rows: seq<CredentialRow>) {
    forall k :: 0 <= k < |rows| ==> rows[k].position == k
  }

  /** One more row at the next position. */
  lemma InsertRow(existing: seq<CredentialRow>, setId: CredentialSetId, credentials: seq<ImportedCredential>,
                  c: ImportedCredential)
    requires InOrder(existing)
    ensures var rows := existing + RowsFor(setId, credentials, |existing|);
            && InOrder(rows) && |rows| == |existing| + |credentials|
            && existing + RowsFor(setId, credentials + [c], |existing|)
               == rows + [CredentialRow(CredentialId(setId.name, c.secret), c.secret, c.source, |rows|)]
  {
    assert RowsFor(setId, credentials + [c], |existing|)
           == RowsFor(setId, credentials, |existing|)
              + [CredentialRow(CredentialId(setId.name, c.secret), c.secret, c.source, |existing| + |credentials|)];
  }

  /** The next position is free, and a row inserted there is the row of the next new credential. */
  lemma NextRow(existing: seq<CredentialRow>, setId: CredentialSetId, credentials: seq<ImportedCredential>,
                rows: seq<CredentialRow>, c: ImportedCredential, position: nat)
    requires InOrder(existing) && rows == existing + RowsFor(setId, credentials, |existing|)
    requires position == |existing| + |credentials|
    ensures forall row <- rows :: row.position != position
    ensures existing + RowsFor(setId, credentials + [c], |existing|)
            == rows + [CredentialRow(CredentialId(setId.name, c.secret), c.secret, c.source, position)]
  {
    InsertRow(existing, setId, credentials, c);
    assert |rows| == position;
  }

  /**
   The old rows followed by the new ones at the next positions, and the report and counters of one scan of the batch.
   */
  ghost predicate BatchRead(ctx: ScanContext, setId: CredentialSetId, secrets: seq<string>, rows: seq<CredentialRow>,
                            credentials: seq<ImportedCredential>, duplicates: seq<DuplicateOccurrence>, counts: Counts)
  {
    var scan := ScanLines(ctx, secrets);
    && credentials == scan.added && duplicates == scan.duplicates && counts == scan.Totals()
    && rows == ctx.existing + RowsFor(setId, scan.added, NextPosition(ctx.existing))
  }

  /**
   The loop of `append_credentials_excluding_secrets`: classifies each line and inserts the new secrets as it goes.
   */
  method InsertBatch(existing: seq<CredentialRow>, setId: CredentialSetId, secrets: seq<string>, batchId: string,
                     excluded: set<string>)
    returns (rows: seq<CredentialRow>, credentials: seq<ImportedCredential>, duplicates: seq<DuplicateOccurrence>,
             counts: Counts)
    requires InOrder(existing)
    ensures BatchRead(ScanContext(existing, excluded, None, batchId), setId, secrets, rows, credentials, duplicates,
                      counts)
  {
    ghost var ctx := ScanContext(existing, excluded, None, batchId);
    rows, credentials, duplicates := existing, [], [];
    var batchSeen: map<string, nat> := map[];
    var nonEmpty, ignoredEmpty := 0, 0;
    var nextPosition := NextPosition(rows);
    NextPositionIsLength(rows);
    for i := 0 to |secrets|
      invariant ScanLines(ctx, secrets[..i]) == Scan(batchSeen, credentials, duplicates, nonEmpty, ignoredEmpty)
      invariant rows == existing + RowsFor(setId, credentials, |existing|)
      invariant nextPosition == |existing| + |credentials|
    {
      ScanStep(ctx, secrets, i);
      ghost var scan := ScanLines(ctx, secrets[..i]);
      var sourceLine, secret := i + 1, Trim(secrets[i]);
      if secret == "" {
        ignoredEmpty := ignoredEmpty + 1;
        continue;
      }
      nonEmpty := nonEmpty + 1;
      if secret in batchSeen {
        duplicates := duplicates + [DuplicateOccurrence(batchSeen[secret], sourceLine, Sha256(secret))];
        continue;
      }
      LookupAsBefore(ctx, secrets[..i], setId, rows, secret);
      var firstSourceLine := ExistingLine(rows, secret);
      if firstSourceLine.Some? {
        duplicates := duplicates + [DuplicateOccurrence(firstSourceLine.value, sourceLine, Sha256(secret))];
        continue;
      }
      if secret in excluded {
        duplicates := duplicates + [DuplicateOccurrence(sourceLine, sourceLine, Sha256(secret))];
        continue;
      }
      batchSeen := batchSeen[secret := sourceLine];
      var imported := ImportedCredential(secret, CredentialSource(None, Some(sourceLine), Some(batchId)));
      NextRow(existing, setId, credentials, rows, imported, nextPosition);
      rows := InsertCredential(rows, setId, imported, nextPosition);
      nextPosition := nextPosition + 1;
      credentials := credentials + [imported];
    }
    assert secrets[..|secrets|] == secrets;
    counts := Counts(LineCounts(nonEmpty + ignoredEmpty, ignoredEmpty),
                     KeyCounts(nonEmpty, |credentials|, |duplicates|));
  }

  /** Once a batch has been read, the transaction leaves what its commit leaves. */
  lemma BatchCommits(t: ImportTables, setId: CredentialSetId, call: AppendCall, rows: seq<CredentialRow>,
                     credentials: seq<ImportedCredential>, duplicates: seq<DuplicateOccurrence>, counts: Counts)
    requires setId in t.sets
             && BatchRead(AppendContext(t, setId, call), setId, call.lines, rows, credentials, duplicates, counts)
    ensures Appended(t, setId, call) == Committed(t, setId, call.batchId, rows, credentials, duplicates, counts)
  {
  }

  /** Adds the batch to the counters, bumps the generation and records the batch. */
  method CommitBatch(t: ImportTables, setId: CredentialSetId, batchId: string, rows: seq<CredentialRow>,
                     credentials: seq<ImportedCredential>, duplicates: seq<DuplicateOccurrence>, counts: Counts)
    returns (t': ImportTables, r: Result<KeyImport, StoreError>)
    requires setId in t.sets
    ensures (t', r) == Committed(t, setId, batchId, rows, credentials, duplicates, counts)
  {
    var counted := t.sets[setId];
    counted := counted.(counts := counted.counts.Plus(counts));
    counted := counted.(generation := counted.generation + 1);
    t' := t.(credentials := t.credentials[setId := rows]);
    t' := t'.(sets := t'.sets[setId := counted]);
    t' := t'.(batches := t'.batches + [BatchRow(setId, batchId, ManagementApi, counts)]);
    r := Ok(KeyImport(credentials, ImportReport(batchId, counts, counted.generation, duplicates)));
  }

  /** The next credential of an import has a new secret, and its index is free. */
  lemma ImportRow(setId: CredentialSetId, credentials: seq<ImportedCredential>, rows: seq<CredentialRow>, position: nat)
    requires position < |credentials| && Distinct(AddedSecrets(credentials))
    requires rows == RowsFor(setId, credentials[..position], 0)
    ensures credentials[position].secret !in Secrets(rows) && forall row <- rows :: row.position != position
    ensures var c := credentials[position];
            RowsFor(setId, credentials[..position + 1], 0)
            == rows + [CredentialRow(CredentialId(setId.name, c.secret), c.secret, c.source, position)]
  {
    assert Secrets(rows) == AddedSecrets(credentials)[..position];
    assert credentials[position].secret == AddedSecrets(credentials)[position];
    forall row <- rows ensures row.position != position {
      var k :| 0 <= k < |rows| && rows[k] == row;
    }
  }

  /** The insert loop of `persist_import`. */
  method InsertImported(setId: CredentialSetId, credentials: seq<ImportedCredential>) returns (rows: seq<CredentialRow>)
    requires Distinct(AddedSecrets(credentials))
    ensures rows == RowsFor(setId, credentials, 0)
  {
    rows := [];
    for position := 0 to |credentials|
      invariant rows == RowsFor(setId, credentials[..position], 0)
    {
      ImportRow(setId, credentials, rows, position);
      rows := InsertCredential(rows, setId, credentials[position], position);
    }
    assert credentials[..|credentials|] == credentials;
  }

  /** The transaction of `append_credentials_excluding_secrets` over the import tables. */
  method AppendToTables(t: ImportTables, setId: CredentialSetId, secrets: seq<string>, batchId: string,
                        excluded: set<string>)
    returns (t': ImportTables, r: Result<KeyImport, StoreError>)
    requires InOrder(t.Rows(setId))
    ensures (t', r) == Appended(t, setId, AppendCall(secrets, batchId, excluded))
  {
    if setId !in t.sets {
      return t, Err(UnknownSet);
    }
    var rows, credentials, duplicates, counts := InsertBatch(t.Rows(setId), setId, secrets, batchId, excluded);
    BatchCommits(t, setId, AppendCall(secrets, batchId, excluded), rows, credentials, duplicates, counts);
    t', r := CommitBatch(t, setId, batchId, rows, credentials, duplicates, counts);
  }

  lemma RowsAreInOrder(t: ImportTables, setId: CredentialSetId)
    requires ImportsValid(t)
    ensures InOrder(t.Rows(setId))
  {
    if setId in t.sets {
      assert SetValid(t, setId);
    }
  }

  class SqliteCredentialRepository {
    var imports: ImportTables
    var lifecycle: LifecycleTables
    var probes: ProbeTables

    ghost function Contents(): Store
      reads this
    {
      Store(imports, lifecycle, probes)
    }

    ghost predicate Valid()
      reads this
    {
      StoreValid(Contents())
    }

    /** `open` on a fresh database. */
    constructor ()
      ensures Valid() && Contents() == Run([])
    {
      imports := ImportTables(map[], map[], []);
      lifecycle := LifecycleTables(map[], [], 0);
      probes := ProbeTables([], 0);
      new;
      RunsAreValid([]);
    }

    /** `load_credential_set`: bootstraps from the key file when the set has no rows. */
    method LoadCredentialSet(setId: CredentialSetId, path: string, raw: string)
      returns (r: Result<KeyImport, StoreError>)
      requires Valid()
      modifies this`imports
      ensures Valid() && Contents() == Apply(old(Contents()), Load(setId, path, raw))
      ensures r == Bootstrapped(old(imports), setId, path, raw).1
    {
      ApplyKeepsValid(Contents(), Load(setId, path, raw));
      if imports.Rows(setId) != [] {
        return Loaded(imports, setId);
      }
      var imported := ImportRawCredentials(setId, path, raw);
      if imported.Err? {
        return imported;
      }
      PersistImport(setId, path, raw, imported.value);
      r := imported;
    }

    /** `persist_import`: writes the set row, every credential at its index, and the bootstrap batch. */
    method PersistImport(setId: CredentialSetId, path: string, raw: string, imported: KeyImport)
      requires RawImport(setId, path, raw) == Ok(imported)
      modifies this`imports
      ensures imports == Persisted(old(imports), setId, imported)
    {
      var report := imported.report;
      ghost var ctx := BootstrapContext(setId, path);
      AddedSecretsAreNew(ctx, Lines(raw));
      var rows := InsertImported(setId, imported.credentials);
      imports := ImportTables(
        imports.sets[setId := SetRow(report.sourcePath, report.counts, report.generation)],
        imports.credentials[setId := rows],
        imports.batches + [BatchRow(setId, setId.name, FileBootstrap, report.counts)]);
    }

    /** `append_credentials_excluding_secrets`. */
    method AppendCredentialsExcludingSecrets(setId: CredentialSetId, secrets: seq<string>, batchId: string,
                                             excluded: set<string>)
      returns (r: Result<KeyImport, StoreError>)
      requires Valid()
      modifies this`imports
      ensures Valid() && Contents() == Apply(old(Contents()), Append(setId, AppendCall(secrets, batchId, excluded)))
      ensures r == Appended(old(imports), setId, AppendCall(secrets, batchId, excluded)).1
    {
      ApplyKeepsValid(Contents(), Append(setId, AppendCall(secrets, batchId, excluded)));
      RowsAreInOrder(imports, setId);
      imports, r := AppendToTables(imports, setId, secrets, batchId, excluded);
    }

    /** `persist_lifecycle_update_with_evidence`: one transaction over both lifecycle tables. */
    method PersistLifecycleUpdateWithEvidence(key: Key, state: LifecycleState, evidence: Evidence)
      returns (historyId: Result<nat, StoreError>)
      requires Valid()
      modifies this`lifecycle
      ensures Valid() && Contents() == Apply(old(Contents()), Update(key, state, evidence))
      ensures historyId.Ok? ==>
                CurrentState(lifecycle, key) == Some(state) && historyId.value == old(lifecycle.nextHistoryId)
      ensures historyId.Err? <==> !HasCredential(imports.Rows(key.setId), key.credentialId)
    {
      ApplyKeepsValid(Contents(), Update(key, state, evidence));
      WriteStateIsLastWriteWins(lifecycle.states, key, state, key, lifecycle.history, lifecycle.nextHistoryId);
      if !HasCredential(imports.Rows(key.setId), key.credentialId) {
        return Err(UnknownCredential);
      }
      var id := lifecycle.nextHistoryId;
      lifecycle := lifecycle.(states := WriteState(lifecycle.states, key, state));
      var row := HistoryRow(id, key, StateKind(state), StateReason(state), SourceCode(evidence.source),
                            evidence.details);
      lifecycle := lifecycle.(history := lifecycle.history + [row], nextHistoryId := id + 1);
      historyId := Ok(id);
    }

    /** `persist_lifecycle_snapshot`: the compensation of an update. */
    method PersistLifecycleSnapshot(key: Key, state: LifecycleState, staleHistoryId: Option<nat>)
      returns (r: Result<Snapshot, StoreError>)
      requires Valid()
      modifies this`lifecycle
      ensures Valid() && Contents() == Apply(old(Contents()), Compensate(key, state, staleHistoryId))
      ensures r.Ok? ==> CurrentState(lifecycle, key) == Some(state)
    {
      ApplyKeepsValid(Contents(), Compensate(key, state, staleHistoryId));
      WriteStateIsLastWriteWins(lifecycle.states, key, state, key, lifecycle.history, lifecycle.nextHistoryId);
      if !HasCredential(imports.Rows(key.setId), key.credentialId) {
        return Err(UnknownCredential);
      }
      lifecycle := lifecycle.(states := WriteState(lifecycle.states, key, state));
      if staleHistoryId.Some? {
        lifecycle := lifecycle.(history := DeleteHistory(lifecycle.history, key, staleHistoryId.value));
      }
      r := Ok(Snapshot(key.setId, key.credentialId, state));
    }

    /** `load_lifecycle_snapshots`: takes the states off credential by credential. */
    method LoadLifecycleSnapshots(setId: CredentialSetId) returns (r: Result<seq<Snapshot>, StoreError>)
      ensures r == LoadedSnapshots(lifecycle, setId, imports.Rows(setId))
    {
      var lifecycleById := StatesOf(lifecycle.states, setId);
      var ids := IdsOf(setId, ByPosition(imports.Rows(setId)));
      var snapshots: seq<Snapshot> := [];
      ghost var expected := TakeSnapshots(setId, ids, lifecycleById);
      assert ids[0..] == ids && (expected.Ok? ==> [] + expected.value == expected.value);
      for i := 0 to |ids|
        invariant expected == Prepend(snapshots, TakeSnapshots(setId, ids[i..], lifecycleById))
      {
        assert ids[i..][0] == ids[i] && ids[i..][1..] == ids[i + 1..];
        if ids[i] in lifecycleById {
          var state := StoredState(lifecycleById[ids[i]]);
          if state.None? {
            return Err(UnknownState);
          }
          lifecycleById := lifecycleById - {ids[i]};
          ghost var rest := TakeSnapshots(setId, ids[i + 1..], lifecycleById);
          assert rest.Ok? ==> snapshots + ([Snapshot(setId, ids[i], state.value)] + rest.value)
                              == snapshots + [Snapshot(setId, ids[i], state.value)] + rest.value;
          snapshots := snapshots + [Snapshot(setId, ids[i], state.value)];
        }
      }
      if lifecycleById != map[] {
        return Err(OrphanState);
      }
      assert snapshots + [] == snapshots;
      r := Ok(snapshots);
    }

    /** `record_probe_result`. */
    method RecordProbeResult(key: Key, outcome: ProbeOutcome, details: ProbeDetails)
      returns (r: Result<ProbeRow, StoreError>)
      requires Valid()
      modifies this`probes
      ensures Valid() && Contents() == Apply(old(Contents()), Probe(key, outcome, details))
      ensures r.Ok? ==> Latest(probes.results, key) == Some(r.value)
      ensures r.Err? <==> !HasCredential(imports.Rows(key.setId), key.credentialId)
    {
      ApplyKeepsValid(Contents(), Probe(key, outcome, details));
      if !HasCredential(imports.Rows(key.setId), key.credentialId) {
        return Err(UnknownCredential);
      }
      var row := ProbeRow(probes.nextProbeId, key, outcome, details);
      probes := ProbeTables(probes.results + [row], probes.nextProbeId + 1);
      r := Ok(row);
    }
  }
}
