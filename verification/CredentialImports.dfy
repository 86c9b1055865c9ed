/**
 The import side of `src/credential_repository.rs`: the set, credential and import-batch tables, and
 what one bootstrap or append transaction does to them. Time stamps are not modelled.
 */
module CredentialImports {
  import opened Outcomes
  import opened Strings
  import opened FirstOccurrences

  datatype CredentialSetId = CredentialSetId(name: string)

  /** The hash of "namespace:secret", idealised as collision-free. */
  datatype CredentialId = CredentialId(namespace: string, secret: string)

  /** The two digests used as fingerprints, idealised as collision-free. */
  datatype Fingerprint = ShortHash(text: string) | Sha256(text: string)

  datatype CredentialSource =
    CredentialSource(sourcePath: Option<string>, sourceLine: Option<nat>, batchId: Option<string>)
  datatype ImportedCredential = ImportedCredential(secret: string, source: CredentialSource)
  datatype DuplicateOccurrence =
    DuplicateOccurrence(firstSourceLine: nat, duplicateSourceLine: nat, fingerprint: Fingerprint)

  datatype LineCounts = LineCounts(physical: nat, empties: nat)
  datatype KeyCounts = KeyCounts(nonEmpty: nat, unique: nat, duplicates: nat)

  /** The five counters of a set or a batch. */
  datatype Counts = Counts(lines: LineCounts, keys: KeyCounts)
  {
    function Plus(other: Counts): Counts {
      Counts(LineCounts(lines.physical + other.lines.physical, lines.empties + other.lines.empties),
             KeyCounts(keys.nonEmpty + other.keys.nonEmpty, keys.unique + other.keys.unique,
                       keys.duplicates + other.keys.duplicates))
    }
  }

  datatype CredentialRow = CredentialRow(id: CredentialId, secret: string, source: CredentialSource, position: nat)
  datatype SetRow = SetRow(sourcePath: string, counts: Counts, generation: nat)
  datatype SourceKind = FileBootstrap | ManagementApi
  datatype BatchRow = BatchRow(setId: CredentialSetId, batchId: string, kind: SourceKind, counts: Counts)

  /** The credential table is kept per set, the leading column of its primary key. */
  datatype ImportTables = ImportTables(
    sets: map<CredentialSetId, SetRow>,
    credentials: map<CredentialSetId, seq<CredentialRow>>,
    batches: seq<BatchRow>)
  {
    function Rows(setId: CredentialSetId): seq<CredentialRow> {
      if setId in credentials then credentials[setId] else []
    }
  }

  datatype ImportReport =
    ImportReport(sourcePath: string, counts: Counts, generation: nat, duplicates: seq<DuplicateOccurrence>)
  datatype KeyImport = KeyImport(credentials: seq<ImportedCredential>, report: ImportReport)
  datatype StoreError = UnknownSet | NoKeys | NoCredentials | NoMetadata | UnknownCredential | UnknownState
                      | OrphanState

  // --- Queries ----------------------------------------------------------------------------------

  /** COALESCE(source_line, position + 1) of the row that holds the secret. */
  function ExistingLine(rows: seq<CredentialRow>, secret: string): Option<nat> {
    if rows == [] then None
    else if rows[0].secret == secret then
      Some(if rows[0].source.sourceLine.Some? then rows[0].source.sourceLine.value else rows[0].position + 1)
    else ExistingLine(rows[1..], secret)
  }

  /** COALESCE(MAX(position) + 1, 0). */
  function NextPosition(rows: seq<CredentialRow>): nat {
    if rows == [] then 0
    else
      var rest, last := NextPosition(rows[..|rows| - 1]), rows[|rows| - 1].position;
      if last + 1 > rest then last + 1 else rest
  }

  function InsertByPosition(row: CredentialRow, rows: seq<CredentialRow>): seq<CredentialRow> {
    if rows == [] || row.position <= rows[0].position then [row] + rows
    else [rows[0]] + InsertByPosition(row, rows[1..])
  }

  /** ORDER BY position ASC. */
  function ByPosition(rows: seq<CredentialRow>): seq<CredentialRow> {
    if rows == [] then [] else InsertByPosition(rows[0], ByPosition(rows[1..]))
  }

  function Secrets(rows: seq<CredentialRow>): seq<string> {
    seq(|rows|, i requires 0 <= i < |rows| => rows[i].secret)
  }

  // --- One pass over the input lines ------------------------------------------------------------

  datatype ScanContext = ScanContext(
    existing: seq<CredentialRow>, excluded: set<string>, sourcePath: Option<string>, batchId: string)

  datatype Scan = Scan(
    lineOf: map<string, nat>, added: seq<ImportedCredential>, duplicates: seq<DuplicateOccurrence>,
    nonEmpty: nat, empties: nat)
  {
    function Totals(): Counts {
      Counts(LineCounts(nonEmpty + empties, empties), KeyCounts(nonEmpty, |added|, |duplicates|))
    }
  }

  function FingerprintIn(ctx: ScanContext, key: string): Fingerprint {
    if ctx.sourcePath.Some? then ShortHash(key) else Sha256(key)
  }

  /** The effect of one input line on the running scan. */
  function ScanLine(ctx: ScanContext, acc: Scan, raw: string, line: nat): Scan {
    var key := Trim(raw);
    var known := ExistingLine(ctx.existing, key);
    if key == "" then acc.(empties := acc.empties + 1)
    else if key in acc.lineOf then
      acc.(nonEmpty := acc.nonEmpty + 1,
           duplicates := acc.duplicates + [DuplicateOccurrence(acc.lineOf[key], line, FingerprintIn(ctx, key))])
    else if known.Some? then
      acc.(nonEmpty := acc.nonEmpty + 1,
           duplicates := acc.duplicates + [DuplicateOccurrence(known.value, line, FingerprintIn(ctx, key))])
    else if key in ctx.excluded then
      acc.(nonEmpty := acc.nonEmpty + 1,
           duplicates := acc.duplicates + [DuplicateOccurrence(line, line, FingerprintIn(ctx, key))])
    else
      acc.(nonEmpty := acc.nonEmpty + 1, lineOf := acc.lineOf[key := line],
           added := acc.added
                    + [ImportedCredential(key, CredentialSource(ctx.sourcePath, Some(line), Some(ctx.batchId)))])
  }

  function ScanLines(ctx: ScanContext, lines: seq<string>): Scan {
    if lines == [] then Scan(map[], [], [], 0, 0)
    else ScanLine(ctx, ScanLines(ctx, lines[..|lines| - 1]), lines[|lines| - 1], |lines|)
  }

  function AddedSecrets(added: seq<ImportedCredential>): seq<string> {
    seq(|added|, i requires 0 <= i < |added| => added[i].secret)
  }

  lemma {:induction false} ExistingLineFindsSecret(rows: seq<CredentialRow>, secret: string)
    ensures ExistingLine(rows, secret).Some? <==> secret in Secrets(rows)
  {
    if rows != [] {
      ExistingLineFindsSecret(rows[1..], secret);
      assert Secrets(rows) == [rows[0].secret] + Secrets(rows[1..]);
    }
  }

  lemma AddedSecretsSnoc(a: seq<ImportedCredential>, c: ImportedCredential)
    ensures AddedSecrets(a + [c]) == AddedSecrets(a) + [c.secret]
  {
  }

  function Known(ctx: ScanContext): set<string> {
    Elements(Secrets(ctx.existing)) + ctx.excluded
  }

  /** What a scan of n lines with the given keys has collected. */
  ghost predicate Collects(ctx: ScanContext, keys: seq<string>, n: nat, scan: Scan) {
    && AddedSecrets(scan.added) == Firsts(keys, Known(ctx))
    && scan.lineOf.Keys == Elements(keys) - Known(ctx)
    && scan.nonEmpty == |keys|
    && scan.nonEmpty + scan.empties == n
    && |scan.added| + |scan.duplicates| == scan.nonEmpty
  }

  lemma ScanLineCollects(ctx: ScanContext, keys: seq<string>, n: nat, acc: Scan, raw: string)
    requires Collects(ctx, keys, n, acc)
    ensures var key := Trim(raw);
            Collects(ctx, if key == "" then keys else keys + [key], n + 1, ScanLine(ctx, acc, raw, n + 1))
  {
    var key := Trim(raw);
    ExistingLineFindsSecret(ctx.existing, key);
    assert key in Known(ctx) <==> ExistingLine(ctx.existing, key).Some? || key in ctx.excluded;
    assert key in Elements(keys) <==> key in keys;
    if key != "" {
      ElementsOfConcat(keys, [key]);
      assert (keys + [key])[..|keys|] == keys;
      if key !in Known(ctx) && key !in keys {
        var next := ScanLine(ctx, acc, raw, n + 1);
        AddedSecretsSnoc(acc.added, next.added[|acc.added|]);
      }
    }
  }

  /** A scan keeps exactly the first occurrences of keys neither stored nor excluded, and counts every line once. */
  lemma {:induction false} ScanMeaning(ctx: ScanContext, lines: seq<string>)
    ensures Collects(ctx, Keys(lines), |lines|, ScanLines(ctx, lines))
  {
    if lines != [] {
      var n := |lines| - 1;
      ScanMeaning(ctx, lines[..n]);
      ScanLineCollects(ctx, Keys(lines[..n]), n, ScanLines(ctx, lines[..n]), lines[n]);
    } else {
      assert Elements(Keys(lines)) == {};
    }
  }

  // --- What a scan reports about lines ----------------------------------------------------------

  /** The 1-based number of the first line that trims to the key. */
  function FirstLine(lines: seq<string>, key: string): Option<nat> {
    if lines == [] then None
    else
      var earlier := FirstLine(lines[..|lines| - 1], key);
      if earlier.Some? then earlier
      else if Trim(lines[|lines| - 1]) == key then Some(|lines|) else None
  }

  /** The line a duplicate points back to: the stored row's, else its own if excluded, else the first in the batch. */
  function OriginLine(ctx: ScanContext, lines: seq<string>, key: string, line: nat): Option<nat> {
    var known := ExistingLine(ctx.existing, key);
    if known.Some? then known else if key in ctx.excluded then Some(line) else FirstLine(lines, key)
  }

  ghost predicate AddedAtFirstLine(ctx: ScanContext, lines: seq<string>, c: ImportedCredential) {
    c.source == CredentialSource(ctx.sourcePath, FirstLine(lines, c.secret), Some(ctx.batchId))
    && FirstLine(lines, c.secret).Some?
  }

  ghost predicate PointsBack(ctx: ScanContext, lines: seq<string>, d: DuplicateOccurrence) {
    && 1 <= d.duplicateSourceLine <= |lines|
    && var key := Trim(lines[d.duplicateSourceLine - 1]);
       && d.fingerprint == FingerprintIn(ctx, key)
       && OriginLine(ctx, lines, key, d.duplicateSourceLine) == Some(d.firstSourceLine)
       && (ctx.existing == [] ==> d.firstSourceLine <= d.duplicateSourceLine)
  }

  ghost predicate ReportsLines(ctx: ScanContext, lines: seq<string>, scan: Scan) {
    && (forall c <- scan.added :: AddedAtFirstLine(ctx, lines, c))
    && (forall d <- scan.duplicates :: PointsBack(ctx, lines, d))
    && (forall k <- scan.lineOf :: FirstLine(lines, k) == Some(scan.lineOf[k]) && scan.lineOf[k] <= |lines|
                                   && k !in ctx.excluded && ExistingLine(ctx.existing, k).None?)
    && (forall k :: FirstLine(lines, k).Some? && k != "" && k !in scan.lineOf ==>
                      k in ctx.excluded || ExistingLine(ctx.existing, k).Some?)
  }

  lemma FirstLineStep(lines: seq<string>, raw: string, key: string)
    ensures FirstLine(lines + [raw], key)
            == if FirstLine(lines, key).Some? then FirstLine(lines, key)
            else if Trim(raw) == key then Some(|lines| + 1) else None
  {
    assert (lines + [raw])[..|lines|] == lines;
  }

  lemma StillPointsBack(ctx: ScanContext, lines: seq<string>, raw: string, d: DuplicateOccurrence)
    requires PointsBack(ctx, lines, d)
    ensures PointsBack(ctx, lines + [raw], d)
  {
    FirstLineStep(lines, raw, Trim(lines[d.duplicateSourceLine - 1]));
  }

  lemma NewDuplicatePointsBack(ctx: ScanContext, lines: seq<string>, acc: Scan, raw: string)
    requires ReportsLines(ctx, lines, acc)
    ensures var next := ScanLine(ctx, acc, raw, |lines| + 1);
            next.duplicates == acc.duplicates
            || (next.duplicates[..|next.duplicates| - 1] == acc.duplicates
                && PointsBack(ctx, lines + [raw], next.duplicates[|next.duplicates| - 1]))
  {
    FirstLineStep(lines, raw, Trim(raw));
  }

  lemma ReportsOneMoreLine(ctx: ScanContext, lines: seq<string>, acc: Scan, raw: string)
    requires ReportsLines(ctx, lines, acc)
    ensures ReportsLines(ctx, lines + [raw], ScanLine(ctx, acc, raw, |lines| + 1))
  {
    var next := ScanLine(ctx, acc, raw, |lines| + 1);
    forall key
      ensures FirstLine(lines + [raw], key)
              == if FirstLine(lines, key).Some? then FirstLine(lines, key)
              else if Trim(raw) == key then Some(|lines| + 1) else None
    {
      FirstLineStep(lines, raw, key);
    }
    NewDuplicatePointsBack(ctx, lines, acc, raw);
    forall d <- next.duplicates ensures PointsBack(ctx, lines + [raw], d) {
      if d in acc.duplicates {
        StillPointsBack(ctx, lines, raw, d);
      }
    }
  }

  /**
   New credentials carry the line of their first occurrence; each duplicate points back to where its key comes from.
   */
  lemma {:induction false} ScanReports(ctx: ScanContext, lines: seq<string>)
    ensures ReportsLines(ctx, lines, ScanLines(ctx, lines))
  {
    if lines != [] {
      ScanReports(ctx, lines[..|lines| - 1]);
      ReportsOneMoreLine(ctx, lines[..|lines| - 1], ScanLines(ctx, lines[..|lines| - 1]), lines[|lines| - 1]);
      assert lines[..|lines| - 1] + [lines[|lines| - 1]] == lines;
    }
  }

  // --- Transactions -----------------------------------------------------------------------------

  function RowsFor(setId: CredentialSetId, added: seq<ImportedCredential>, base: nat): seq<CredentialRow> {
    seq(|added|, i requires 0 <= i < |added| =>
      CredentialRow(CredentialId(setId.name, added[i].secret), added[i].secret, added[i].source, base + i))
  }

  function BootstrapContext(setId: CredentialSetId, path: string): ScanContext {
    ScanContext([], {}, Some(path), setId.name)
  }

  /** `import_raw_credentials`: reads a key file, or fails when it holds no key. */
  function RawImport(setId: CredentialSetId, path: string, raw: string): Result<KeyImport, StoreError> {
    var scan := ScanLines(BootstrapContext(setId, path), Lines(raw));
    if scan.added == [] then Err(NoKeys)
    else Ok(KeyImport(scan.added, ImportReport(path, scan.Totals(), 1, scan.duplicates)))
  }

  /** `persist_import` into a set without a row. */
  function Persisted(t: ImportTables, setId: CredentialSetId, imported: KeyImport): ImportTables {
    var report := imported.report;
    ImportTables(
      t.sets[setId := SetRow(report.sourcePath, report.counts, report.generation)],
      t.credentials[setId := RowsFor(setId, imported.credentials, 0)],
      t.batches + [BatchRow(setId, setId.name, FileBootstrap, report.counts)])
  }

  /** `load_from_sqlite`. */
  function Loaded(t: ImportTables, setId: CredentialSetId): Result<KeyImport, StoreError> {
    var rows := ByPosition(t.Rows(setId));
    if setId !in t.sets then Err(NoMetadata)
    else if rows == [] then Err(NoCredentials)
    else
      var row := t.sets[setId];
      Ok(KeyImport(seq(|rows|, i requires 0 <= i < |rows| => ImportedCredential(rows[i].secret, rows[i].source)),
                   ImportReport(row.sourcePath, row.counts, row.generation, [])))
  }

  /** `load_credential_set`: the stored set if it has rows, otherwise the key file, which is then stored. */
  function Bootstrapped(t: ImportTables, setId: CredentialSetId, path: string, raw: string):
    (ImportTables, Result<KeyImport, StoreError>)
  {
    if t.Rows(setId) != [] then (t, Loaded(t, setId))
    else
      match RawImport(setId, path, raw)
      case Err(e) => (t, Err(e))
      case Ok(imported) => (Persisted(t, setId, imported), Ok(imported))
  }

  datatype AppendCall = AppendCall(lines: seq<string>, batchId: string, excluded: set<string>)

  function AppendContext(t: ImportTables, setId: CredentialSetId, call: AppendCall): ScanContext {
    ScanContext(t.Rows(setId), call.excluded, None, call.batchId)
  }

  /** `append_credentials_excluding_secrets`. */
  function Appended(t: ImportTables, setId: CredentialSetId, call: AppendCall):
    (ImportTables, Result<KeyImport, StoreError>)
  {
    if setId !in t.sets then (t, Err(UnknownSet))
    else
      var rows, scan := t.Rows(setId), ScanLines(AppendContext(t, setId, call), call.lines);
      Committed(t, setId, call.batchId, rows + RowsFor(setId, scan.added, NextPosition(rows)),
                scan.added, scan.duplicates, scan.Totals())
  }

  /** What the transaction leaves once the batch has been read. */
  function Committed(t: ImportTables, setId: CredentialSetId, batchId: string, rows: seq<CredentialRow>,
                     added: seq<ImportedCredential>, duplicates: seq<DuplicateOccurrence>, counts: Counts):
    (ImportTables, Result<KeyImport, StoreError>)
    requires setId in t.sets
  {
    var row := t.sets[setId];
    var counted := row.(counts := row.counts.Plus(counts), generation := row.generation + 1);
    (ImportTables(t.sets[setId := counted], t.credentials[setId := rows],
                  t.batches + [BatchRow(setId, batchId, ManagementApi, counts)]),
     Ok(KeyImport(added, ImportReport(batchId, counts, counted.generation, duplicates))))
  }

  // --- What every run keeps ---------------------------------------------------------------------

  /** Sums of the counters over the set's import batches. */
  function BatchTotals(batches: seq<BatchRow>, setId: CredentialSetId): Counts {
    if batches == [] then Counts(LineCounts(0, 0), KeyCounts(0, 0, 0))
    else
      var rest, last := BatchTotals(batches[..|batches| - 1], setId), batches[|batches| - 1];
      if last.setId == setId then rest.Plus(last.counts) else rest
  }

  function BatchCount(batches: seq<BatchRow>, setId: CredentialSetId): nat {
    if batches == [] then 0
    else
      var rest, last := BatchCount(batches[..|batches| - 1], setId), batches[|batches| - 1];
      if last.setId == setId then rest + 1 else rest
  }

  ghost predicate RowsValid(setId: CredentialSetId, rows: seq<CredentialRow>) {
    && rows != []
    && Distinct(Secrets(rows))
    && forall i :: 0 <= i < |rows| ==>
         && rows[i].position == i
         && rows[i].id == CredentialId(setId.name, rows[i].secret)
         && rows[i].secret != "" && Trim(rows[i].secret) == rows[i].secret
  }

  /** Every counter of a set agrees with its rows and with its batches. */
  ghost predicate CountersValid(t: ImportTables, setId: CredentialSetId)
    requires setId in t.sets
  {
    var row := t.sets[setId];
    && row.counts.keys.unique == |t.Rows(setId)|
    && row.counts.keys.nonEmpty == row.counts.keys.unique + row.counts.keys.duplicates
    && row.counts.lines.physical == row.counts.keys.nonEmpty + row.counts.lines.empties
    && row.counts == BatchTotals(t.batches, setId)
    && row.generation == BatchCount(t.batches, setId)
  }

  ghost predicate SetValid(t: ImportTables, setId: CredentialSetId) {
    setId in t.sets && RowsValid(setId, t.Rows(setId)) && CountersValid(t, setId)
  }

  ghost predicate ImportsValid(t: ImportTables) {
    && t.sets.Keys == t.credentials.Keys
    && (forall b <- t.batches :: b.setId in t.sets)
    && forall setId {:trigger SetValid(t, setId)} :: setId in t.sets ==> SetValid(t, setId)
  }

  lemma {:induction false} NoBatchesNoTotals(batches: seq<BatchRow>, setId: CredentialSetId)
    requires forall b <- batches :: b.setId != setId
    ensures BatchTotals(batches, setId) == Counts(LineCounts(0, 0), KeyCounts(0, 0, 0))
            && BatchCount(batches, setId) == 0
  {
    if batches != [] {
      NoBatchesNoTotals(batches[..|batches| - 1], setId);
    }
  }

  lemma BatchTotalsOfSnoc(batches: seq<BatchRow>, last: BatchRow, setId: CredentialSetId)
    ensures var totals := BatchTotals(batches, setId);
            BatchTotals(batches + [last], setId) == if last.setId == setId then totals.Plus(last.counts) else totals
    ensures BatchCount(batches + [last], setId) == BatchCount(batches, setId) + if last.setId == setId then 1 else 0
  {
    assert (batches + [last])[..|batches|] == batches;
  }

  lemma {:induction false} NextPositionIsLength(rows: seq<CredentialRow>)
    requires forall i :: 0 <= i < |rows| ==> rows[i].position == i
    ensures NextPosition(rows) == |rows|
  {
    if rows != [] {
      NextPositionIsLength(rows[..|rows| - 1]);
    }
  }

  lemma {:induction false} InPositionOrder(rows: seq<CredentialRow>, base: nat)
    requires forall i :: 0 <= i < |rows| ==> rows[i].position == base + i
    ensures ByPosition(rows) == rows
  {
    if rows != [] {
      InPositionOrder(rows[1..], base + 1);
    }
  }

  lemma AddedSecretsAreNew(ctx: ScanContext, lines: seq<string>)
    ensures var added := AddedSecrets(ScanLines(ctx, lines).added);
            && added == Firsts(Keys(lines), Known(ctx)) && Distinct(added)
            && forall k <- added :: k !in Secrets(ctx.existing) && k != "" && Trim(k) == k
  {
    ScanMeaning(ctx, lines);
    FirstsAreDistinct(Keys(lines), Known(ctx));
    FirstsElements(Keys(lines), Known(ctx));
    KeysAreTrimmed(lines);
    var added := AddedSecrets(ScanLines(ctx, lines).added);
    forall k <- added
      ensures k !in Secrets(ctx.existing) && k in Keys(lines)
    {
      assert k in Elements(added) && k in Elements(Keys(lines)) && k !in Elements(Secrets(ctx.existing));
    }
  }

  /** New, distinct, trimmed secrets extend a valid table part without touching its constraints. */
  lemma RowsExtend(setId: CredentialSetId, existing: seq<CredentialRow>, added: seq<ImportedCredential>)
    requires existing == [] || RowsValid(setId, existing)
    requires existing != [] || added != []
    requires Distinct(AddedSecrets(added))
    requires forall k <- AddedSecrets(added) :: k !in Secrets(existing) && k != "" && Trim(k) == k
    ensures var rows := existing + RowsFor(setId, added, |existing|);
            RowsValid(setId, rows) && Secrets(rows) == Secrets(existing) + AddedSecrets(added)
  {
    var rows := existing + RowsFor(setId, added, |existing|);
    assert Secrets(rows) == Secrets(existing) + AddedSecrets(added);
    DistinctConcat(Secrets(existing), AddedSecrets(added));
    forall i | |existing| <= i < |rows|
      ensures rows[i].secret in AddedSecrets(added)
    {
      assert rows[i].secret == AddedSecrets(added)[i - |existing|];
    }
  }

  lemma AddedRowsValid(setId: CredentialSetId, ctx: ScanContext, lines: seq<string>)
    requires ctx.existing == [] || RowsValid(setId, ctx.existing)
    requires ctx.existing != [] || ScanLines(ctx, lines).added != []
    ensures var rows := ctx.existing + RowsFor(setId, ScanLines(ctx, lines).added, |ctx.existing|);
            RowsValid(setId, rows) && Secrets(rows) == Secrets(ctx.existing) + Firsts(Keys(lines), Known(ctx))
  {
    AddedSecretsAreNew(ctx, lines);
    RowsExtend(setId, ctx.existing, ScanLines(ctx, lines).added);
  }

  /** A transaction on one set leaves the others alone. */
  lemma OtherSetsStayValid(t: ImportTables, t': ImportTables, setId: CredentialSetId, batch: BatchRow)
    requires ImportsValid(t) && t'.sets.Keys == t.sets.Keys + {setId} && t'.batches == t.batches + [batch]
    requires batch.setId == setId
    requires forall other <- t.sets :: other != setId ==>
               t'.sets[other] == t.sets[other] && t'.Rows(other) == t.Rows(other)
    ensures forall other <- t.sets :: other != setId ==> SetValid(t', other)
  {
    forall other <- t.sets | other != setId
      ensures SetValid(t', other)
    {
      assert SetValid(t, other);
      BatchTotalsOfSnoc(t.batches, batch, other);
    }
  }

  lemma PersistedIsValid(t: ImportTables, setId: CredentialSetId, path: string, raw: string)
    requires ImportsValid(t) && setId !in t.sets && RawImport(setId, path, raw).Ok?
    ensures SetValid(Persisted(t, setId, RawImport(setId, path, raw).value), setId)
  {
    var ctx, t' := BootstrapContext(setId, path), Persisted(t, setId, RawImport(setId, path, raw).value);
    var scan := ScanLines(ctx, Lines(raw));
    ScanMeaning(ctx, Lines(raw));
    AddedRowsValid(setId, ctx, Lines(raw));
    NoBatchesNoTotals(t.batches, setId);
    assert t'.Rows(setId) == [] + RowsFor(setId, scan.added, 0);
    BatchTotalsOfSnoc(t.batches, t'.batches[|t.batches|], setId);
  }

  lemma BootstrapKeepsValid(t: ImportTables, setId: CredentialSetId, path: string, raw: string)
    requires ImportsValid(t)
    ensures ImportsValid(Bootstrapped(t, setId, path, raw).0)
  {
    if setId in t.sets {
      assert SetValid(t, setId);
    } else if RawImport(setId, path, raw).Ok? {
      var t' := Persisted(t, setId, RawImport(setId, path, raw).value);
      PersistedIsValid(t, setId, path, raw);
      OtherSetsStayValid(t, t', setId, t'.batches[|t.batches|]);
    }
  }

  /** How a transaction may move a set's generation: a first one, or one more. */
  ghost predicate GenerationMoves(sets: map<CredentialSetId, SetRow>, sets': map<CredentialSetId, SetRow>,
                                  setId: CredentialSetId, step: nat)
  {
    if setId in sets then setId in sets' && sets'[setId].generation == sets[setId].generation + step
    else setId in sets' ==> sets'[setId].generation == 1
  }

  lemma AppendRowsGrow(t: ImportTables, setId: CredentialSetId, call: AppendCall, other: CredentialSetId)
    ensures t.Rows(other) <= Appended(t, setId, call).0.Rows(other)
  {
  }

  lemma BootstrapRowsGrow(t: ImportTables, setId: CredentialSetId, path: string, raw: string, other: CredentialSetId)
    ensures t.Rows(other) <= Bootstrapped(t, setId, path, raw).0.Rows(other)
  {
  }

  lemma AppendGeneration(t: ImportTables, setId: CredentialSetId, call: AppendCall, other: CredentialSetId)
    ensures GenerationMoves(t.sets, Appended(t, setId, call).0.sets, other, if other == setId then 1 else 0)
  {
  }

  /** A load stores an unknown set in its first generation and never touches a stored one. */
  lemma BootstrapGeneration(t: ImportTables, setId: CredentialSetId, path: string, raw: string, other: CredentialSetId)
    requires ImportsValid(t)
    ensures GenerationMoves(t.sets, Bootstrapped(t, setId, path, raw).0.sets, other, 0)
  {
    if setId in t.sets {
      assert SetValid(t, setId);
    }
  }

  lemma AppendKeepsValid(t: ImportTables, setId: CredentialSetId, call: AppendCall)
    requires ImportsValid(t)
    ensures ImportsValid(Appended(t, setId, call).0)
  {
    if setId in t.sets {
      var ctx, t' := AppendContext(t, setId, call), Appended(t, setId, call).0;
      assert SetValid(t, setId);
      ScanMeaning(ctx, call.lines);
      AddedRowsValid(setId, ctx, call.lines);
      NextPositionIsLength(t.Rows(setId));
      BatchTotalsOfSnoc(t.batches, t'.batches[|t.batches|], setId);
      assert SetValid(t', setId);
      OtherSetsStayValid(t, t', setId, t'.batches[|t.batches|]);
    }
  }
}
