/** What imports answer and store, said of the input lines and the stored rows alone. */
module ImportAnswers {
  import opened Outcomes
  import opened Strings
  import opened FirstOccurrences
  import opened CredentialImports
  import opened ImportLaws

  // --- Lines ------------------------------------------------------------------------------------

  /** Line n, counted from one, is the first that trims to the key. */
  ghost predicate FirstAt(lines: seq<string>, key: string, n: nat) {
    && 1 <= n <= |lines| && Trim(lines[n - 1]) == key
    && forall j :: 0 <= j < n - 1 ==> Trim(lines[j]) != key
  }

  /** Line n holds a key that is known beforehand or stands on an earlier line. */
  ghost predicate RepeatAt(lines: seq<string>, known: set<string>, n: nat) {
    && 1 <= n <= |lines| && Trim(lines[n - 1]) != ""
    && (Trim(lines[n - 1]) in known || exists j :: 0 <= j < n - 1 && Trim(lines[j]) == Trim(lines[n - 1]))
  }

  lemma {:induction false} FirstLineIsFirst(lines: seq<string>, key: string)
    ensures FirstLine(lines, key).Some? ==> FirstAt(lines, key, FirstLine(lines, key).value)
    ensures FirstLine(lines, key).None? <==> forall j :: 0 <= j < |lines| ==> Trim(lines[j]) != key
  {
    if lines != [] {
      FirstLineIsFirst(lines[..|lines| - 1], key);
    }
  }

  /** Exactly the trimmed, non-empty lines are keys. */
  lemma {:induction false} KeysAreLines(lines: seq<string>, key: string)
    ensures key in Keys(lines) <==> key != "" && exists j :: 0 <= j < |lines| && Trim(lines[j]) == key
  {
    if lines != [] {
      var init := lines[..|lines| - 1];
      KeysAreLines(init, key);
      assert forall j :: 0 <= j < |lines| ==> lines[j] == if j < |init| then init[j] else lines[|lines| - 1];
    }
  }

  // --- Duplicates -------------------------------------------------------------------------------

  function Numbers(duplicates: seq<DuplicateOccurrence>): seq<nat> {
    seq(|duplicates|, i requires 0 <= i < |duplicates| => duplicates[i].duplicateSourceLine)
  }

  /** Every repeating line is listed exactly once, under its own number, in ascending order, and no other line is. */
  ghost predicate ListsRepeats(duplicates: seq<DuplicateOccurrence>, lines: seq<string>, known: set<string>) {
    && (forall i, j :: 0 <= i < j < |duplicates| ==> Numbers(duplicates)[i] < Numbers(duplicates)[j])
    && (forall n: nat :: n in Numbers(duplicates) <==> RepeatAt(lines, known, n))
  }

  lemma RepeatOfSnoc(lines: seq<string>, raw: string, known: set<string>, n: nat)
    ensures n <= |lines| ==> (RepeatAt(lines + [raw], known, n) <==> RepeatAt(lines, known, n))
    ensures RepeatAt(lines + [raw], known, |lines| + 1)
            <==> Trim(raw) != "" && (Trim(raw) in known || Trim(raw) in Keys(lines))
  {
    KeysAreLines(lines, Trim(raw));
    assert forall j :: 0 <= j < |lines| ==> (lines + [raw])[j] == lines[j];
  }

  lemma NumbersOfSnoc(duplicates: seq<DuplicateOccurrence>, d: DuplicateOccurrence)
    ensures Numbers(duplicates + [d]) == Numbers(duplicates) + [d.duplicateSourceLine]
  {
  }

  lemma ListsOneMore(duplicates: seq<DuplicateOccurrence>, next: seq<DuplicateOccurrence>, lines: seq<string>,
                     raw: string,
                     known: set<string>)
    requires ListsRepeats(duplicates, lines, known)
    requires if RepeatAt(lines + [raw], known, |lines| + 1)
             then next != [] && next[..|next| - 1] == duplicates && next[|next| - 1].duplicateSourceLine == |lines| + 1
             else next == duplicates
    ensures ListsRepeats(next, lines + [raw], known)
  {
    forall n: nat ensures n in Numbers(next) <==> RepeatAt(lines + [raw], known, n) {
      RepeatOfSnoc(lines, raw, known, n);
      if next != duplicates {
        assert next == duplicates + [next[|next| - 1]];
        NumbersOfSnoc(duplicates, next[|next| - 1]);
      }
    }
    forall i, j | 0 <= i < j < |next| ensures Numbers(next)[i] < Numbers(next)[j] {
      if j == |duplicates| {
        assert Numbers(duplicates)[i] in Numbers(duplicates);
        assert RepeatAt(lines, known, Numbers(duplicates)[i]);
        assert Numbers(next)[i] == Numbers(duplicates)[i];
      } else {
        assert Numbers(next)[i] == Numbers(duplicates)[i] && Numbers(next)[j] == Numbers(duplicates)[j];
      }
    }
  }

  /** Whether the next line is reported depends on its key alone. */
  lemma ScanLineReports(ctx: ScanContext, lines: seq<string>, acc: Scan, raw: string)
    requires Collects(ctx, Keys(lines), |lines|, acc)
    ensures var next := ScanLine(ctx, acc, raw, |lines| + 1).duplicates;
            if RepeatAt(lines + [raw], Known(ctx), |lines| + 1)
            then next != [] && next[..|next| - 1] == acc.duplicates
                 && next[|next| - 1].duplicateSourceLine == |lines| + 1
            else next == acc.duplicates
  {
    ExistingLineFindsSecret(ctx.existing, Trim(raw));
    RepeatOfSnoc(lines, raw, Known(ctx), |lines| + 1);
    assert Trim(raw) in Elements(Keys(lines)) <==> Trim(raw) in Keys(lines);
  }

  lemma {:induction false} ScanListsRepeats(ctx: ScanContext, lines: seq<string>)
    ensures ListsRepeats(ScanLines(ctx, lines).duplicates, lines, Known(ctx))
  {
    if lines != [] {
      var init, raw := lines[..|lines| - 1], lines[|lines| - 1];
      ScanListsRepeats(ctx, init);
      ScanMeaning(ctx, init);
      ScanLineReports(ctx, init, ScanLines(ctx, init), raw);
      assert lines == init + [raw];
      ListsOneMore(ScanLines(ctx, init).duplicates, ScanLines(ctx, lines).duplicates, init, raw, Known(ctx));
    }
  }

  /** The stored line of a secret is that of its row: the source line, or else the position counted from one. */
  lemma {:induction false} ExistingLineReadsRow(rows: seq<CredentialRow>, secret: string)
    ensures ExistingLine(rows, secret).Some? ==>
              exists i :: 0 <= i < |rows| && LineOfRow(rows[i], secret, ExistingLine(rows, secret).value)
    ensures ExistingLine(rows, secret).None? <==> forall i :: 0 <= i < |rows| ==> rows[i].secret != secret
  {
    if rows != [] {
      ExistingLineReadsRow(rows[1..], secret);
      assert forall i :: 0 < i < |rows| ==> rows[i] == rows[1..][i - 1];
      if rows[0].secret != secret && ExistingLine(rows[1..], secret).Some? {
        var i :| 0 <= i < |rows[1..]| && LineOfRow(rows[1..][i], secret, ExistingLine(rows[1..], secret).value);
        assert LineOfRow(rows[i + 1], secret, ExistingLine(rows, secret).value);
      }
    }
  }

  ghost predicate LineOfRow(row: CredentialRow, secret: string, line: nat) {
    row.secret == secret && match row.source.sourceLine case Some(n) => line == n case None => line == row.position + 1
  }

  /** A duplicate points back to the stored row, to itself if it is merely excluded, or to the first line of its key. */
  ghost predicate PointsTo(rows: seq<CredentialRow>, excluded: set<string>, lines: seq<string>, d: DuplicateOccurrence)
    requires 1 <= d.duplicateSourceLine <= |lines|
  {
    var key := Trim(lines[d.duplicateSourceLine - 1]);
    if key in Elements(Secrets(rows)) then exists i :: 0 <= i < |rows| && LineOfRow(rows[i], key, d.firstSourceLine)
    else if key in excluded then d.firstSourceLine == d.duplicateSourceLine
    else FirstAt(lines, key, d.firstSourceLine)
  }

  // --- The answer of one import -----------------------------------------------------------------

  /** What an import of the lines answers, over rows stored and secrets excluded beforehand. */
  ghost predicate AnswersLines(answer: KeyImport, rows: seq<CredentialRow>, excluded: set<string>, lines: seq<string>,
                               path: Option<string>, batchId: string)
  {
    var known := Elements(Secrets(rows)) + excluded;
    && AddedSecrets(answer.credentials) == Firsts(Keys(lines), known)
    && (forall c <- answer.credentials ::
          exists n :: FirstAt(lines, c.secret, n) && c.source == CredentialSource(path, Some(n), Some(batchId)))
    && CountsOnePass(answer.report.counts, lines, known)
    && ListsRepeats(answer.report.duplicates, lines, known)
    && forall d <- answer.report.duplicates ::
         && 1 <= d.duplicateSourceLine <= |lines| && PointsTo(rows, excluded, lines, d)
         && var key := Trim(lines[d.duplicateSourceLine - 1]);
            d.fingerprint == if path.Some? then ShortHash(key) else Sha256(key)
  }

  lemma DuplicatePointsTo(ctx: ScanContext, lines: seq<string>, d: DuplicateOccurrence)
    requires PointsBack(ctx, lines, d)
    ensures PointsTo(ctx.existing, ctx.excluded, lines, d)
  {
    var key := Trim(lines[d.duplicateSourceLine - 1]);
    ExistingLineFindsSecret(ctx.existing, key);
    ExistingLineReadsRow(ctx.existing, key);
    FirstLineIsFirst(lines, key);
  }

  lemma ScanAnswers(ctx: ScanContext, lines: seq<string>, answer: KeyImport)
    requires var scan := ScanLines(ctx, lines);
             && answer.credentials == scan.added && answer.report.counts == scan.Totals()
             && answer.report.duplicates == scan.duplicates
    ensures AnswersLines(answer, ctx.existing, ctx.excluded, lines, ctx.sourcePath, ctx.batchId)
  {
    ScanMeaning(ctx, lines);
    ScanReports(ctx, lines);
    ScanListsRepeats(ctx, lines);
    forall c <- answer.credentials
      ensures exists n :: FirstAt(lines, c.secret, n) && c.source == CredentialSource(ctx.sourcePath, Some(n),
                                                                                      Some(ctx.batchId))
    {
      assert AddedAtFirstLine(ctx, lines, c);
      FirstLineIsFirst(lines, c.secret);
    }
    forall d <- answer.report.duplicates
      ensures 1 <= d.duplicateSourceLine <= |lines| && PointsTo(ctx.existing, ctx.excluded, lines, d)
    {
      assert PointsBack(ctx, lines, d);
      DuplicatePointsTo(ctx, lines, d);
    }
  }

  /** The rows after an import: the old ones, then one for each credential of the answer, with its secret and source. */
  ghost predicate StoresAnswer(before: seq<CredentialRow>, after: seq<CredentialRow>,
                               credentials: seq<ImportedCredential>) {
    && |after| == |before| + |credentials| && before <= after
    && forall i :: 0 <= i < |credentials| ==>
         after[|before| + i].secret == credentials[i].secret && after[|before| + i].source == credentials[i].source
  }

  // --- Appends ----------------------------------------------------------------------------------

  /**
   An append is accepted exactly when its set is stored. It answers the batch: its new secrets with their first lines,
   its own counters, its duplicates, the batch id as source path and the new generation. It stores just that.
   */
  lemma AppendAnswers(t: ImportTables, setId: CredentialSetId, call: AppendCall)
    ensures var (t', r) := Appended(t, setId, call);
            if setId !in t.sets then t' == t && r == Err(UnknownSet)
            else
              && r.Ok? && AnswersLines(r.value, t.Rows(setId), call.excluded, call.lines, None, call.batchId)
              && r.value.report.sourcePath == call.batchId
              && setId in t'.sets
              && r.value.report.generation == t'.sets[setId].generation == t.sets[setId].generation + 1
              && t'.sets[setId].sourcePath == t.sets[setId].sourcePath
              && StoresAnswer(t.Rows(setId), t'.Rows(setId), r.value.credentials)
              && t'.batches == t.batches + [BatchRow(setId, call.batchId, ManagementApi, r.value.report.counts)]
  {
    if setId in t.sets {
      ScanAnswers(AppendContext(t, setId, call), call.lines, Appended(t, setId, call).1.value);
    }
  }

  // --- Loads ------------------------------------------------------------------------------------

  /** Reading a key file answers its lines, or fails exactly when it holds no key. */
  lemma RawImportAnswers(setId: CredentialSetId, path: string, raw: string)
    ensures var r := RawImport(setId, path, raw);
            if Keys(Lines(raw)) == [] then r == Err(NoKeys)
            else
              && r.Ok? && AnswersLines(r.value, [], {}, Lines(raw), Some(path), setId.name)
              && r.value.report.sourcePath == path && r.value.report.generation == 1
  {
    var ctx := BootstrapContext(setId, path);
    var scan := ScanLines(ctx, Lines(raw));
    ScanAnswers(ctx, Lines(raw), KeyImport(scan.added, ImportReport(path, scan.Totals(), 1, scan.duplicates)));
    FirstsOfSome(Keys(Lines(raw)), Elements(Secrets([])) + {});
    assert |AddedSecrets(scan.added)| == |scan.added|;
  }

  lemma PersistedStores(t: ImportTables, setId: CredentialSetId, imported: KeyImport)
    ensures var t', report := Persisted(t, setId, imported), imported.report;
            && t'.sets == t.sets[setId := SetRow(report.sourcePath, report.counts, report.generation)]
            && StoresAnswer([], t'.Rows(setId), imported.credentials)
            && t'.batches == t.batches + [BatchRow(setId, setId.name, FileBootstrap, report.counts)]
  {
  }

  /**
   A load of an unknown set reads the key file, stores what it answers, and fails without a trace if it holds no key.
   */
  lemma FirstLoadAnswers(t: ImportTables, setId: CredentialSetId, path: string, raw: string)
    requires t.Rows(setId) == []
    ensures var (t', r) := Bootstrapped(t, setId, path, raw);
            if Keys(Lines(raw)) == [] then t' == t && r == Err(NoKeys)
            else
              && r.Ok? && AnswersLines(r.value, [], {}, Lines(raw), Some(path), setId.name)
              && r.value.report.sourcePath == path && r.value.report.generation == 1
              && t'.sets == t.sets[setId := SetRow(path, r.value.report.counts, 1)]
              && StoresAnswer([], t'.Rows(setId), r.value.credentials)
              && t'.batches == t.batches + [BatchRow(setId, setId.name, FileBootstrap, r.value.report.counts)]
  {
    RawImportAnswers(setId, path, raw);
    var r := RawImport(setId, path, raw);
    if r.Ok? {
      PersistedStores(t, setId, r.value);
      assert Bootstrapped(t, setId, path, raw) == (Persisted(t, setId, r.value), r);
    }
  }

  lemma FirstsOfSome(keys: seq<string>, known: set<string>)
    requires known == {}
    ensures Firsts(keys, known) == [] <==> keys == []
  {
    FirstsElements(keys, known);
    if keys != [] {
      assert keys[0] in Elements(keys) && keys[0] in Elements(Firsts(keys, known));
    }
  }

  /** A load of a stored set changes nothing and answers its rows in order, with the metadata of its row. */
  lemma SecondLoadAnswers(t: ImportTables, setId: CredentialSetId, path: string, raw: string)
    requires ImportsValid(t) && setId in t.sets
    ensures var (t', r) := Bootstrapped(t, setId, path, raw);
            && t' == t && r.Ok? && StoresAnswer([], t.Rows(setId), r.value.credentials)
            && r.value.report == ImportReport(t.sets[setId].sourcePath, t.sets[setId].counts, t.sets[setId].generation,
                                              [])
  {
    assert SetValid(t, setId);
    InPositionOrder(t.Rows(setId), 0);
  }
}
