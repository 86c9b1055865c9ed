/** What whole runs of imports guarantee, whatever the batches and their order. */
module ImportLaws {
  import opened Outcomes
  import opened Strings
  import opened FirstOccurrences
  import opened CredentialImports

  function AppendAll(t: ImportTables, setId: CredentialSetId, calls: seq<AppendCall>): ImportTables {
    if calls == [] then t
    else Appended(AppendAll(t, setId, calls[..|calls| - 1]), setId, calls[|calls| - 1]).0
  }

  function InputLines(calls: seq<AppendCall>): seq<string> {
    if calls == [] then [] else InputLines(calls[..|calls| - 1]) + calls[|calls| - 1].lines
  }

  lemma {:induction false} AppendAllKeepsValid(t: ImportTables, setId: CredentialSetId, calls: seq<AppendCall>)
    requires ImportsValid(t)
    ensures ImportsValid(AppendAll(t, setId, calls))
    ensures setId in t.sets ==> setId in AppendAll(t, setId, calls).sets
    decreases |calls|
  {
    if calls != [] {
      AppendAllKeepsValid(t, setId, calls[..|calls| - 1]);
      AppendKeepsValid(AppendAll(t, setId, calls[..|calls| - 1]), setId, calls[|calls| - 1]);
    }
  }

  /** The counters of one pass over the lines when some keys are known beforehand. */
  ghost predicate CountsOnePass(counts: Counts, lines: seq<string>, known: set<string>) {
    Balances(counts, |lines|, |Keys(lines)|, |Firsts(Keys(lines), known)|)
  }

  predicate Balances(counts: Counts, lines: nat, keys: nat, firsts: nat) {
    && counts.lines.physical == lines && counts.keys.nonEmpty == keys && counts.keys.unique == firsts
    && counts.keys.nonEmpty == counts.keys.unique + counts.keys.duplicates
    && counts.lines.physical == counts.keys.nonEmpty + counts.lines.empties
  }

  function Stored(t: ImportTables, setId: CredentialSetId): set<string> {
    Elements(Secrets(t.Rows(setId)))
  }

  /** One append seen from outside: the rows grow by the first occurrences, the counters by the batch. */
  ghost predicate Grows(t: ImportTables, t': ImportTables, setId: CredentialSetId, call: AppendCall) {
    var known := Stored(t, setId) + call.excluded;
    && setId in t.sets && setId in t'.sets
    && t.Rows(setId) <= t'.Rows(setId)
    && Secrets(t'.Rows(setId)) == Secrets(t.Rows(setId)) + Firsts(Keys(call.lines), known)
    && t'.sets[setId].sourcePath == t.sets[setId].sourcePath
    && t'.sets[setId].generation == t.sets[setId].generation + 1
    && exists batch :: (
         CountsOnePass(batch, call.lines, known) && t'.sets[setId].counts == t.sets[setId].counts.Plus(batch))
  }

  lemma AppendGrows(t: ImportTables, setId: CredentialSetId, call: AppendCall)
    requires ImportsValid(t) && setId in t.sets
    ensures Grows(t, Appended(t, setId, call).0, setId, call)
    ensures forall other :: other != setId ==> Appended(t, setId, call).0.Rows(other) == t.Rows(other)
  {
    var ctx := AppendContext(t, setId, call);
    assert SetValid(t, setId);
    ScanMeaning(ctx, call.lines);
    AddedRowsValid(setId, ctx, call.lines);
    NextPositionIsLength(t.Rows(setId));
    assert CountsOnePass(ScanLines(ctx, call.lines).Totals(), call.lines, Stored(t, setId) + call.excluded);
  }

  // --- Incremental import is one-shot import ----------------------------------------------------

  /** The set holds exactly what one pass over these lines would have stored. */
  ghost predicate HasSeen(t: ImportTables, setId: CredentialSetId, lines: seq<string>) {
    && setId in t.sets
    && Secrets(t.Rows(setId)) == Firsts(Keys(lines), {})
    && CountsOnePass(t.sets[setId].counts, lines, {})
  }

  lemma FirstsOfLines(a: seq<string>, b: seq<string>)
    ensures Keys(a + b) == Keys(a) + Keys(b)
    ensures Firsts(Keys(a + b), {}) == Firsts(Keys(a), {}) + Firsts(Keys(b), Elements(Keys(a)))
  {
    KeysOfConcat(a, b);
    FirstsOfConcat(Keys(a), Keys(b), {});
    assert {} + Elements(Keys(a)) == Elements(Keys(a));
  }

  lemma OnePassAfterAnother(x: Counts, a: seq<string>, y: Counts, b: seq<string>)
    requires CountsOnePass(x, a, {}) && CountsOnePass(y, b, Elements(Keys(a)))
    ensures CountsOnePass(x.Plus(y), a + b, {})
  {
    FirstsOfLines(a, b);
    ConcatLength(a, b);
    ConcatLength(Keys(a), Keys(b));
    ConcatLength(Firsts(Keys(a), {}), Firsts(Keys(b), Elements(Keys(a))));
  }

  lemma ConcatLength<T>(a: seq<T>, b: seq<T>)
    ensures |a + b| == |a| + |b|
  {
  }

  lemma GrowthHasSeen(t: ImportTables, t': ImportTables, setId: CredentialSetId, call: AppendCall, lines: seq<string>)
    requires Grows(t, t', setId, call) && HasSeen(t, setId, lines) && call.excluded == {}
    ensures HasSeen(t', setId, lines + call.lines)
  {
    var known := Stored(t, setId) + call.excluded;
    var batch :| CountsOnePass(batch, call.lines, known) && t'.sets[setId].counts == t.sets[setId].counts.Plus(batch);
    FirstsElements(Keys(lines), {});
    assert known == Elements(Keys(lines));
    OnePassAfterAnother(t.sets[setId].counts, lines, batch, call.lines);
    FirstsOfLines(lines, call.lines);
  }

  lemma BootstrapHasSeen(t: ImportTables, setId: CredentialSetId, path: string, raw: string)
    requires ImportsValid(t) && setId !in t.sets && Keys(Lines(raw)) != []
    ensures HasSeen(Bootstrapped(t, setId, path, raw).0, setId, Lines(raw))
    ensures Bootstrapped(t, setId, path, raw).0.sets[setId].generation == 1
  {
    var ctx, lines := BootstrapContext(setId, path), Lines(raw);
    ScanMeaning(ctx, lines);
    FirstsElements(Keys(lines), {});
    assert Keys(lines)[0] in Elements(Keys(lines));
    assert Known(ctx) == {};
    AddedRowsValid(setId, ctx, lines);
    var added := ScanLines(ctx, lines).added;
    assert [] + RowsFor(setId, added, 0) == RowsFor(setId, added, 0);
    assert Secrets([]) == [];
  }

  lemma {:induction false} AppendAllHasSeen(
      t: ImportTables, setId: CredentialSetId, calls: seq<AppendCall>, seen: seq<string>, all: seq<string>)
    requires ImportsValid(t) && HasSeen(t, setId, seen)
    requires forall call <- calls :: call.excluded == {}
    requires all == seen + InputLines(calls)
    ensures HasSeen(AppendAll(t, setId, calls), setId, all)
    ensures AppendAll(t, setId, calls).sets[setId].generation == t.sets[setId].generation + |calls|
    decreases |calls|
  {
    if calls != [] {
      var init, last := calls[..|calls| - 1], calls[|calls| - 1];
      var before := seen + InputLines(init);
      AppendAllHasSeen(t, setId, init, seen, before);
      AppendAllKeepsValid(t, setId, init);
      Associates(seen, InputLines(init), last.lines);
      AppendHasSeen(AppendAll(t, setId, init), AppendAll(t, setId, calls), setId, last, before, all);
    } else {
      ConcatEmpty(seen);
    }
  }

  lemma Associates<T>(a: seq<T>, b: seq<T>, c: seq<T>)
    ensures a + (b + c) == a + b + c
  {
  }

  lemma ConcatEmpty<T>(a: seq<T>)
    ensures a + [] == a
  {
  }

  lemma AppendHasSeen(t: ImportTables, t': ImportTables, setId: CredentialSetId, call: AppendCall, lines: seq<string>,
                      lines': seq<string>)
    requires ImportsValid(t) && HasSeen(t, setId, lines) && call.excluded == {} && lines' == lines + call.lines
    requires t' == Appended(t, setId, call).0
    ensures HasSeen(t', setId, lines')
    ensures t'.sets[setId].generation == t.sets[setId].generation + 1
  {
    AppendGrows(t, setId, call);
    GrowthHasSeen(t, t', setId, call, lines);
  }

  /**
   After a bootstrap and any appends without exclusions, the stored secrets in position order and all
   five counters are those of one pass over the concatenated input: where the batches were cut is invisible.
   */
  lemma IncrementalImportIsOneShot(
      t: ImportTables, setId: CredentialSetId, path: string, raw: string, calls: seq<AppendCall>)
    requires ImportsValid(t) && setId !in t.sets && Keys(Lines(raw)) != []
    requires forall call <- calls :: call.excluded == {}
    ensures var t' := AppendAll(Bootstrapped(t, setId, path, raw).0, setId, calls);
            && HasSeen(t', setId, Lines(raw) + InputLines(calls))
            && t'.sets[setId].generation == 1 + |calls|
  {
    BootstrapHasSeen(t, setId, path, raw);
    BootstrapKeepsValid(t, setId, path, raw);
    AppendAllHasSeen(Bootstrapped(t, setId, path, raw).0, setId, calls, Lines(raw), Lines(raw) + InputLines(calls));
  }

  /** Two ways of cutting the same input into a bootstrap file and appends load the same secrets and counters. */
  lemma SplittingBatchesIsInvisible(
      t: ImportTables, setId: CredentialSetId, path: string,
      raw: string, calls: seq<AppendCall>, raw': string, calls': seq<AppendCall>)
    requires ImportsValid(t) && setId !in t.sets && Keys(Lines(raw)) != [] && Keys(Lines(raw')) != []
    requires forall call <- calls + calls' :: call.excluded == {}
    requires Lines(raw) + InputLines(calls) == Lines(raw') + InputLines(calls')
    ensures var a := Loaded(AppendAll(Bootstrapped(t, setId, path, raw).0, setId, calls), setId);
            var b := Loaded(AppendAll(Bootstrapped(t, setId, path, raw').0, setId, calls'), setId);
            && a.Ok? && b.Ok?
            && AddedSecrets(a.value.credentials) == AddedSecrets(b.value.credentials)
                 == Firsts(Keys(Lines(raw) + InputLines(calls)), {})
            && a.value.report.counts == b.value.report.counts
  {
    assert forall call <- calls :: call in calls + calls';
    assert forall call <- calls' :: call in calls + calls';
    IncrementalImportIsOneShot(t, setId, path, raw, calls);
    IncrementalImportIsOneShot(t, setId, path, raw', calls');
    BootstrapKeepsValid(t, setId, path, raw);
    BootstrapKeepsValid(t, setId, path, raw');
    BootstrapHasSeen(t, setId, path, raw);
    BootstrapHasSeen(t, setId, path, raw');
    AppendAllKeepsValid(Bootstrapped(t, setId, path, raw).0, setId, calls);
    AppendAllKeepsValid(Bootstrapped(t, setId, path, raw').0, setId, calls');
    LoadReadsRows(AppendAll(Bootstrapped(t, setId, path, raw).0, setId, calls), setId);
    LoadReadsRows(AppendAll(Bootstrapped(t, setId, path, raw').0, setId, calls'), setId);
  }

  /** Loading a stored set returns its rows in position order and its own counters. */
  lemma LoadReadsRows(t: ImportTables, setId: CredentialSetId)
    requires ImportsValid(t) && setId in t.sets
    ensures var r := Loaded(t, setId);
            && r.Ok? && AddedSecrets(r.value.credentials) == Secrets(t.Rows(setId))
            && |r.value.credentials| == |t.Rows(setId)|
            && (forall i :: 0 <= i < |t.Rows(setId)| ==> r.value.credentials[i].source == t.Rows(setId)[i].source)
            && r.value.report.counts == t.sets[setId].counts
            && r.value.report.generation == t.sets[setId].generation
  {
    assert SetValid(t, setId);
    InPositionOrder(t.Rows(setId), 0);
  }

  /** A load fails exactly without a metadata row or without credentials. */
  lemma LoadFailsExactly(t: ImportTables, setId: CredentialSetId)
    ensures Loaded(t, setId) == Err(NoMetadata) <==> setId !in t.sets
    ensures Loaded(t, setId) == Err(NoCredentials) <==> setId in t.sets && t.Rows(setId) == []
    ensures Loaded(t, setId).Ok? <==> setId in t.sets && t.Rows(setId) != []
  {
    if t.Rows(setId) != [] {
      assert ByPosition(t.Rows(setId)) != [];
    }
  }

  /** Reopening after a bootstrap gives back the same import, without its list of duplicates. */
  lemma ReloadReturnsTheImport(t: ImportTables, setId: CredentialSetId, path: string, raw: string, path': string,
                               raw': string)
    requires ImportsValid(t) && setId !in t.sets
    ensures var (t1, first) := Bootstrapped(t, setId, path, raw);
            first.Ok? ==>
              Bootstrapped(t1, setId, path', raw')
              == (t1, Ok(KeyImport(first.value.credentials, first.value.report.(duplicates := []))))
  {
    var (t1, first) := Bootstrapped(t, setId, path, raw);
    if first.Ok? {
      InPositionOrder(t1.Rows(setId), 0);
      assert Loaded(t1, setId).value.credentials == first.value.credentials;
    }
  }

  // --- Appends commute --------------------------------------------------------------------------

  /** What a list of appends offers: the keys each batch does not itself exclude. */
  function Offered(calls: seq<AppendCall>): set<string> {
    set call <- calls, key <- Keys(call.lines) | key !in call.excluded :: key
  }

  function KeyTotal(calls: seq<AppendCall>): nat {
    if calls == [] then 0 else KeyTotal(calls[..|calls| - 1]) + |Keys(calls[|calls| - 1].lines)|
  }

  function LineTotal(calls: seq<AppendCall>): nat {
    if calls == [] then 0 else LineTotal(calls[..|calls| - 1]) + |calls[|calls| - 1].lines|
  }

  /** A run of appends seen from outside. */
  ghost predicate Accumulates(t: ImportTables, t': ImportTables, setId: CredentialSetId, calls: seq<AppendCall>) {
    && setId in t.sets && setId in t'.sets
    && t.Rows(setId) <= t'.Rows(setId)
    && Stored(t', setId) == Stored(t, setId) + Offered(calls)
    && t'.sets[setId].sourcePath == t.sets[setId].sourcePath
    && t'.sets[setId].generation == t.sets[setId].generation + |calls|
    && t'.sets[setId].counts.keys.nonEmpty == t.sets[setId].counts.keys.nonEmpty + KeyTotal(calls)
    && t'.sets[setId].counts.lines.physical == t.sets[setId].counts.lines.physical + LineTotal(calls)
  }

  lemma GrowthAccumulates(t: ImportTables, t1: ImportTables, t2: ImportTables, setId: CredentialSetId,
                          calls: seq<AppendCall>)
    requires calls != [] && Accumulates(t, t1, setId, calls[..|calls| - 1]) && Grows(t1, t2, setId, calls[|calls| - 1])
    ensures Accumulates(t, t2, setId, calls)
  {
    var init, call := calls[..|calls| - 1], calls[|calls| - 1];
    GrowthTotals(t1, t2, setId, call);
    StoredGrows(t1, t2, setId, call);
    OfferedSnoc(calls);
    UnionAssociates(Stored(t, setId), Offered(init), Elements(Keys(call.lines)) - call.excluded);
    PrefixOfPrefix(t.Rows(setId), t1.Rows(setId), t2.Rows(setId));
  }

  lemma GrowthTotals(t: ImportTables, t': ImportTables, setId: CredentialSetId, call: AppendCall)
    requires Grows(t, t', setId, call)
    ensures t'.sets[setId].counts.keys.nonEmpty == t.sets[setId].counts.keys.nonEmpty + |Keys(call.lines)|
    ensures t'.sets[setId].counts.lines.physical == t.sets[setId].counts.lines.physical + |call.lines|
  {
    var batch :| CountsOnePass(batch, call.lines, Stored(t, setId) + call.excluded)
                 && t'.sets[setId].counts == t.sets[setId].counts.Plus(batch);
  }

  lemma UnionAssociates<T>(a: set<T>, b: set<T>, c: set<T>)
    ensures a + b + c == a + (b + c)
  {
  }

  lemma PrefixOfPrefix<T>(a: seq<T>, b: seq<T>, c: seq<T>)
    requires a <= b <= c
    ensures a <= c
  {
  }

  lemma StoredGrows(t: ImportTables, t': ImportTables, setId: CredentialSetId, call: AppendCall)
    requires Grows(t, t', setId, call)
    ensures Stored(t', setId) == Stored(t, setId) + (Elements(Keys(call.lines)) - call.excluded)
  {
    var known := Stored(t, setId) + call.excluded;
    FirstsElements(Keys(call.lines), known);
    ElementsOfConcat(Secrets(t.Rows(setId)), Firsts(Keys(call.lines), known));
  }

  lemma {:induction false} AppendAllAccumulates(t: ImportTables, setId: CredentialSetId, calls: seq<AppendCall>)
    requires ImportsValid(t) && setId in t.sets
    ensures Accumulates(t, AppendAll(t, setId, calls), setId, calls)
    decreases |calls|
  {
    if calls != [] {
      var init, last := calls[..|calls| - 1], calls[|calls| - 1];
      var t1 := AppendAll(t, setId, init);
      AppendAllAccumulates(t, setId, init);
      AppendAllKeepsValid(t, setId, init);
      AppendGrows(t1, setId, last);
      GrowthAccumulates(t, t1, AppendAll(t, setId, calls), setId, calls);
    } else {
      NothingAccumulates(t, setId);
    }
  }

  lemma NothingAccumulates(t: ImportTables, setId: CredentialSetId)
    requires setId in t.sets
    ensures Accumulates(t, t, setId, [])
  {
    assert Offered([]) == {};
  }

  lemma OfferedSnoc(calls: seq<AppendCall>)
    requires calls != []
    ensures var init, call := calls[..|calls| - 1], calls[|calls| - 1];
            Offered(calls) == Offered(init) + (Elements(Keys(call.lines)) - call.excluded)
  {
    var init, call := calls[..|calls| - 1], calls[|calls| - 1];
    assert calls == init + [call];
    assert forall c :: c in calls <==> c in init || c == call;
  }

  lemma {:induction false} TotalsOfConcat(a: seq<AppendCall>, b: seq<AppendCall>)
    ensures KeyTotal(a + b) == KeyTotal(a) + KeyTotal(b)
    ensures LineTotal(a + b) == LineTotal(a) + LineTotal(b)
    decreases |b|
  {
    if b == [] {
      assert a + b == a;
    } else {
      assert (a + b)[..|a + b| - 1] == a + b[..|b| - 1];
      TotalsOfConcat(a, b[..|b| - 1]);
    }
  }

  lemma {:induction false} TotalsOfPermutation(a: seq<AppendCall>, b: seq<AppendCall>)
    requires multiset(a) == multiset(b)
    ensures KeyTotal(a) == KeyTotal(b) && LineTotal(a) == LineTotal(b)
    decreases |a|
  {
    if a == [] {
      assert |multiset(b)| == 0;
    } else {
      var init, last := a[..|a| - 1], a[|a| - 1];
      WithoutOne(a, |a| - 1);
      ConcatEmpty(init);
      assert a[|a|..] == [];
      assert last in multiset(b);
      var i :| 0 <= i < |b| && b[i] == last;
      WithoutOne(b, i);
      TotalsOfPermutation(init, b[..i] + b[i + 1..]);
      TotalsWithoutOne(b, i);
    }
  }

  lemma WithoutOne<T>(xs: seq<T>, i: nat)
    requires i < |xs|
    ensures multiset(xs[..i] + xs[i + 1..]) == multiset(xs) - multiset{xs[i]}
  {
    assert xs == xs[..i] + [xs[i]] + xs[i + 1..];
  }

  lemma TotalsWithoutOne(calls: seq<AppendCall>, i: nat)
    requires i < |calls|
    ensures KeyTotal(calls) == KeyTotal(calls[..i] + calls[i + 1..]) + |Keys(calls[i].lines)|
    ensures LineTotal(calls) == LineTotal(calls[..i] + calls[i + 1..]) + |calls[i].lines|
  {
    var before, after := calls[..i], calls[i + 1..];
    assert calls == before + [calls[i]] + after;
    TotalsOfConcat(before, after);
    TotalsOfConcat(before, [calls[i]]);
    TotalsOfConcat(before + [calls[i]], after);
  }

  /**
   Every commit order of the same appends, each with its own exclusions, leaves the same set of stored
   secrets and the same counters, at positions 0 .. n-1.
   */
  lemma AppendsAreConfluent(t: ImportTables, setId: CredentialSetId, calls: seq<AppendCall>, calls': seq<AppendCall>)
    requires ImportsValid(t) && setId in t.sets
    requires multiset(calls) == multiset(calls')
    ensures var a, b := AppendAll(t, setId, calls), AppendAll(t, setId, calls');
            && setId in a.sets && setId in b.sets
            && Stored(a, setId) == Stored(b, setId)
                 == Stored(t, setId) + Offered(calls)
            && a.sets[setId] == b.sets[setId]
            && RowsValid(setId, a.Rows(setId)) && RowsValid(setId, b.Rows(setId))
  {
    AppendAllAccumulates(t, setId, calls);
    AppendAllAccumulates(t, setId, calls');
    AppendAllKeepsValid(t, setId, calls);
    AppendAllKeepsValid(t, setId, calls');
    assert SetValid(AppendAll(t, setId, calls), setId) && SetValid(AppendAll(t, setId, calls'), setId);
    SameContribution(calls, calls');
    SameStoredSameRow(AppendAll(t, setId, calls), AppendAll(t, setId, calls'), setId);
  }

  lemma SameContribution(calls: seq<AppendCall>, calls': seq<AppendCall>)
    requires multiset(calls) == multiset(calls')
    ensures Offered(calls) == Offered(calls') && |calls| == |calls'|
    ensures KeyTotal(calls) == KeyTotal(calls') && LineTotal(calls) == LineTotal(calls')
  {
    TotalsOfPermutation(calls, calls');
    assert forall c :: c in calls <==> c in multiset(calls);
    assert forall c :: c in calls' <==> c in multiset(calls');
    assert |calls| == |multiset(calls)| && |calls'| == |multiset(calls')|;
  }

  /** Equal stored sets and line totals fix the whole metadata row. */
  lemma SameStoredSameRow(a: ImportTables, b: ImportTables, setId: CredentialSetId)
    requires ImportsValid(a) && ImportsValid(b) && setId in a.sets && setId in b.sets
    requires Stored(a, setId) == Stored(b, setId)
    requires a.sets[setId].sourcePath == b.sets[setId].sourcePath
    requires a.sets[setId].generation == b.sets[setId].generation
    requires a.sets[setId].counts.keys.nonEmpty == b.sets[setId].counts.keys.nonEmpty
    requires a.sets[setId].counts.lines.physical == b.sets[setId].counts.lines.physical
    ensures a.sets[setId] == b.sets[setId]
  {
    assert SetValid(a, setId) && SetValid(b, setId);
    DistinctCount(Secrets(a.Rows(setId)));
    DistinctCount(Secrets(b.Rows(setId)));
  }
}
