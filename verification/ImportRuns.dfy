/**
 What a set has imported after any run of the whole store, however its imports are interleaved with everything else.
 */
module ImportRuns {
  import opened Outcomes
  import opened Strings
  import opened FirstOccurrences
  import opened CredentialImports
  import opened ImportLaws
  import opened Ledger

  /** Without the excluded keys. */
  function Without(keys: seq<string>, excluded: set<string>): seq<string> {
    if keys == [] then []
    else
      var rest, last := Without(keys[..|keys| - 1], excluded), keys[|keys| - 1];
      if last in excluded then rest else rest + [last]
  }

  lemma {:induction false} WithoutElements(keys: seq<string>, excluded: set<string>)
    ensures Elements(Without(keys, excluded)) == Elements(keys) - excluded
  {
    if keys != [] {
      var init, last := keys[..|keys| - 1], keys[|keys| - 1];
      WithoutElements(init, excluded);
      assert keys == init + [last];
      ElementsOfConcat(init, [last]);
      ElementsOfConcat(Without(init, excluded), if last in excluded then [] else [last]);
    }
  }

  lemma {:induction false} WithoutNone(keys: seq<string>)
    ensures Without(keys, {}) == keys
  {
    if keys != [] {
      WithoutNone(keys[..|keys| - 1]);
    }
  }

  lemma FirstsOfSnoc(keys: seq<string>, last: string, known: set<string>)
    ensures Firsts(keys + [last], known) == Firsts(keys, known) + if last in known || last in keys then [] else [last]
  {
    assert (keys + [last])[..|keys|] == keys;
  }

  /** Knowing the excluded keys beforehand is the same as leaving them out of the input. */
  lemma {:induction false} ExcludedAreLeftOut(keys: seq<string>, known: set<string>, excluded: set<string>)
    ensures Firsts(keys, known + excluded) == Firsts(Without(keys, excluded), known)
  {
    if keys != [] {
      var init, last := keys[..|keys| - 1], keys[|keys| - 1];
      ExcludedAreLeftOut(init, known, excluded);
      assert keys == init + [last];
      FirstsOfSnoc(init, last, known + excluded);
      WithoutElements(init, excluded);
      assert last !in excluded ==> (last in init <==> last in Elements(Without(init, excluded)));
      if last !in excluded {
        FirstsOfSnoc(Without(init, excluded), last, known);
      }
    }
  }

  /** The lines of the accepted imports of a set, and the keys of those lines that their own batch does not exclude. */
  datatype Input = Input(lines: seq<string>, offered: seq<string>)
  {
    function Plus(call: AppendCall): Input {
      Input(lines + call.lines, offered + Without(Keys(call.lines), call.excluded))
    }
  }

  /** A load counts when it stores the set, an append when the set is stored; everything else adds nothing. */
  function InputOf(ops: seq<Op>, setId: CredentialSetId): Input {
    if ops == [] then Input([], [])
    else
      var init, op := ops[..|ops| - 1], ops[|ops| - 1];
      var before := InputOf(init, setId);
      var stored := setId in Run(init).imports.sets;
      if op.Load? && op.setId == setId && !stored && Keys(Lines(op.raw)) != []
      then Input(Lines(op.raw), Keys(Lines(op.raw)))
      else if op.Append? && op.setId == setId && stored then before.Plus(op.call)
      else before
  }

  /** The set holds what one pass over the input stores, and its five counters are those of that pass. */
  ghost predicate HoldsInput(t: ImportTables, setId: CredentialSetId, input: Input) {
    if setId in t.sets then
      && input.lines != []
      && Secrets(t.Rows(setId)) == Firsts(input.offered, {})
      && Elements(input.offered) <= Elements(Keys(input.lines))
      && Balances(t.sets[setId].counts, |input.lines|, |Keys(input.lines)|, |Firsts(input.offered, {})|)
    else input == Input([], [])
  }

  lemma LoadStoresExactly(setId: CredentialSetId, path: string, raw: string)
    ensures RawImport(setId, path, raw).Ok? <==> Keys(Lines(raw)) != []
  {
    var ctx := BootstrapContext(setId, path);
    ScanMeaning(ctx, Lines(raw));
    NothingKnown(ctx);
    FirstsOfNothing(Keys(Lines(raw)));
    assert |AddedSecrets(ScanLines(ctx, Lines(raw)).added)| == |ScanLines(ctx, Lines(raw)).added|;
  }

  lemma NothingKnown(ctx: ScanContext)
    requires ctx.existing == [] && ctx.excluded == {}
    ensures Known(ctx) == {}
  {
  }

  lemma FirstsOfNothing(keys: seq<string>)
    ensures Firsts(keys, {}) == [] <==> keys == []
  {
    FirstsElements(keys, {});
    if keys != [] {
      assert keys[0] in Elements(keys) && keys[0] in Elements(Firsts(keys, {}));
    }
  }

  lemma LoadHoldsInput(t: ImportTables, setId: CredentialSetId, path: string, raw: string)
    requires ImportsValid(t) && setId !in t.sets && Keys(Lines(raw)) != []
    ensures HoldsInput(Bootstrapped(t, setId, path, raw).0, setId, Input(Lines(raw), Keys(Lines(raw))))
  {
    BootstrapHasSeen(t, setId, path, raw);
  }

  /** The keys that an append stores. */
  lemma AppendStores(secrets: seq<string>, offered: seq<string>, call: AppendCall, known: set<string>)
    requires secrets == Firsts(offered, {}) && known == Elements(secrets)
    ensures secrets + Firsts(Keys(call.lines), known + call.excluded)
            == Firsts(offered + Without(Keys(call.lines), call.excluded), {})
  {
    var added := Without(Keys(call.lines), call.excluded);
    FirstsElements(offered, {});
    assert {} + Elements(offered) == Elements(offered) == known;
    ExcludedAreLeftOut(Keys(call.lines), known, call.excluded);
    FirstsOfConcat(offered, added, {});
  }

  lemma OfferedAreKeys(input: Input, call: AppendCall)
    requires Elements(input.offered) <= Elements(Keys(input.lines))
    ensures Elements(input.Plus(call).offered) <= Elements(Keys(input.Plus(call).lines))
    ensures |Keys(input.Plus(call).lines)| == |Keys(input.lines)| + |Keys(call.lines)|
  {
    KeysOfConcat(input.lines, call.lines);
    ElementsOfConcat(Keys(input.lines), Keys(call.lines));
    ElementsOfConcat(input.offered, Without(Keys(call.lines), call.excluded));
    WithoutElements(Keys(call.lines), call.excluded);
  }

  lemma AppendHoldsInput(t: ImportTables, t': ImportTables, setId: CredentialSetId, call: AppendCall, input: Input)
    requires ImportsValid(t) && setId in t.sets && HoldsInput(t, setId, input)
    requires t' == Appended(t, setId, call).0
    ensures HoldsInput(t', setId, input.Plus(call))
  {
    AppendGrows(t, setId, call);
    GrowthHoldsInput(t, t', setId, call, input);
  }

  lemma GrowthHoldsInput(t: ImportTables, t': ImportTables, setId: CredentialSetId, call: AppendCall, input: Input)
    requires Grows(t, t', setId, call) && HoldsInput(t, setId, input)
    ensures HoldsInput(t', setId, input.Plus(call))
  {
    var known := Stored(t, setId) + call.excluded;
    var batch :| CountsOnePass(batch, call.lines, known) && t'.sets[setId].counts == t.sets[setId].counts.Plus(batch);
    AppendStores(Secrets(t.Rows(setId)), input.offered, call, Stored(t, setId));
    OfferedAreKeys(input, call);
    ConcatLength(Secrets(t.Rows(setId)), Firsts(Keys(call.lines), known));
    ConcatLength(input.lines, call.lines);
  }

  /** Operations that are not imports of the set leave its rows and its metadata alone. */
  lemma OthersLeaveSet(s: Store, op: Op, setId: CredentialSetId)
    requires ImportsValid(s.imports) && (op.Load? || op.Append? ==> op.setId != setId)
    ensures var t, t' := s.imports, Apply(s, op).imports;
            && (setId in t'.sets <==> setId in t.sets) && t'.Rows(setId) == t.Rows(setId)
            && (setId in t.sets ==> t'.sets[setId] == t.sets[setId])
  {
    match op {
      case Load(loaded, path, raw) => LoadLeavesOthers(s.imports, loaded, path, raw, setId);
      case Append(extended, call) => AppendLeavesOthers(s.imports, extended, call, setId);
      case Update(_, _, _) => case Compensate(_, _, _) => case Probe(_, _, _) =>
    }
  }

  lemma LoadLeavesOthers(t: ImportTables, setId: CredentialSetId, path: string, raw: string, other: CredentialSetId)
    requires other != setId
    ensures var t' := Bootstrapped(t, setId, path, raw).0;
            && (other in t'.sets <==> other in t.sets) && t'.Rows(other) == t.Rows(other)
            && (other in t.sets ==> t'.sets[other] == t.sets[other])
  {
  }

  lemma AppendLeavesOthers(t: ImportTables, setId: CredentialSetId, call: AppendCall, other: CredentialSetId)
    requires other != setId
    ensures var t' := Appended(t, setId, call).0;
            && (other in t'.sets <==> other in t.sets) && t'.Rows(other) == t.Rows(other)
            && (other in t.sets ==> t'.sets[other] == t.sets[other])
  {
  }

  /** A load of a stored set, or of a file without keys, changes nothing. */
  lemma IdleLoad(t: ImportTables, setId: CredentialSetId, path: string, raw: string)
    requires ImportsValid(t) && (setId in t.sets || Keys(Lines(raw)) == [])
    ensures Bootstrapped(t, setId, path, raw).0 == t
  {
    LoadStoresExactly(setId, path, raw);
    if setId in t.sets {
      assert SetValid(t, setId);
    }
  }

  lemma OpHoldsInput(ops: seq<Op>, setId: CredentialSetId)
    requires ops != [] && ImportsValid(Run(ops[..|ops| - 1]).imports)
    requires HoldsInput(Run(ops[..|ops| - 1]).imports, setId, InputOf(ops[..|ops| - 1], setId))
    ensures HoldsInput(Run(ops).imports, setId, InputOf(ops, setId))
  {
    var s, op := Run(ops[..|ops| - 1]), ops[|ops| - 1];
    if op.Load? && op.setId == setId {
      if setId !in s.imports.sets && Keys(Lines(op.raw)) != [] {
        LoadHoldsInput(s.imports, setId, op.path, op.raw);
      } else {
        IdleLoad(s.imports, setId, op.path, op.raw);
      }
    } else if op.Append? && op.setId == setId {
      if setId in s.imports.sets {
        AppendHoldsInput(s.imports, Run(ops).imports, setId, op.call, InputOf(ops[..|ops| - 1], setId));
      }
    } else {
      OthersLeaveSet(s, op, setId);
    }
  }

  /**
   After every run of the store, whatever other sets, probes, updates, compensations, refused calls and repeated loads
   come in between, a set holds exactly the first occurrences of the keys its accepted imports offered, in input order,
   and its five counters are those of one pass over their lines.
   */
  lemma {:induction false} RunsAreOnePass(ops: seq<Op>, setId: CredentialSetId)
    ensures HoldsInput(Run(ops).imports, setId, InputOf(ops, setId))
  {
    if ops != [] {
      RunsAreOnePass(ops[..|ops| - 1], setId);
      RunsAreValid(ops[..|ops| - 1]);
      OpHoldsInput(ops, setId);
    }
  }

  lemma {:induction false} AllAreOffered(ops: seq<Op>, setId: CredentialSetId)
    requires forall op <- ops :: op.Append? ==> op.call.excluded == {}
    ensures InputOf(ops, setId).offered == Keys(InputOf(ops, setId).lines)
  {
    if ops != [] {
      var init, op := ops[..|ops| - 1], ops[|ops| - 1];
      AllAreOffered(init, setId);
      assert op in ops;
      if op.Append? {
        WithoutNone(Keys(op.call.lines));
        KeysOfConcat(InputOf(init, setId).lines, op.call.lines);
      }
    }
  }

  /** Without exclusions, a stored set holds exactly the first occurrences of the keys of all its accepted lines. */
  lemma RunsWithoutExclusions(ops: seq<Op>, setId: CredentialSetId)
    requires forall op <- ops :: op.Append? ==> op.call.excluded == {}
    ensures var t, lines := Run(ops).imports, InputOf(ops, setId).lines;
            setId in t.sets ==> HasSeen(t, setId, lines)
  {
    RunsAreOnePass(ops, setId);
    AllAreOffered(ops, setId);
  }

  lemma InputDetermines(t: ImportTables, t': ImportTables, setId: CredentialSetId, input: Input)
    requires HoldsInput(t, setId, input) && HoldsInput(t', setId, input)
    ensures SameSet(t, t', setId)
  {
  }

  ghost predicate SameSet(t: ImportTables, t': ImportTables, setId: CredentialSetId) {
    && (setId in t.sets <==> setId in t'.sets)
    && (setId in t.sets ==>
          Secrets(t.Rows(setId)) == Secrets(t'.Rows(setId)) && t.sets[setId].counts == t'.sets[setId].counts)
  }

  /** Runs that gave a set the same input leave it with the same secrets in the same order and the same counters. */
  lemma SameInputSameSet(a: seq<Op>, b: seq<Op>, setId: CredentialSetId)
    requires InputOf(a, setId) == InputOf(b, setId)
    ensures SameSet(Run(a).imports, Run(b).imports, setId)
  {
    RunsAreOnePass(a, setId);
    RunsAreOnePass(b, setId);
    InputDetermines(Run(a).imports, Run(b).imports, setId, InputOf(a, setId));
  }
}
