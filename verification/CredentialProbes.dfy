/** The probe log of `src/credential_repository.rs` and the SQL projections that read it. */
module CredentialProbes {
  import opened Outcomes
  import opened CredentialImports
  import opened CredentialLifecycle
  import opened FirstOccurrences

  datatype ProbeOutcome =
    Success | Invalid | QuotaDepleted | RateLimited | ProviderUnavailable | UnsupportedModel | Unknown

  datatype ProbeDetails = ProbeDetails(
    channelId: string, providerId: string, accountId: string, classifierId: Option<string>,
    adaptationRuleId: Option<string>, upstreamStatus: Option<nat>, upstreamCode: Option<string>,
    upstreamLimitType: Option<string>, latencyMs: nat)

  datatype ProbeRow = ProbeRow(id: nat, key: Key, outcome: ProbeOutcome, details: ProbeDetails)
  datatype ProbeTables = ProbeTables(results: seq<ProbeRow>, nextProbeId: nat)

  datatype Summary = Summary(
    success: nat, invalid: nat, quotaExhausted: nat, rateLimited: nat,
    providerUnavailable: nat, unsupportedModel: nat, unknown: nat)

  /** `record_probe_result`. */
  function Recorded(t: ProbeTables, rows: seq<CredentialRow>, key: Key, outcome: ProbeOutcome, details: ProbeDetails):
    (ProbeTables, Result<ProbeRow, StoreError>)
  {
    if !HasCredential(rows, key.credentialId) then (t, Err(UnknownCredential))
    else
      var row := ProbeRow(t.nextProbeId, key, outcome, details);
      (ProbeTables(t.results + [row], t.nextProbeId + 1), Ok(row))
  }

  ghost predicate ProbesValid(t: ProbeTables) {
    && (forall r <- t.results :: r.id < t.nextProbeId)
    && AscendingProbes(t.results)
  }

  ghost predicate AscendingProbes(results: seq<ProbeRow>) {
    forall i, j :: 0 <= i < j < |results| ==> results[i].id < results[j].id
  }

  lemma RecordKeepsValid(t: ProbeTables, rows: seq<CredentialRow>, key: Key, outcome: ProbeOutcome,
                         details: ProbeDetails)
    requires ProbesValid(t)
    ensures ProbesValid(Recorded(t, rows, key, outcome, details).0)
  {
  }

  // --- The simple view --------------------------------------------------------------------------

  /** `load_latest_probe_result`: the newest row of one credential (ORDER BY id DESC LIMIT 1 over ascending ids). */
  function Latest(results: seq<ProbeRow>, key: Key): Option<ProbeRow> {
    if results == [] then None
    else if results[|results| - 1].key == key then Some(results[|results| - 1])
    else Latest(results[..|results| - 1], key)
  }

  function LatestOutcome(results: seq<ProbeRow>, key: Key): Option<ProbeOutcome> {
    var r := Latest(results, key);
    if r.Some? then Some(r.value.outcome) else None
  }

  /** The latest row is the one of the credential with the highest id. */
  lemma {:induction false} LatestIsNewest(results: seq<ProbeRow>, key: Key, r: ProbeRow)
    requires AscendingProbes(results)
    ensures Latest(results, key) == Some(r)
            <==> r in results && r.key == key && forall other <- results :: other.key == key ==> other.id <= r.id
  {
    if results != [] {
      var init, last := results[..|results| - 1], results[|results| - 1];
      LatestIsNewest(init, key, r);
      assert forall x :: x in results <==> x in init || x == last;
      assert forall x <- init :: x.id < last.id;
    }
  }

  /**
   A probe is refused exactly for an unknown credential, and then leaves no trace. Otherwise it is the one new row,
   under a fresh id and as given, and becomes the latest of its credential and of no other.
   */
  lemma RecordedIsLatest(t: ProbeTables, rows: seq<CredentialRow>, key: Key, outcome: ProbeOutcome,
                         details: ProbeDetails, other: Key)
    requires ProbesValid(t)
    ensures var (t', r) := Recorded(t, rows, key, outcome, details);
            if exists row <- rows :: row.id == key.credentialId then
              && r.Ok? && r.value.key == key && r.value.outcome == outcome && r.value.details == details
              && t'.results == t.results + [r.value] && (forall earlier <- t.results :: earlier.id < r.value.id)
              && Latest(t'.results, other) == if other == key then Some(r.value) else Latest(t.results, other)
            else t' == t && r == Err(UnknownCredential)
  {
    assert HasCredential(rows, key.credentialId) <==> exists row <- rows :: row.id == key.credentialId;
  }

  // --- The SQL projections ----------------------------------------------------------------------

  /** MAX(id) of one group; None stands for no group. */
  function MaxId(results: seq<ProbeRow>, key: Key): Option<nat> {
    if results == [] then None
    else
      var rest, last := MaxId(results[..|results| - 1], key), results[|results| - 1];
      if last.key != key then rest
      else if rest.Some? && rest.value >= last.id then rest
      else Some(last.id)
  }

  /** `JOIN (SELECT credential_id, MAX(id) ... GROUP BY credential_id) latest ON latest.id = r.id`. */
  predicate InLatest(results: seq<ProbeRow>, setId: CredentialSetId, r: ProbeRow) {
    exists i :: 0 <= i < |results| && results[i].key.setId == setId && MaxId(results, results[i].key) == Some(r.id)
  }

  /** How many of the first n rows survive the join with the given outcome. */
  function CountLatest(results: seq<ProbeRow>, setId: CredentialSetId, outcome: ProbeOutcome, n: nat): nat
    requires n <= |results|
  {
    if n == 0 then 0
    else
      CountLatest(results, setId, outcome, n - 1)
      + if InLatest(results, setId, results[n - 1]) && results[n - 1].outcome == outcome then 1 else 0
  }

  /** `load_probe_summary_for_credential_set`. */
  function LoadedSummary(results: seq<ProbeRow>, setId: CredentialSetId): Summary {
    var n := |results|;
    Summary(
      CountLatest(results, setId, Success, n), CountLatest(results, setId, Invalid, n),
      CountLatest(results, setId, QuotaDepleted, n), CountLatest(results, setId, RateLimited, n),
      CountLatest(results, setId, ProviderUnavailable, n), CountLatest(results, setId, UnsupportedModel, n),
      CountLatest(results, setId, Unknown, n))
  }

  /** The joined rows that belong to one credential, as credential ids. */
  function JoinedIds(results: seq<ProbeRow>, setId: CredentialSetId, outcome: ProbeOutcome, id: CredentialId,
                     n: nat): seq<CredentialId>
    requires n <= |results|
  {
    if n == 0 then []
    else
      var rest, r := JoinedIds(results, setId, outcome, id, n - 1), results[n - 1];
      if InLatest(results, setId, r) && r.key == Key(setId, id) && r.outcome == outcome
      then rest + [r.key.credentialId] else rest
  }

  /** The outcome list before LIMIT and OFFSET: joined with the credentials and ordered by position. */
  function OutcomeIds(results: seq<ProbeRow>, setId: CredentialSetId, outcome: ProbeOutcome,
                      ids: seq<CredentialId>): seq<CredentialId> {
    if ids == [] then []
    else JoinedIds(results, setId, outcome, ids[0], |results|) + OutcomeIds(results, setId, outcome, ids[1..])
  }

  predicate HasProbe(results: seq<ProbeRow>, key: Key) {
    exists i :: 0 <= i < |results| && results[i].key == key
  }

  /** The unprobed list before LIMIT and OFFSET. */
  function UnprobedIds(results: seq<ProbeRow>, setId: CredentialSetId, ids: seq<CredentialId>): seq<CredentialId> {
    if ids == [] then []
    else (if HasProbe(results, Key(setId, ids[0])) then [] else [ids[0]]) + UnprobedIds(results, setId, ids[1..])
  }

  /** SELECT COUNT(*) of the unprobed credentials. */
  function UnprobedTotal(results: seq<ProbeRow>, setId: CredentialSetId, ids: seq<CredentialId>): nat {
    if ids == [] then 0
    else (if HasProbe(results, Key(setId, ids[0])) then 0 else 1) + UnprobedTotal(results, setId, ids[1..])
  }

  // --- Pages ------------------------------------------------------------------------------------

  const TWO63: nat := 0x8000_0000_0000_0000

  /** A 64-bit unsigned integer. */
  type Usize = n: nat | n < 0x1_0000_0000_0000_0000

  /** `as i64`. */
  function AsI64(n: Usize): int {
    if n < TWO63 then n else n - 2 * TWO63
  }

  /** LIMIT and OFFSET: a negative limit is none, a negative offset is zero. */
  function Page<T>(list: seq<T>, offset: Usize, limit: Usize): seq<T> {
    var start := if AsI64(offset) < 0 then 0 else if AsI64(offset) < |list| then AsI64(offset) else |list|;
    var rest := list[start..];
    if 0 <= AsI64(limit) < |rest| then rest[..AsI64(limit)] else rest
  }

  /** The window a caller asks for. */
  function Window<T>(list: seq<T>, offset: nat, limit: nat): seq<T> {
    var rest := if offset < |list| then list[offset..] else [];
    if limit < |rest| then rest[..limit] else rest
  }

  /** The page is the requested window unless the offset wraps negative, which restarts at the first row. */
  lemma PageIsWindow<T>(list: seq<T>, offset: Usize, limit: Usize)
    requires |list| < TWO63
    ensures Page(list, offset, limit) == Window(list, offset, limit) <==> offset < TWO63 || list == [] || limit == 0
    ensures offset >= TWO63 ==> Page(list, offset, limit) == Page(list, 0, limit)
  {
    if offset >= TWO63 && list != [] && limit != 0 {
      assert |Page(list, offset, limit)| > 0;
    }
  }

  /** The first n consecutive pages of one size, joined. */
  function Pages<T>(list: seq<T>, size: Usize, n: nat): seq<T>
    requires n * size <= TWO63
  {
    if n == 0 then [] else
      assert n * size == (n - 1) * size + size;
      assert (n - 1) * size <= TWO63;
      Pages(list, size, n - 1) + Page(list, (n - 1) * size, size)
  }

  /** What has been read when the reader has got as far as the offset. */
  function ReadUpTo<T>(list: seq<T>, offset: nat): seq<T> {
    if offset < |list| then list[..offset] else list
  }

  lemma PageExtends<T>(list: seq<T>, offset: nat, size: Usize)
    requires offset + size <= TWO63 && 0 < size < TWO63
    ensures ReadUpTo(list, offset) + Page(list, offset, size) == ReadUpTo(list, offset + size)
  {
  }

  /** Consecutive pages join to the list read so far, and to the whole list once they reach its end. */
  lemma {:induction false} PagesJoin<T>(list: seq<T>, size: Usize, n: nat)
    requires n * size <= TWO63 && 0 < size < TWO63
    ensures Pages(list, size, n) == ReadUpTo(list, n * size)
  {
    if n > 0 {
      assert n * size == (n - 1) * size + size;
      PagesJoin(list, size, n - 1);
      PageExtends(list, (n - 1) * size, size);
    }
  }

  // --- The projections agree with the simple view -----------------------------------------------

  lemma {:induction false} LatestIsSound(results: seq<ProbeRow>, key: Key)
    ensures var r := Latest(results, key); r.Some? ==> r.value in results && r.value.key == key
    ensures Latest(results, key).None? <==> !HasProbe(results, key)
  {
    if results != [] {
      LatestIsSound(results[..|results| - 1], key);
      assert results == results[..|results| - 1] + [results[|results| - 1]];
    }
  }

  lemma {:induction false} MaxIdIsLatest(results: seq<ProbeRow>, key: Key)
    requires AscendingProbes(results)
    ensures MaxId(results, key) == if Latest(results, key).Some? then Some(Latest(results, key).value.id) else None
  {
    if results != [] {
      var init := results[..|results| - 1];
      MaxIdIsLatest(init, key);
      LatestIsSound(init, key);
    }
  }

  /** The join keeps exactly the newest row of each credential of the set. */
  lemma JoinKeepsLatest(results: seq<ProbeRow>, setId: CredentialSetId, i: nat)
    requires AscendingProbes(results) && i < |results|
    ensures InLatest(results, setId, results[i])
            <==> results[i].key.setId == setId && Latest(results, results[i].key) == Some(results[i])
  {
    var r := results[i];
    if InLatest(results, setId, r) {
      var j :| 0 <= j < |results| && results[j].key.setId == setId && MaxId(results, results[j].key) == Some(r.id);
      MaxIdIsLatest(results, results[j].key);
      LatestIsSound(results, results[j].key);
    }
    MaxIdIsLatest(results, r.key);
  }

  /** The credentials whose latest outcome is the given one, or that were never probed. */
  function WithLatest(results: seq<ProbeRow>, setId: CredentialSetId, outcome: Option<ProbeOutcome>,
                      ids: seq<CredentialId>): seq<CredentialId> {
    if ids == [] then []
    else (if LatestOutcome(results, Key(setId, ids[0])) == outcome then [ids[0]] else [])
         + WithLatest(results, setId, outcome, ids[1..])
  }

  lemma {:induction false} JoinedIdsAreLatest(results: seq<ProbeRow>, setId: CredentialSetId, outcome: ProbeOutcome,
                                              id: CredentialId, n: nat)
    requires AscendingProbes(results) && n <= |results|
    ensures var latest := Latest(results, Key(setId, id));
            JoinedIds(results, setId, outcome, id, n)
            == if latest.Some? && latest.value.outcome == outcome && latest.value in results[..n] then [id] else []
  {
    if n > 0 {
      JoinKeepsLatest(results, setId, n - 1);
      JoinedIdsAreLatest(results, setId, outcome, id, n - 1);
      LatestIsSound(results, Key(setId, id));
      assert results[..n] == results[..n - 1] + [results[n - 1]];
      assert results[n - 1] !in results[..n - 1];
    }
  }

  /** The outcome list is the simple view's list. */
  lemma {:induction false} OutcomeListIsLatestView(results: seq<ProbeRow>, setId: CredentialSetId,
                                                   outcome: ProbeOutcome, ids: seq<CredentialId>)
    requires AscendingProbes(results)
    ensures OutcomeIds(results, setId, outcome, ids) == WithLatest(results, setId, Some(outcome), ids)
  {
    if ids != [] {
      JoinedIdsAreLatest(results, setId, outcome, ids[0], |results|);
      LatestIsSound(results, Key(setId, ids[0]));
      OutcomeListIsLatestView(results, setId, outcome, ids[1..]);
    }
  }

  /** So is the unprobed list, and its total is its length. */
  lemma {:induction false} UnprobedListIsLatestView(results: seq<ProbeRow>, setId: CredentialSetId,
                                                    ids: seq<CredentialId>)
    ensures UnprobedIds(results, setId, ids) == WithLatest(results, setId, None, ids)
    ensures UnprobedTotal(results, setId, ids) == |UnprobedIds(results, setId, ids)|
  {
    if ids != [] {
      LatestIsSound(results, Key(setId, ids[0]));
      UnprobedListIsLatestView(results, setId, ids[1..]);
    }
  }

  /** The credentials counted among the first n rows. */
  ghost function Counted(results: seq<ProbeRow>, setId: CredentialSetId, outcome: ProbeOutcome,
                         n: nat): set<CredentialId>
    requires n <= |results|
  {
    if n == 0 then {}
    else
      var r := results[n - 1];
      Counted(results, setId, outcome, n - 1)
      + if InLatest(results, setId, r) && r.outcome == outcome then {r.key.credentialId} else {}
  }

  ghost predicate HasLatestIn(results: seq<ProbeRow>, setId: CredentialSetId, outcome: ProbeOutcome, id: CredentialId,
                              n: nat)
    requires n <= |results|
  {
    var latest := Latest(results, Key(setId, id));
    latest.Some? && latest.value.outcome == outcome && latest.value in results[..n]
  }

  lemma HasLatestStep(results: seq<ProbeRow>, setId: CredentialSetId, outcome: ProbeOutcome, id: CredentialId, n: nat)
    requires AscendingProbes(results) && 0 < n <= |results|
    ensures var r := results[n - 1];
            HasLatestIn(results, setId, outcome, id, n)
            <==> HasLatestIn(results, setId, outcome, id, n - 1)
                 || (id == r.key.credentialId && InLatest(results, setId, r) && r.outcome == outcome)
  {
    JoinKeepsLatest(results, setId, n - 1);
    LatestIsSound(results, Key(setId, id));
    assert results[..n] == results[..n - 1] + [results[n - 1]];
  }

  lemma {:induction false} CountedMeaning(results: seq<ProbeRow>, setId: CredentialSetId, outcome: ProbeOutcome, n: nat,
                                          id: CredentialId)
    requires AscendingProbes(results) && n <= |results|
    ensures id in Counted(results, setId, outcome, n) <==> HasLatestIn(results, setId, outcome, id, n)
  {
    if n > 0 {
      CountedMeaning(results, setId, outcome, n - 1, id);
      HasLatestStep(results, setId, outcome, id, n);
    }
  }

  lemma {:induction false} CountIsCardinality(results: seq<ProbeRow>, setId: CredentialSetId, outcome: ProbeOutcome,
                                              n: nat)
    requires AscendingProbes(results) && n <= |results|
    ensures |Counted(results, setId, outcome, n)| == CountLatest(results, setId, outcome, n)
  {
    if n > 0 {
      var r := results[n - 1];
      CountIsCardinality(results, setId, outcome, n - 1);
      CountedMeaning(results, setId, outcome, n - 1, r.key.credentialId);
      JoinKeepsLatest(results, setId, n - 1);
      assert r !in results[..n - 1];
    }
  }

  lemma {:induction false} WithLatestMeaning(results: seq<ProbeRow>, setId: CredentialSetId,
                                             outcome: Option<ProbeOutcome>, ids: seq<CredentialId>)
    requires Distinct(ids)
    ensures Distinct(WithLatest(results, setId, outcome, ids))
    ensures forall id :: id in WithLatest(results, setId, outcome, ids)
                         <==> id in ids && LatestOutcome(results, Key(setId, id)) == outcome
  {
    if ids != [] {
      WithLatestMeaning(results, setId, outcome, ids[1..]);
      assert forall id :: id in ids <==> id == ids[0] || id in ids[1..];
      if LatestOutcome(results, Key(setId, ids[0])) == outcome {
        DistinctConcat([ids[0]], WithLatest(results, setId, outcome, ids[1..]));
      }
    }
  }

  /** Every probed credential of the set is listed. */
  ghost predicate Covers(results: seq<ProbeRow>, setId: CredentialSetId, ids: seq<CredentialId>) {
    forall r <- results :: r.key.setId == setId ==> r.key.credentialId in ids
  }

  /** The count over the probe log is the length of the list over the credentials. */
  lemma CountIsListLength(results: seq<ProbeRow>, setId: CredentialSetId, outcome: ProbeOutcome, ids: seq<CredentialId>)
    requires AscendingProbes(results) && Distinct(ids) && Covers(results, setId, ids)
    ensures CountLatest(results, setId, outcome, |results|) == |OutcomeIds(results, setId, outcome, ids)|
  {
    var list := WithLatest(results, setId, Some(outcome), ids);
    OutcomeListIsLatestView(results, setId, outcome, ids);
    CountIsCardinality(results, setId, outcome, |results|);
    WithLatestMeaning(results, setId, Some(outcome), ids);
    DistinctCount(list);
    forall id
      ensures id in Elements(list) <==> HasLatestIn(results, setId, outcome, id, |results|)
    {
      LatestIsSound(results, Key(setId, id));
      CountedMeaning(results, setId, outcome, |results|, id);
    }
    assert forall id :: id in Elements(list) <==> id in Counted(results, setId, outcome, |results|) by {
      forall id { CountedMeaning(results, setId, outcome, |results|, id); }
    }
    assert Elements(list) == Counted(results, setId, outcome, |results|);
  }

  lemma {:induction false} OutcomesPartition(results: seq<ProbeRow>, setId: CredentialSetId, ids: seq<CredentialId>)
    ensures |WithLatest(results, setId, None, ids)|
            + |WithLatest(results, setId, Some(Success), ids)| + |WithLatest(results, setId, Some(Invalid), ids)|
            + |WithLatest(results, setId, Some(QuotaDepleted), ids)|
            + |WithLatest(results, setId, Some(RateLimited), ids)|
            + |WithLatest(results, setId, Some(ProviderUnavailable), ids)|
            + |WithLatest(results, setId, Some(UnsupportedModel), ids)|
            + |WithLatest(results, setId, Some(Unknown), ids)|
            == |ids|
  {
    if ids != [] {
      var latest := LatestOutcome(results, Key(setId, ids[0]));
      OutcomesPartition(results, setId, ids[1..]);
      match latest {
        case None =>
        case Some(outcome) =>
          match outcome {
            case Success => case Invalid => case QuotaDepleted => case RateLimited =>
            case ProviderUnavailable => case UnsupportedModel => case Unknown =>
          }
      }
    }
  }

  /** `credential_probe_summary_status`: total, probed, and the difference, which saturates at zero. */
  function SummaryStatus(total: nat, summary: Summary): (nat, nat, nat) {
    var probed := summary.success + summary.invalid + summary.quotaExhausted + summary.rateLimited
                  + summary.providerUnavailable + summary.unsupportedModel + summary.unknown;
    (total, probed, if probed <= total then total - probed else 0)
  }

  /**
   The seven outcome lists and the unprobed list split the given credentials: every credential is in the
   one list of its latest outcome, each list keeps the given order, each total is the length of its list
   and the summary field of its outcome, and the unprobed figure of the status report does not saturate.
   */
  ghost predicate ProjectionsAgree(results: seq<ProbeRow>, setId: CredentialSetId, ids: seq<CredentialId>) {
    && (forall outcome :: OutcomeIds(results, setId, outcome, ids) == WithLatest(results, setId, Some(outcome), ids))
    && (forall outcome :: CountLatest(results, setId, outcome, |results|) == |OutcomeIds(results, setId, outcome, ids)|)
    && UnprobedIds(results, setId, ids) == WithLatest(results, setId, None, ids)
    && UnprobedTotal(results, setId, ids) == |UnprobedIds(results, setId, ids)|
    && (forall id <- ids, outcome :: id in WithLatest(results, setId, outcome, ids)
                                     <==> LatestOutcome(results, Key(setId, id)) == outcome)
    && SummaryReads(LoadedSummary(results, setId), results, setId, ids)
    && var (total, probed, unprobed) := SummaryStatus(|ids|, LoadedSummary(results, setId));
       total == |ids| && unprobed == total - probed == UnprobedTotal(results, setId, ids)
  }

  /** Each field of the summary is the number of credentials whose latest outcome is the one it is named after. */
  ghost predicate SummaryReads(summary: Summary, results: seq<ProbeRow>, setId: CredentialSetId,
                               ids: seq<CredentialId>) {
    && summary.success == |WithLatest(results, setId, Some(Success), ids)|
    && summary.invalid == |WithLatest(results, setId, Some(Invalid), ids)|
    && summary.quotaExhausted == |WithLatest(results, setId, Some(QuotaDepleted), ids)|
    && summary.rateLimited == |WithLatest(results, setId, Some(RateLimited), ids)|
    && summary.providerUnavailable == |WithLatest(results, setId, Some(ProviderUnavailable), ids)|
    && summary.unsupportedModel == |WithLatest(results, setId, Some(UnsupportedModel), ids)|
    && summary.unknown == |WithLatest(results, setId, Some(Unknown), ids)|
  }

  lemma SummaryIsLatestView(results: seq<ProbeRow>, setId: CredentialSetId, ids: seq<CredentialId>)
    requires AscendingProbes(results) && Distinct(ids) && Covers(results, setId, ids)
    ensures SummaryReads(LoadedSummary(results, setId), results, setId, ids)
  {
    forall outcome: ProbeOutcome
      ensures CountLatest(results, setId, outcome, |results|) == |WithLatest(results, setId, Some(outcome), ids)|
    {
      CountIsListLength(results, setId, outcome, ids);
      OutcomeListIsLatestView(results, setId, outcome, ids);
    }
  }

  lemma SummaryDoesNotSaturate(results: seq<ProbeRow>, setId: CredentialSetId, ids: seq<CredentialId>)
    requires AscendingProbes(results) && Distinct(ids) && Covers(results, setId, ids)
    ensures var (total, probed, unprobed) := SummaryStatus(|ids|, LoadedSummary(results, setId));
            total == |ids| && unprobed == total - probed == UnprobedTotal(results, setId, ids)
  {
    SummaryIsLatestView(results, setId, ids);
    UnprobedListIsLatestView(results, setId, ids);
    OutcomesPartition(results, setId, ids);
  }

  lemma ProjectionsPartition(results: seq<ProbeRow>, setId: CredentialSetId, ids: seq<CredentialId>)
    requires AscendingProbes(results) && Distinct(ids) && Covers(results, setId, ids)
    ensures ProjectionsAgree(results, setId, ids)
  {
    forall outcome: ProbeOutcome
      ensures OutcomeIds(results, setId, outcome, ids) == WithLatest(results, setId, Some(outcome), ids)
      ensures CountLatest(results, setId, outcome, |results|) == |OutcomeIds(results, setId, outcome, ids)|
    {
      CountIsListLength(results, setId, outcome, ids);
      OutcomeListIsLatestView(results, setId, outcome, ids);
    }
    forall outcome: Option<ProbeOutcome>, id <- ids
      ensures id in WithLatest(results, setId, outcome, ids) <==> LatestOutcome(results, Key(setId, id)) == outcome
    {
      WithLatestMeaning(results, setId, outcome, ids);
    }
    UnprobedListIsLatestView(results, setId, ids);
    SummaryIsLatestView(results, setId, ids);
    SummaryDoesNotSaturate(results, setId, ids);
  }

  // --- The batched lookup -----------------------------------------------------------------------

  /** The join restricted to requested credentials. */
  predicate InRequestedLatest(results: seq<ProbeRow>, setId: CredentialSetId, requested: set<CredentialId>,
                              r: ProbeRow) {
    exists i :: 0 <= i < |results| && results[i].key.setId == setId && results[i].key.credentialId in requested
                && MaxId(results, results[i].key) == Some(r.id)
  }

  /** `load_latest_probe_results_for_credentials`: rows from the newest down to index i, collected into a map. */
  function LatestByCredential(results: seq<ProbeRow>, setId: CredentialSetId, requested: set<CredentialId>,
                              i: nat): map<CredentialId, ProbeRow>
    requires i <= |results|
    decreases |results| - i
  {
    if i == |results| then map[]
    else
      var newer, r := LatestByCredential(results, setId, requested, i + 1), results[i];
      if InRequestedLatest(results, setId, requested, r) then newer[r.key.credentialId := r] else newer
  }

  lemma {:induction false} BatchCollects(results: seq<ProbeRow>, setId: CredentialSetId, requested: set<CredentialId>,
                                         i: nat, id: CredentialId)
    requires AscendingProbes(results) && i <= |results|
    ensures var latest, m := Latest(results, Key(setId, id)), LatestByCredential(results, setId, requested, i);
            if id in requested && latest.Some? && latest.value in results[i..]
            then id in m && m[id] == latest.value
            else id !in m
    decreases |results| - i
  {
    LatestIsSound(results, Key(setId, id));
    if i < |results| {
      var r := results[i];
      BatchCollects(results, setId, requested, i + 1, id);
      assert results[i..] == [r] + results[i + 1..];
      RequestedIsLatest(results, setId, requested, i);
    }
  }

  lemma RequestedIsLatest(results: seq<ProbeRow>, setId: CredentialSetId, requested: set<CredentialId>, i: nat)
    requires AscendingProbes(results) && i < |results|
    ensures InRequestedLatest(results, setId, requested, results[i])
            <==> results[i].key.setId == setId && results[i].key.credentialId in requested
                 && Latest(results, results[i].key) == Some(results[i])
  {
    var r := results[i];
    if InRequestedLatest(results, setId, requested, r) {
      var j :| 0 <= j < |results| && results[j].key.setId == setId && results[j].key.credentialId in requested
               && MaxId(results, results[j].key) == Some(r.id);
      MaxIdIsLatest(results, results[j].key);
      LatestIsSound(results, results[j].key);
    }
    MaxIdIsLatest(results, r.key);
  }

  /** The batched lookup answers each requested credential exactly as the single lookup does. */
  lemma BatchedLookupAgrees(results: seq<ProbeRow>, setId: CredentialSetId, requested: set<CredentialId>,
                            id: CredentialId)
    requires AscendingProbes(results)
    ensures var m := LatestByCredential(results, setId, requested, 0);
            (if id in m then Some(m[id]) else None) == if id in requested then Latest(results, Key(setId, id)) else None
  {
    BatchCollects(results, setId, requested, 0, id);
    LatestIsSound(results, Key(setId, id));
  }
}
