# Verified model of the one-ai-key router core

The router keeps upstream credentials in a transactional ledger, compiles error policies into classifiers, buffers
telemetry in bounded logs, and mirrors its client tokens in memory. This project models those parts in Dafny and
proves what every run, every response and every configuration can rely on. `dafny verify dfyconfig.toml` checks it.

How the modules fit together:

- `CredentialImports`, `CredentialLifecycle` and `CredentialProbes` hold the tables, the transactions as functions of
  the tables, and the SQL reads as functions of the tables. `ImportAnswers` says what an import answers and stores in
  terms of its input lines. `Ledger` composes the tables into runs. `ImportLaws`, `ImportRuns` and `CompensationLaws`
  prove what whole runs guarantee. `CredentialRepository` holds the transactions as the class and loops they are, each
  proved equal to the function it performs.
- `ErrorClassifier` classifies a response; `ErrorPolicy` validates, merges and compiles the configuration behind it;
  `CompiledPolicy` reads classifications off the configuration.
- `RingBuffers`, `EventLog` and `Telemetry` are the bounded buffers, the file-backed log and the counters over them.
- `ClientTokens` and `TokenService` are the token table, its sorted runtime mirror and the management flows, and
  `TokenEffects` what each flow stores, answers and refuses.
- `ConfigResolver` and `ModelVisibility` resolve tokens, pools, routes and groups, and project what a token can see;
  `ResolvedDocument` reads the resolved configuration off the document.
- `Fnv` is the short hash on 64-bit words, with its published values in `FnvVectors`. `Strings`, `FirstOccurrences` and `Outcomes` are shared definitions.

Findings, stated as lemmas because the code does not meet the plain wish:

- A log write that breaks off inside a character leaves a line that is not UTF-8, and the next open then fails and
  reads no event at all: `TornTailOpensExactly`. `RunReadsExactly` says, for every mix of complete, failed and torn
  writes, exactly when the file still opens and what it then holds; `TearThenWrites` shows the two writes after a tear.
- The event log opens with a corrupt last line, or with an unterminated last line of white space that JSON does not
  skip, although the next append then loses its own record or makes the file unreadable: `AppendIsDurableExactly` gives
  the exact condition, `CorruptTailThenAppendIsFatal` one case.
- A row that was written but could not be read back leaves the runtime token list behind the table:
  `CallKeepsMirrorExactly` shows that among calls that run to completion this is the only way the two come apart, and
  `RestartMends` that a restart ends it. Until then a token authorises by the flag it had when it was last mirrored,
  `AuthorizationReadsLastMirrored`, so a disable whose read-back fails does not take effect: `UnseenDisableStillAuthorises`.
- A compensation writes back the pool's current state (src/management_commands.rs:636-662), with a history id only
  when the event append failed (src/management_commands.rs:587-620). It keeps the newest history record equal to the
  current state exactly under the condition of `CompensationMatchesExactly`. Without an id that means the state written
  back is the one the update wrote, `CompensationWithoutHistoryId`; after a second update in between, the one that
  update wrote, `FirstOfTwoCompensated`. Any other state, such as the one from before a change, breaks it:
  `OutOfOrderExample`.
- A page offset of 2^63 or more restarts at the first row instead of giving an empty page: `PageIsWindow`.
- The duplicate-charge counter for calls known to be free of charge is always zero: `CountersAreExact`.
- A token scope of nothing but blanks is stored as unrestricted: `ScopeIsUnrestrictedExactly`.
- Retry-After delta seconds may carry a plus sign, which section 10.2.3 of RFC 9110 does not allow:
  `RetryAfterReadsExactly` and `RfcFormExactly` give the accepted forms, `PlusSignExample` an input.

## Model

| member | source | states |
|---|---|---|
| `Strings.TrimStrips` | src/credential_repository.rs:786-790 | Trimming takes off white space only, at both ends, and all of it |
| `Strings.LinesReadBack` | src/credential_repository.rs:3094-3096 | Cutting a file gives back the lines it was written from, ended by a line feed with or without a carriage return, and a last one without an end |
| `CredentialImports.ScanMeaning` | src/credential_repository.rs:786-840 | A batch adds exactly the first occurrences of trimmed, non-empty lines that are neither stored nor excluded, and every line is counted once as new, duplicate or empty |
| `CredentialImports.ScanReports` | src/credential_repository.rs:786-840 | Each new credential carries the line of its first occurrence; each duplicate points back to the stored row's line, to itself if excluded, or to the first occurrence in the batch |
| `CredentialImports.AddedSecretsAreNew` | src/credential_repository.rs:1645-1663 | No inserted secret is already stored, repeated, blank or untrimmed |
| `CredentialImports.InPositionOrder` | src/credential_repository.rs:2993-3031 | Ordering by position returns rows at consecutive positions unchanged |
| `CredentialImports.NextPositionIsLength` | src/credential_repository.rs:1723-1733 | With positions 0 to n-1 the next position is n |
| `CredentialImports.BootstrapKeepsValid` | src/credential_repository.rs:2928-2991 | A bootstrap keeps rows, counters and batches in agreement for every set |
| `CredentialImports.AppendKeepsValid` | src/credential_repository.rs:766-879 | An append keeps rows, counters and batches in agreement for every set |
| `ImportAnswers.AppendAnswers` | src/credential_repository.rs:766-879 | An append is accepted if and only if its set is stored. Its answer holds the new keys in order of first occurrence, each with that line and the batch id, the counters of this batch alone, every repeating line once under its own number with the line it repeats, the batch id as path and the stored generation, one more than before; rows and batch log gain just that |
| `ImportAnswers.RawImportAnswers` | src/credential_repository.rs:3084-3144 | A key file answers its lines in the same way, or fails exactly when it holds no key |
| `ImportAnswers.FirstLoadAnswers` | src/credential_repository.rs:1157-1180 | The first load of a set answers its key file and stores exactly that answer, generation 1, as one bootstrap batch; a file without keys leaves no trace |
| `ImportAnswers.SecondLoadAnswers` | src/credential_repository.rs:2993-3031 | A load of a stored set changes nothing and answers its rows with its own metadata, whatever the file holds |
| `ImportAnswers.ExistingLineReadsRow` | src/credential_repository.rs:1645-1663 | The line reported for a stored secret is its row's source line, or else its position counted from one |
| `ImportLaws.AppendGrows` | src/credential_repository.rs:766-879 | An append extends the rows after the existing ones, which keep position, source and batch; other sets are untouched |
| `ImportLaws.IncrementalImportIsOneShot` | src/credential_repository.rs:766-879 | After a bootstrap and any appends without exclusions, stored secrets and all five counters are those of one pass over the concatenated input |
| `ImportLaws.SplittingBatchesIsInvisible` | src/credential_repository.rs:2993-3031 | Any two ways of cutting one input into a file and batches load the same secrets in the same order with the same counters |
| `ImportLaws.AppendsAreConfluent` | src/credential_repository.rs:776-860 | Every commit order of the same appends, each with its own exclusions, leaves the same stored secrets and the same counters at positions 0 to n-1 |
| `ImportLaws.SameStoredSameRow` | src/credential_repository.rs:2894-2926 | The stored secrets and the line totals determine the whole metadata row |
| `ImportLaws.LoadReadsRows` | src/credential_repository.rs:2993-3031 | Loading returns the rows in position order with the set's own counters |
| `ImportLaws.LoadFailsExactly` | src/credential_repository.rs:2993-3031 | A load fails exactly without a metadata row or without credentials, and says which |
| `ImportLaws.ReloadReturnsTheImport` | src/credential_repository.rs:712-727 | Loading a set again returns what its bootstrap returned, whatever the key file now holds, except for the duplicate list |
| `Ledger.RunsAreValid` | src/credential_repository.rs:766-1153 | After every run of loads, appends, updates, compensations and probes, rows, counters, batches, states, history and probes agree |
| `Ledger.LedgerConservation` | src/credential_repository.rs:841-858 | In every reachable store unique is the row count, non-empty is unique plus duplicates, physical is non-empty plus empty, all are sums over batches, and the generation is one plus the accepted appends |
| `Ledger.GenerationCountsAppends` | src/credential_repository.rs:2894-2926 | A set's generation is one plus the number of accepted appends to it |
| `Ledger.CurrentStateIsLastWritten` | src/credential_repository.rs:1093-1153 | After every run the current state of a credential is the last one an accepted call wrote |
| `Ledger.SnapshotsAreLastWritten` | src/credential_repository.rs:1792-1866 | After every run loading snapshots succeeds and returns exactly the non-available credentials in position order with their last written state and reason |
| `Ledger.SnapshotsReadWrites` | src/credential_repository.rs:1792-1866 | Said of each snapshot: it is of a stored credential of the set whose last write was that state and not "available", in position order |
| `Ledger.EvidenceHistoryMatchesState` | src/credential_repository.rs:1904-1943 | After any run without compensations the newest history record of each credential carries its current state |
| `Ledger.ReachableProjectionsAgree` | src/credential_repository.rs:2594-2732 | In every reachable store the seven outcome lists and the unprobed list split the credentials in position order, with totals equal to list lengths, and each summary field is the number of credentials with that latest outcome |
| `ImportRuns.RunsAreOnePass` | src/credential_repository.rs:766-879 | After every run of the store, a set holds exactly the first occurrences of the keys its accepted imports offered (batch exclusions left out), and its counters are those of one pass over their lines, whatever comes in between |
| `ImportRuns.RunsWithoutExclusions` | src/credential_repository.rs:766-879 | Without exclusions that is exactly the first occurrences of the trimmed, non-empty lines of all accepted imports |
| `ImportRuns.SameInputSameSet` | src/credential_repository.rs:2993-3031 | Runs that gave a set the same input leave it with the same secrets in the same order and the same counters |
| `ImportRuns.ExcludedAreLeftOut` | src/credential_repository.rs:815-822 | Excluding secrets from a batch stores what the batch without them would |
| `CredentialLifecycle.CodecsRoundTrip` | src/credential_repository.rs:2017-2064 | Decoding the stored state and source codes gives back what was encoded |
| `CredentialLifecycle.CodecsExactly` | src/credential_repository.rs:2017-2064 | The stored codes are the published ones, nothing else decodes, and a missing reason is read as the empty one |
| `CredentialLifecycle.LoadSucceedsExactly` | src/credential_repository.rs:1792-1866 | Loading snapshots fails exactly when a state is orphaned or has an unknown kind |
| `CredentialLifecycle.LoadReportsStates` | src/credential_repository.rs:1792-1866 | Otherwise it reports exactly the stored states in credential order |
| `CredentialLifecycle.LoadErrorsExactly` | src/credential_repository.rs:1792-1866 | An unknown kind on a credential of the set is reported first, an orphaned state only otherwise |
| `CredentialLifecycle.ReportedExactly` | src/credential_repository.rs:1792-1866 | The report holds exactly the non-available credentials, each with its own state, in their order |
| `CredentialLifecycle.UpdateEffect` | src/credential_repository.rs:1093-1117 | An update becomes the current state and the newest record of its credential and of no other |
| `CredentialLifecycle.WritesAnswer` | src/credential_repository.rs:1093-1153 | Updates and compensations are refused exactly for unknown credentials, without a trace; an update answers its history id, a compensation the state it wrote |
| `CredentialLifecycle.DeleteNewest` | src/credential_repository.rs:1119-1153 | Deleting a credential's newest record uncovers the one below and changes no other history |
| `CredentialLifecycle.CompensationIsExactUndo` | src/credential_repository.rs:1119-1153 | Compensating with the previous state and the returned history id restores every state and the whole history; only the id counter moves on |
| `CompensationLaws.StepOnViews` | src/credential_repository.rs:1093-1153 | In a run whose compensations are last-in-first-out, each update or compensation pushes or pops the records of its own credential, and no operation moves another view |
| `CompensationLaws.HistoryAlwaysMatchesState` | src/credential_repository.rs:1868-1943 | After every run of loads, appends, probes, updates and last-in-first-out compensations, the newest record of each credential equals its current state |
| `CompensationLaws.BracketedRunRestoresView` | src/credential_repository.rs:1119-1153 | A stretch of such a run that closes every update it opens leaves a credential's state and history as they were, whatever loads, appends, probes and other calls come in between |
| `CompensationLaws.CompensationMatchesExactly` | src/credential_repository.rs:1119-1153 | With any history id or none, history and state stay together if and only if the state written is the one shown by the records left over |
| `CompensationLaws.CompensationWithoutHistoryId` | src/management_commands.rs:587-620 | After an update, compensating to any state without a history id keeps history and state together if and only if that state is the one the update wrote |
| `CompensationLaws.FirstOfTwoCompensated` | src/credential_repository.rs:1119-1153 | After two updates, compensating the first to any state keeps them together if and only if that state is the one the second wrote |
| `CompensationLaws.OutOfOrderExample` | src/credential_repository.rs:1119-1153 | Concrete compensations to the earlier state, out of order and without an id, after which they differ |
| `CredentialProbes.JoinKeepsLatest` | src/credential_repository.rs:2594-2631 | The join on the maximum id per credential keeps exactly each credential's newest row |
| `CredentialProbes.LatestIsNewest` | src/credential_repository.rs:2525-2558 | The latest result of a credential is its row with the highest id |
| `CredentialProbes.RecordedIsLatest` | src/credential_repository.rs:992-1008 | A recorded probe is stored as given under a fresh id and becomes the latest of its credential and of no other; refused exactly for unknown credentials |
| `CredentialProbes.OutcomeListIsLatestView` | src/credential_repository.rs:2633-2684 | The outcome query lists exactly the credentials whose latest outcome is the requested one, in position order |
| `CredentialProbes.UnprobedListIsLatestView` | src/credential_repository.rs:2686-2732 | The unprobed query lists exactly the credentials without a probe, and its total is its length |
| `CredentialProbes.CountIsListLength` | src/credential_repository.rs:2594-2684 | The summary count over the probe log equals the length of the outcome list over the credentials |
| `CredentialProbes.SummaryIsLatestView` | src/credential_repository.rs:2594-2631 | Each of the seven summary fields is the number of credentials whose latest outcome is the one it is named after |
| `CredentialProbes.SummaryDoesNotSaturate` | src/credential_probe.rs:628-651 | Total minus probed is the unprobed total, so the saturating subtraction never saturates |
| `CredentialProbes.ProjectionsPartition` | src/credential_repository.rs:2594-2732 | Every credential is in the one list of its latest outcome; totals agree with lengths, and each summary field with the list of its own outcome |
| `CredentialProbes.PageIsWindow` | src/credential_repository.rs:2633-2732 | A page is the requested window if and only if the offset stays below 2^63, the list is empty or the limit is zero |
| `CredentialProbes.PagesJoin` | src/credential_repository.rs:2633-2732 | Consecutive pages join to the list read so far, and to the whole list once they reach its end |
| `CredentialProbes.BatchedLookupAgrees` | src/credential_repository.rs:2734-2801 | The batched latest lookup answers each requested credential as the single lookup does |
| `CredentialRepository.ImportRawCredentials` | src/credential_repository.rs:3084-3144 | The loop over the key file computes the one-pass import, or fails when there is no key |
| `CredentialRepository.LookupInsideTransaction` | src/credential_repository.rs:786-840 | Looking a secret up inside the transaction, where the batch's own rows are already inserted, answers as before it |
| `CredentialRepository.InsertBatch` | src/credential_repository.rs:786-840 | The insert loop ends with the old rows followed by the new ones at consecutive positions, its report and its counters |
| `CredentialRepository.SqliteCredentialRepository.LoadCredentialSet` | src/credential_repository.rs:1157-1180 | Loads the stored set if it has rows, otherwise imports and stores the key file |
| `CredentialRepository.SqliteCredentialRepository.PersistImport` | src/credential_repository.rs:2928-2991 | Writes the set row, each credential at its index and the bootstrap batch |
| `CredentialRepository.SqliteCredentialRepository.AppendCredentialsExcludingSecrets` | src/credential_repository.rs:766-879 | One append transaction, with its report, or an unknown-set error and no change |
| `CredentialRepository.SqliteCredentialRepository.PersistLifecycleUpdateWithEvidence` | src/credential_repository.rs:1093-1117 | Writes state and history in one step; refused exactly for unknown credentials |
| `CredentialRepository.SqliteCredentialRepository.PersistLifecycleSnapshot` | src/credential_repository.rs:1119-1153 | Writes the state and deletes the stale history record in one step |
| `CredentialRepository.SqliteCredentialRepository.LoadLifecycleSnapshots` | src/credential_repository.rs:1792-1866 | Takes states off credential by credential; what is left over is an orphan error |
| `CredentialRepository.SqliteCredentialRepository.RecordProbeResult` | src/credential_repository.rs:992-1008 | Appends the probe, which becomes the credential's latest; refused exactly for unknown credentials |
| `ErrorClassifier.StatusRoundTrip` | src/error.rs:500-537 | Printing and parsing a matcher gives it back if and only if some configuration string parses to it |
| `ErrorClassifier.StatusStringsDenote` | src/error.rs:500-537 | A string that parses matches the one status it spells, or every status of the hundred it names |
| `ErrorClassifier.PrintedStatusSpells` | src/error.rs:521-529 | A matcher prints its number, its hundred, or both ends of its range |
| `ErrorClassifier.SnapshotRoundTrip` | src/error.rs:150-164 | Rebuilding from the snapshot of a built classifier gives an equal classifier |
| `ErrorClassifier.RetryAfterReadsExactly` | src/error.rs:448-472 | Only the first Retry-After header counts; it is read as seconds if and only if it is an optional plus sign and digits below 2^64, else as a date if it parses as one, and a past date gives no wait |
| `ErrorClassifier.NoRetryAfter` | src/error.rs:448-472 | Without such a header there is neither wait nor source |
| `ErrorClassifier.RfcFormExactly` | src/error.rs:448-472 | Of the values read as seconds, those in the RFC form are exactly those without the plus sign |
| `ErrorClassifier.PlusSignExample` | src/error.rs:448-472 | "+5" is read as five seconds |
| `ErrorClassifier.RetryableExactly` | src/error.rs:255-441 | A failure is retryable before adaptation if and only if its code switches (quota codes only on the channel), or no code decides and its status switches |
| `ErrorClassifier.AuthInvalidExactly` | src/error.rs:255-441 | A credential is reported invalid if and only if its code expires it, or no code decides and the status does: never under a code-less error object, never by 401 or 403 from a relay |
| `ErrorClassifier.SwitchVerdictsExactly` | src/error.rs:255-441 | When exactly a failure is a rate limit, a provider failure or about a balance |
| `ErrorClassifier.BalanceVerdictsExactly` | src/error.rs:297-334 | When exactly a failure is an exhausted quota of the credential, an unavailable balance of the channel, or unknown on account, provider or client token, each with its retryability and confidence |
| `ErrorClassifier.LimitVerdictsInFull` | src/error.rs:255-441 | Scope and confidence of every rate limit, provider failure and invalid credential |
| `ErrorClassifier.KeySwitchExactly` | src/error.rs:255-441 | A failure is a key-switch cooldown on the credential if and only if it has that code and the code is kept, by list or for want of another listing |
| `ErrorClassifier.ClientErrorsExactly` | src/error.rs:255-441 | When exactly a failure is a client error on the model group, and when on the request: a relay's 401 or 403, or an error object without a code |
| `ErrorClassifier.UnknownExactly` | src/error.rs:255-441 | When exactly a failure is unknown on the request |
| `ErrorClassifier.ApplyAdaptationRules` | src/error.rs:227-253 | Overwrites only the fields the first matching rule sets, or nothing |
| `ErrorClassifier.AdaptedInFull` | src/error.rs:227-253 | The first matching rule sets exactly the fields its action gives and its id; a wait from the response comes before its cooldown |
| `ErrorClassifier.UnadaptedInFull` | src/error.rs:166-208 | Without a matching rule the failure carries verdict, wait, status, code and limit type unchanged |
| `ErrorClassifier.ClassifyFailure` | src/error.rs:166-208 | Code, status and code-less evidence, Retry-After and adaptation combine into one classified failure |
| `ErrorClassifier.IrrelevantRules` | src/error.rs:227-253 | Disabled rules, and every rule after one that matches, can be deleted without changing any classification |
| `ErrorPolicy.KeySwitchCooldownIsProtected` | src/config.rs:692-734 | Whatever compiles, a response that is a key-switch cooldown before and after adaptation is not retryable and waits exactly its Retry-After, or not at all |
| `ErrorPolicy.OverrideCheckIsExact` | src/config.rs:708-734 | The override check refuses an enabled rule if and only if some response would subvert the key-switch cooldown |
| `ErrorPolicy.BaseVerdictIsSupported` | src/error.rs:255-441 | Before adaptation the verdict is one of the nine pairs, retryable only for credential rate limits, channel balance and channel provider failures |
| `ErrorPolicy.ClassificationIsClosed` | src/config.rs:1615-1672 | Whatever compiles, every classification is one of the nine pairs; account, deployment, adapter and client-token scopes are unreachable |
| `ErrorPolicy.BalanceScopeCheckIsExact` | src/config.rs:1674-1687 | Every quota code that switches is classified within the nine pairs if and only if the balance scope validates |
| `ErrorPolicy.CompiledIsAccepted` | src/config.rs:571-591 | Every compiled classifier has a supported balance scope and only rules that passed every check |
| `CompiledPolicy.CompiledLists` | src/config.rs:571-591 | Codes, profile and balance scope of a compiled classifier are the configured ones or the literal defaults, and each status list matches exactly the statuses that some configured string, or default, denotes |
| `CompiledPolicy.ConfiguredCodeDecides` | src/error.rs:255-345 | From configuration to verdict: a configured keep, expire or switch code decides, in this order, as its list says |
| `CompiledPolicy.ConfiguredStatusDecides` | src/error.rs:347-410 | From configuration to verdict: where no code decides, the configured keep, expire and switch statuses do |
| `CompiledPolicy.CompiledRule` | src/config.rs:670-690 | A compiled rule has the trimmed id, flag, lists and action of its configuration and matches exactly the responses those describe |
| `CompiledPolicy.ConfiguredRuleAdapts` | src/error.rs:227-253 | The first configured rule that applies sets the fields its action gives, over the base verdict |
| `CompiledPolicy.NoConfiguredRule` | src/error.rs:227-253 | If none applies the classification is the base verdict with the wait of the response |
| `CompiledPolicy.RuleCompilesExactly` | src/config.rs:670-784 | A rule compiles if and only if its id is present, its action sets one of the nine pairs or none, its statuses parse, its matcher is not empty, its cooldown is not zero, and it does not override a key-switch cooldown |
| `CompiledPolicy.ConfigCompilesExactly` | src/config.rs:571-591 | A configuration compiles if and only if its balance scope is credential or channel, its statuses parse and its rules compile |
| `CompiledPolicy.ActionFailsExactly` | src/config.rs:751-784 | Each error of an action is reported exactly under its own condition |
| `CompiledPolicy.RuleFailsExactly` | src/config.rs:670-690 | A rule reports its first fault, in the order id, action, statuses, matcher, override |
| `CompiledPolicy.ConfigFailsFirst` | src/config.rs:571-591 | A bad balance scope is reported, otherwise the fault of the first bad rule |
| `CompiledPolicy.ConfigFailsLast` | src/config.rs:571-591 | Without either, only a status that does not parse is |
| `ErrorPolicy.ValidateUniqueIds` | src/config.rs:1577-1613 | Reports the first empty or repeated trimmed id in rule order |
| `ErrorPolicy.UniqueIdsMeaning` | src/config.rs:1577-1613 | It accepts exactly the rule lists with distinct, non-empty trimmed ids |
| `CompiledPolicy.FirstFaultIsReported` | src/config.rs:1577-1613 | The error is that of the first rule whose id is empty or repeats an earlier one |
| `ErrorPolicy.ResolvePoolErrorPolicy` | src/config.rs:1398-1489 | The field-by-field merge gives the merged policy and sources, or the first error |
| `CompiledPolicy.PolicyResolvesExactly` | src/config.rs:1398-1489 | A policy resolves if and only if the named profile exists and the trimmed ids of profile and pool together are present and distinct; each setting is then the pool's or else the profile's, and the sources say whether the pool sets anything |
| `CompiledPolicy.PolicyFailsExactly` | src/config.rs:1398-1489 | It is refused for the pool's own ids, else for the profile's name, else for the ids of both |
| `ErrorPolicy.MergeKeepsProvenance` | src/config.rs:1398-1489 | A merge lists profile rules then pool rules with distinct trimmed ids and a source list aligned index by index |
| `ErrorPolicy.AdaptationIdNamesOneSource` | src/config.rs:1398-1489 | A classified failure has an adaptation id if and only if some rule matches, and the id names exactly one source: the profile if a rule of the profile matches, the pool otherwise |
| `ErrorPolicy.MergeCompilesModularly` | src/config.rs:571-591 | Over a profile that compiles, the merged policy compiles if and only if the pool's own part does |
| `ErrorPolicy.MergeIsLayering` | src/config.rs:1398-1489 | Merging is associative, an empty side adds nothing but trimming, and each of the eight settings of the pool wins |
| `ErrorPolicy.ProfileRulesDecideFirst` | src/config.rs:1440-1489 | In a merged policy the pool's rules are reached only by responses that no profile rule matches |
| `RingBuffers.RingConservation` | src/events.rs:433-499 | Under any mix of pushes, external drops and resizes, contents are the latest accepted events within capacity and everything else offered is counted as dropped up to saturation |
| `RingBuffers.RingBooksBalance` | src/events.rs:433-499 | Below saturation, length plus dropped equals pushes plus external drops |
| `RingBuffers.RingHoldsExactly` | src/events.rs:433-499 | The contents are exactly the latest accepted events, as many as the capacities allowed to stay: nothing is dropped without need |
| `RingBuffers.FilterIdsAreContiguous` | src/events.rs:272-352 | Response-filter ids are the contiguous block that ends at the next id, also across capacity zero; nothing is dropped without need and the books balance |
| `RingBuffers.RoutingTelemetryBuffer.Push` | src/events.rs:442-452 | Drops the oldest event when full, the new one at capacity zero |
| `RingBuffers.RoutingTelemetryBuffer.ReplaceCapacity` | src/events.rs:488-498 | Shrinking drops and counts the oldest events |
| `RingBuffers.ResponseFilterEventBuffer.PushAtUnixSeconds` | src/events.rs:286-315 | Numbers the accepted report and returns it, or counts a drop at capacity zero without using an id |
| `RingBuffers.ResponseFilterEventBuffer.ReplaceCapacity` | src/events.rs:341-351 | Shrinking drops and counts the oldest reports and keeps the numbering |
| `EventLog.ReadMeaning` | src/events.rs:1137-1163 | Reading fails exactly when some line is not UTF-8 or a line other than the last is corrupt, and otherwise returns the decodable events in order |
| `EventLog.FirstBadLineDecides` | src/events.rs:1137-1163 | The failure is that of the first line that is not UTF-8, or corrupt with another after it |
| `EventLog.ReadEventsFromPath` | src/events.rs:1137-1163 | The line loop returns those events, or the failure of the first bad line |
| `EventLog.AppendIsDurableExactly` | src/events.rs:1080-1085 | A readable file takes one more record without loss if and only if its last line is not corrupt and is terminated or holds only white space that JSON skips |
| `EventLog.CorruptTailThenAppendIsFatal` | src/events.rs:1148-1156 | After a terminated corrupt last line one append leaves a file that cannot be opened |
| `EventLog.RunReadsExactly` | src/events.rs:1036-1163 | After any mix of complete, failed and torn writes to a clean file: exactly when it still opens, and exactly the events it then holds |
| `EventLog.AppendsReadBack` | src/events.rs:1036-1163 | If every write completes or fails before its first byte, the file reads back as the old events and the complete ones in order |
| `EventLog.TornTailOpensExactly` | src/events.rs:1141-1156 | If the last write breaks off, the file opens if and only if the cut is not inside a character; then only the torn record can be lost, exactly when it is incomplete |
| `EventLog.TearThenWrites` | src/events.rs:1148-1156 | After a tear one more complete write opens but loses both records, and the next one is fatal |
| `EventLog.PushWindowKeepsLast` | src/events.rs:1208-1228 | The pushed window is the last min(capacity, total) events |
| `EventLog.EventLog.constructor` | src/events.rs:644-671 | Opening gives the total, the bounded window and the next id of the stored events |
| `EventLog.OpenWithWindowCapacity` | src/events.rs:644-671 | Opening fails exactly when the file cannot be read, with the reader's error; otherwise the log holds what was read |
| `EventLog.EventLog.RecordAuditEventNow` | src/events.rs:1036-1089 | A successful append extends the log by an event whose id exceeds every stored one; a failed one changes no event in memory; the file takes the whole record, none of it, or what the break left; it stays in step exactly as long as no write breaks off |
| `EventLog.EventLog.WindowBlocking` | src/events.rs:1102-1115 | Total is the full length; the page is the exact slice, starting no earlier than the oldest retained event |
| `EventLog.SliceReadsLog` | src/events.rs:1102-1115 | Entry by entry, the page starts at the later of offset and oldest retained event and is cut at the limit or the end |
| `EventLog.EventLog.Reopen` | src/events.rs:644-671 | Closing and opening a durable log gives the same total and window |
| `Telemetry.RetryPressureCounters.Observe` | src/events.rs:376-424 | Bumps exactly the counters of an accounted failure's codes |
| `Telemetry.RetryPressureSnapshot` | src/events.rs:478-486 | Counts every buffered failure event |
| `Telemetry.PressureSumsAgree` | src/failure_observer.rs:144-229 | In a window of real observations the directive, denial-reason and duplicate-charge counters each sum to the accounted failures |
| `Telemetry.CountersAreExact` | src/failure_observer.rs:144-229 | Each directive and risk counter is the number of accounted decisions of that kind; nothing is ever counted as known to be free of charge |
| `Telemetry.DenialCountersAreExact` | src/events.rs:376-424 | Each of the thirteen published reasons counts exactly the decisions it names, none after partial output |
| `Telemetry.DecisionRepeatsDirective` | src/failure_observer.rs:144-229 | The decision code repeats the directive code, save for the error code, beside the reason code of its kind |
| `Telemetry.RecorderIsRing` | src/failure_observer.rs:69-85 | Over any mix of calls, capacity changes and outside drops the recorder is the ring run on what gets past the lock, beside a wrapping count of what does not |
| `Telemetry.EveryCallIsAccounted` | src/failure_observer.rs:69-85 | Over any such mix, buffered plus buffer-dropped plus contention-dropped equals calls plus outside drops, and the buffer holds the latest accepted events within its capacity |
| `Telemetry.TelemetryRecorder.Record` | src/failure_observer.rs:69-85 | Pushes when the lock is free or poisoned, otherwise counts a contention drop |
| `Telemetry.TelemetryRecorder.ReplaceCapacity` | src/state.rs:770-773 | A reload resizes the shared buffer and counts what it drops |
| `ClientTokens.SortIsSorted` | src/client_token_store.rs:311-324 | The list is in (name, id) order and holds the same tokens |
| `Strings.LeIsAlphabetical` | src/client_token_store.rs:311-324 | The order of names: a prefix comes first, otherwise the first different character decides |
| `ClientTokens.SortedByName` | src/client_token_store.rs:311-324 | The list is alphabetical by name, and by id within one name |
| `ClientTokens.SortedIsDetermined` | src/client_token_store.rs:311-324 | Two sorted lists of the same uniquely named tokens are equal |
| `ClientTokens.MirrorUpsert` | src/management_client_tokens.rs:166-176 | Overwriting or pushing in the sorted runtime list and sorting again mirrors the same change of the table |
| `ClientTokens.UpdateKeepsUnique` | src/client_token_store.rs:181-238 | Changing only the flag or the scopes keeps ids, names and hashes unique and changes one row |
| `ClientTokens.AuthorizationIgnoresOrder` | src/auth.rs:25-56 | In any order of the rows a token authorises exactly the one enabled row with its hash |
| `TokenService.NormalizeUniqueNonEmpty` | src/management_client_tokens.rs:212-222 | First occurrences of the trimmed, non-empty values |
| `TokenService.NormalizeAllowedChannels` | src/management_client_tokens.rs:224-245 | The same, refused when one is not a configured channel |
| `TokenService.ScopeIsUnrestrictedExactly` | src/management_client_tokens.rs:212-222 | A scope is stored as unrestricted if and only if it holds nothing but blanks |
| `TokenService.CallKeepsMirrorExactly` | src/management_client_tokens.rs:34-123 | The runtime list stays the sorted table after every call, failing ones included, if and only if no changed row fails its read-back |
| `TokenEffects.CreateStores` | src/management_client_tokens.rs:34-67 | A created token is stored last, enabled, with the trimmed name, derived id and hash, and the first occurrences of the trimmed, non-empty scope values |
| `TokenEffects.CreateFailsExactly` | src/management.rs:297-327 | Each failure of a create, in the order of the checks; it succeeds if and only if none holds |
| `TokenEffects.SetEnabledStores` | src/client_token_store.rs:181-201 | Enabling or disabling succeeds if and only if token, row, audit log and store are there; the stored and returned row then has the requested flag and keeps everything else |
| `TokenEffects.SetEnabledFailsExactly` | src/management_client_tokens.rs:69-93 | Each failure of it |
| `TokenEffects.ScopeUpdateStores` | src/client_token_store.rs:203-239 | A scope update succeeds if and only if a list is given, its channels exist, and token, row, audit log and store are there; the stored and returned row then has the first occurrences of the trimmed, non-empty values of each list given and keeps the other list, id, name, hash and flag |
| `TokenEffects.ScopeUpdateFailsExactly` | src/management_client_tokens.rs:95-123 | Each failure of it |
| `TokenEffects.DisableThenEnable` | src/management_client_tokens.rs:69-93 | Disabling and enabling an enabled token gives back its row |
| `TokenEffects.AuditsOnlyGrow` | src/management_client_tokens.rs:34-123 | Over any sequence of starts and calls the audit trail only grows, by at most one entry a call and by none at a start |
| `TokenService.CallActsOnItsToken` | src/management_client_tokens.rs:34-123 | No row changes without an audit entry naming its token, no other row is touched, a success is what the table then holds, and a failure leaves table and runtime list alone unless a read-back failed |
| `TokenService.RunsKeepMirror` | src/management_client_tokens.rs:34-176 | After any sequential run without such a read-back failure the runtime list is the sorted table with unique ids, names and hashes |
| `TokenService.AuthorizationReadsTheTable` | src/auth.rs:25-56 | Then a bearer token authorises exactly the one enabled stored row with its hash |
| `TokenService.LivesKeepKeys` | src/client_token_store.rs:126-238 | After any sequence of starts and calls, whatever failed, ids, names and hashes are unique, ids are derived from names (src/config.rs:891-898), and the runtime list has exactly the stored keys |
| `TokenService.RestartMends` | src/client_token_store.rs:126-148 | A restart makes a runtime list that has fallen behind equal to the table again |
| `TokenService.AuditedCreateSucceeds` | src/management.rs:297-327 | After any such life a create without faults succeeds if and only if name and token are present, the channels exist and neither id nor hash is stored; it is audited if and only if it succeeds |
| `TokenService.RuntimeIsLastMirrored` | src/management_client_tokens.rs:166-176 | After any life the runtime list holds each id once, as the token was last loaded at a start or written by a successful call |
| `TokenService.AuthorizationReadsLastMirrored` | src/auth.rs:25-56 | After any life a bearer token authorises exactly the token with its hash whose flag was set when it was last mirrored |
| `TokenService.UnseenDisableStillAuthorises` | src/management_client_tokens.rs:69-93 | After a disable whose read-back fails the row is disabled and the token still authorises |
| `TokenService.LoadOrBootstrap` | src/client_token_store.rs:126-148 | An empty table takes the configured tokens, all or none; the loaded state mirrors the table |
| `TokenService.ClientTokenService.ReplaceRuntimeClientToken` | src/management_client_tokens.rs:166-176 | Overwrites the token with the id or pushes it, then sorts |
| `TokenService.ClientTokenService.CreateClientToken` | src/management_client_tokens.rs:34-67 | The create flow, behind the checks of its only caller (src/management.rs:297-327), with each of its failures |
| `TokenService.ClientTokenService.SetClientTokenEnabled` | src/management_client_tokens.rs:69-93 | The enable and disable flow with each of its failures |
| `TokenService.ClientTokenService.UpdateClientTokenScope` | src/management_client_tokens.rs:95-123 | The scope update flow with each of its failures |
| `ConfigResolver.ResolveClientTokens` | src/config.rs:874-898 | Resolves exactly the token lists with present, distinct names and secrets |
| `ConfigResolver.ResolveNames` | src/config.rs:916-934 | Trims and deduplicates a list exactly when every entry is a known, non-empty name |
| `ConfigResolver.ResolvedScope` | src/config.rs:916-934 | A resolved scope is empty only if it was configured empty; it has no repeats and stays within the known names |
| `ConfigResolver.ByPriorityIsStable` | src/config.rs:1126-1144 | Targets come in ascending priority and keep their configured order within one priority |
| `ConfigResolver.ResolveRoute` | src/config.rs:1120-1153 | A route resolves exactly when its strategy is known and it has targets that all name a pool; it then serves those targets in stable priority order |
| `ConfigResolver.ResolvePools` | src/config.rs:908-915 | Pools resolve exactly when their trimmed ids are present and distinct, and each is found under its id |
| `ConfigResolver.ResolveGroups` | src/config.rs:1155-1190 | Groups resolve exactly when their ids are present and distinct and their members are non-empty lists of routes |
| `ConfigResolver.Resolve` | src/config.rs:874-1197 | As far as tokens, pools, scopes, routes, groups and the default pool go, a document resolves if and only if ids are present and distinct and every reference points at an entry; the result is well-formed and keeps what the document says, and otherwise the first failing stage reports its first fault |
| `ResolvedDocument.RouteReadsTargets` | src/config.rs:1120-1153 | A resolved route has as many targets as the configured one; those of one priority are the ones configured with it, in that order, with channel, model, weight and flag kept and the provider kind of their pool |
| `ResolvedDocument.TokenReadsDocument` | src/config.rs:874-934 | Every resolved token stands at its place with its own name, hash, flag and groups, and its trimmed channels once each in order of first occurrence |
| `ResolvedDocument.TablesReadDocument` | src/config.rs:908-1197 | Pools and groups stand under their trimmed ids and under no other; a group lists its trimmed members once each in order |
| `ConfigResolver.ScopedTokensStayScoped` | src/config.rs:916-934 | A channel scope resolves to the unrestricted one only if it was configured empty |
| `ModelVisibility.VisibleModelsForClient` | src/control_plane.rs:204-241 | The strictly ascending list of exactly the models the token can see |
| `ModelVisibility.VisibilityIsMonotone` | src/control_plane.rs:204-257 | Scoping an unrestricted token never adds a model, and growing a non-empty scope never removes one |
| `ModelVisibility.VisibilityReadsTheDocument` | src/control_plane.rs:204-257 | What a token of a resolved document sees: exactly the routed models that it or one of its groups lists and that have an enabled target, in its scope, in a live pool of the document |
| `ModelVisibility.ResolvedScopeBindsVisibility` | src/control_plane.rs:217-236 | A model that a token with a configured channel scope can see is served from a channel the document lists for it |
| `Fnv.PrimeIsInvertible` | src/credentials.rs:196-203 | Multiplying by the FNV prime modulo 2^64 has a two-sided inverse |
| `Fnv.StepIsBijective` | src/credentials.rs:196-203 | Each byte step is a bijection on 64-bit words |
| `Fnv.SuffixKeepsStatesApart` | src/credentials.rs:196-203 | A common suffix neither merges nor separates hash states |
| `Fnv.HexIsInjective` | src/credentials.rs:196-203 | The 16-digit rendering loses nothing |
| `Fnv.ShortHash` | src/credentials.rs:196-203 | The loop prints the hash of the bytes |
| `FnvVectors.EmptyVector` | src/credentials.rs:196-213 | The empty string hashes to cbf29ce484222325 |
| `FnvVectors.HelloVector` | src/credentials.rs:196-213 | "hello" hashes to a430d84680aabd0b |
| `Fnv.CollisionsComeFromPrefixes` | src/credentials.rs:196-203 | Two strings with a common suffix collide if and only if their prefixes do |
| `Fnv.OneByteChangesTheHash` | src/credentials.rs:196-203 | Equal-length strings that differ in one byte never share a short hash |
| `Fnv.OneByteChangesTheIdentity` | src/credentials.rs:74-87 | Two secrets of one namespace that differ in one byte never share an id or a fingerprint |

## Left out

- Digests: in the ledger the SHA-256 fingerprints and the credential ids are free constructors, that is, assumed collision-free; in the token flows digests are arbitrary functions, none of them assumed to be injective.
- Fingerprint agreement between the two digests: a bootstrap reports duplicates by the short hash and an append by SHA-256, which the model keeps apart by constructor.
- Clocks: time stamps in every table and event, and the last-seen touch of a repeated secret.
- Operator label and note of a credential, the claimed count in a file name, and the redaction of source references.
- SQLite itself: transactions are atomic, a failing statement inside the credential store is not modelled, and migrations and backfills of older schemas are skipped. `INSERT OR REPLACE` of a set row only meets sets without rows, because every reachable set has rows.
- Read-only bootstrap handles of both stores, which have no state to keep.
- `EventLog.EventLog.RecordAuditEventNow`: the normalisation of action, resource and reason fields and the 64-bit bound of the id are not modelled; an event is its id and an opaque body, and where a torn write is cut is a parameter.
- JSON and HTTP-date parsing: the evidence of a body is taken as parsed, and `ErrorClassifier.RetryAfter` takes the date parser as a parameter.
- Transport failures, the classifier id and version constants, and the 16-bit overflow panic of a debug build when a range is printed (the model wraps).
- Provider, account, credential-set, timeout, routing-profile and management-principal resolution, whose ids may collide after trimming.
- `ConfigResolver.Resolve`: of several bad routes it does not say which is reported, since hash maps iterate in no fixed order; error kinds stand for message texts; a failing error policy, account or endpoint of a pool is not part of it.
- Probe result policies, route planning and retries, credential pools and the registry store.
- Concurrent token mutations, concurrent first bootstraps, and cancelled calls: the token theorems are about sequential calls that run to completion. A handler dropped by its client while the store still writes commits the row and skips the runtime list.
- `TokenService.RunsKeepMirror`: excludes read-back failures, because `CallKeepsMirrorExactly` shows that a changed row that cannot be read back breaks the mirror.
- Telemetry fields that no counter reads, and the rendering of reports.
