/**
 The management flows over client tokens: normalise, check the runtime list, audit, write the table, mirror the row.
 */
module TokenService {
  import opened Outcomes
  import opened Strings
  import opened FirstOccurrences
  import opened ClientTokens

  /** The digests behind ids and hashes, and the configured channels. */
  datatype Config = Config(stableId: string -> string, hashToken: string -> string, channels: set<string>)

  /** How the store's I/O fares in one call. */
  datatype Io = Works | WriteFails | ReadBackFails
  datatype Faults = Faults(auditWorks: bool, io: Io)

  datatype AuditEntry = AuditEntry(kind: string, tokenId: string)
  datatype State = State(rows: seq<Token>, runtime: seq<Token>, audits: seq<AuditEntry>)

  datatype Call =
    | Create(name: string, token: string, allowedModelGroups: seq<string>, allowedChannels: seq<string>)
    | SetEnabled(id: string, enabled: bool)
    | UpdateScope(id: string, newModelGroups: Option<seq<string>>, newChannels: Option<seq<string>>)

  // --- Scope normalisation ----------------------------------------------------------------------

  function NormalizedGroups(values: seq<string>): seq<string> {
    Firsts(Keys(values), {})
  }

  function NormalizedChannels(cfg: Config, values: seq<string>): Result<seq<string>, TokenError> {
    if Elements(Keys(values)) <= cfg.channels then Ok(Firsts(Keys(values), {})) else Err(UnknownChannel)
  }

  lemma NextKey(values: seq<string>, i: nat)
    requires i < |values|
    ensures var keys, next, key := Keys(values[..i]), Keys(values[..i + 1]), Trim(values[i]);
            && next == (if key == "" then keys else keys + [key])
            && Firsts(next, {}) == Firsts(keys, {}) + (if key == "" || key in Elements(keys) then [] else [key])
            && Elements(next) == Elements(keys) + if key == "" then {} else {key}
  {
    var keys, key := Keys(values[..i]), Trim(values[i]);
    assert values[..i + 1][..i] == values[..i];
    assert (keys + [key])[..|keys|] == keys;
    ElementsOfConcat(keys, [key]);
  }

  lemma UnknownKeyIsRefused(cfg: Config, values: seq<string>, i: nat)
    requires i < |values| && Trim(values[i]) != "" && Trim(values[i]) !in cfg.channels
    ensures NormalizedChannels(cfg, values).Err?
  {
    NextKey(values, i);
    assert values[..i + 1] + values[i + 1..] == values;
    KeysOfConcat(values[..i + 1], values[i + 1..]);
    ElementsOfConcat(Keys(values[..i + 1]), Keys(values[i + 1..]));
    assert Trim(values[i]) in Elements(Keys(values));
  }

  method NormalizeUniqueNonEmpty(values: seq<string>) returns (normalized: seq<string>)
    ensures normalized == NormalizedGroups(values)
  {
    normalized := [];
    var seen: set<string> := {};
    for i := 0 to |values|
      invariant normalized == Firsts(Keys(values[..i]), {}) && seen == Elements(Keys(values[..i]))
    {
      NextKey(values, i);
      var value := Trim(values[i]);
      if value != "" {
        if value !in seen {
          seen := seen + {value};
          normalized := normalized + [value];
        }
      }
    }
    assert values[..|values|] == values;
  }

  method NormalizeAllowedChannels(cfg: Config, values: seq<string>) returns (r: Result<seq<string>, TokenError>)
    ensures r == NormalizedChannels(cfg, values)
  {
    var normalized: seq<string> := [];
    var seen: set<string> := {};
    for i := 0 to |values|
      invariant normalized == Firsts(Keys(values[..i]), {}) && seen == Elements(Keys(values[..i])) <= cfg.channels
    {
      NextKey(values, i);
      var channel := Trim(values[i]);
      if channel == "" {
        continue;
      }
      if channel !in cfg.channels {
        UnknownKeyIsRefused(cfg, values, i);
        return Err(UnknownChannel);
      }
      if channel !in seen {
        seen := seen + {channel};
        normalized := normalized + [channel];
      }
    }
    assert values[..|values|] == values;
    r := Ok(normalized);
  }

  lemma {:induction false} KeysEmptyExactly(values: seq<string>)
    ensures Keys(values) == [] <==> forall v <- values :: Trim(v) == ""
  {
    if values != [] {
      KeysEmptyExactly(values[..|values| - 1]);
      assert values == values[..|values| - 1] + [values[|values| - 1]];
    }
  }

  /**
   A scope list is stored as unrestricted exactly when it holds nothing but blanks; what is stored has no blanks and no
   repeats.
   */
  lemma ScopeIsUnrestrictedExactly(values: seq<string>)
    ensures NormalizedGroups(values) == [] <==> forall v <- values :: Trim(v) == ""
    ensures Distinct(NormalizedGroups(values)) && forall v <- NormalizedGroups(values) :: v != "" && Trim(v) == v
  {
    var keys := Keys(values);
    KeysEmptyExactly(values);
    KeysAreTrimmed(values);
    FirstsElements(keys, {});
    FirstsAreDistinct(keys, {});
    if keys != [] {
      assert keys[0] in Elements(keys) && keys[0] in Elements(Firsts(keys, {}));
    }
    forall v <- NormalizedGroups(values) ensures v in keys {
      assert v in Elements(Firsts(keys, {})) && v in Elements(keys);
    }
  }

  // --- The flows --------------------------------------------------------------------------------

  function Audited(s: State, kind: string, id: string): State {
    s.(audits := s.audits + [AuditEntry(kind, id)])
  }

  /** `replace_runtime_client_token` after the table has been written. */
  function Mirrored(s: State, rows: seq<Token>, updated: Token): State {
    s.(rows := rows, runtime := Sort(Upsert(s.runtime, updated)))
  }

  function HashKnown(tokens: seq<Token>, tokenHash: string): bool {
    exists i :: 0 <= i < |tokens| && tokens[i].tokenHash == tokenHash
  }

  function NewToken(cfg: Config, call: Call, channels: seq<string>): Token
    requires call.Create?
  {
    Token(cfg.stableId(Trim(call.name)), Trim(call.name), cfg.hashToken(Trim(call.token)), true,
          NormalizedGroups(call.allowedModelGroups), channels)
  }

  /** The create request; the store's own test for a blank name or token repeats the first one here. */
  function Created(cfg: Config, s: State, call: Call, faults: Faults): (State, Result<Token, TokenError>)
    requires call.Create?
  {
    var channels := NormalizedChannels(cfg, call.allowedChannels);
    if Trim(call.name) == "" || Trim(call.token) == "" then (s, Err(BadRequest))
    else if channels.Err? then (s, Err(channels.error))
    else
      var token := NewToken(cfg, call, channels.value);
      if FindById(s.runtime, token.id).Some? || HashKnown(s.runtime, token.tokenHash) then (s, Err(Conflict))
      else if !faults.auditWorks then (s, Err(EventAppendFailed))
      else
        var audited := Audited(s, "client_token_created", token.id);
        if faults.io.WriteFails? then (audited, Err(Persistence))
        else if ViolatesUnique(s.rows, token) then (audited, Err(Duplicate))
        else (Mirrored(audited, s.rows + [token], token), Ok(token))
  }

  /** Writes one existing row and reads it back for the runtime list. */
  function Rewritten(s: State, updated: Token, io: Io): (State, Result<Token, TokenError>) {
    var rows := Upsert(s.rows, updated);
    if io.ReadBackFails? then (s.(rows := rows), Err(Persistence)) else (Mirrored(s, rows, updated), Ok(updated))
  }

  function EnabledSet(s: State, id: string, enabled: bool, faults: Faults): (State, Result<Token, TokenError>) {
    if FindById(s.runtime, id).None? then (s, Err(NotFound))
    else if !faults.auditWorks then (s, Err(EventAppendFailed))
    else
      var audited := Audited(s, if enabled then "client_token_enabled" else "client_token_disabled", id);
      var row := FindById(s.rows, id);
      if faults.io.WriteFails? then (audited, Err(Persistence))
      else if row.None? then (audited, Err(NotFound))
      else Rewritten(audited, row.value.(enabled := enabled), faults.io)
  }

  /** The row a scope update asks for. */
  function Rescoped(t: Token, groups: Option<seq<string>>, channels: Option<seq<string>>): Token {
    t.(allowedModelGroups := if groups.Some? then NormalizedGroups(groups.value) else t.allowedModelGroups,
       allowedChannels := if channels.Some? then Firsts(Keys(channels.value), {}) else t.allowedChannels)
  }

  function ScopeUpdated(cfg: Config, s: State, call: Call, faults: Faults): (State, Result<Token, TokenError>)
    requires call.UpdateScope?
  {
    if call.newModelGroups.None? && call.newChannels.None? then (s, Err(BadRequest))
    else if call.newChannels.Some? && NormalizedChannels(cfg, call.newChannels.value).Err? then (s, Err(UnknownChannel))
    else if FindById(s.runtime, call.id).None? then (s, Err(NotFound))
    else if !faults.auditWorks then (s, Err(EventAppendFailed))
    else
      var audited := Audited(s, "client_token_scope_updated", call.id);
      var row := FindById(s.rows, call.id);
      if faults.io.WriteFails? then (audited, Err(Persistence))
      else if row.None? then (audited, Err(NotFound))
      else Rewritten(audited, Rescoped(row.value, call.newModelGroups, call.newChannels), faults.io)
  }

  function Apply(cfg: Config, s: State, call: Call, faults: Faults): (State, Result<Token, TokenError>) {
    match call
    case Create(_, _, _, _) => Created(cfg, s, call, faults)
    case SetEnabled(id, enabled) => EnabledSet(s, id, enabled, faults)
    case UpdateScope(_, _, _) => ScopeUpdated(cfg, s, call, faults)
  }

  function Run(cfg: Config, s: State, calls: seq<(Call, Faults)>): State {
    if calls == [] then s
    else
      var last := calls[|calls| - 1];
      Apply(cfg, Run(cfg, s, calls[..|calls| - 1]), last.0, last.1).0
  }

  // --- The mirror -------------------------------------------------------------------------------

  /** The runtime list is the table in (name, id) order, and the table keeps its unique columns. */
  ghost predicate Mirrors(s: State) {
    Unique(s.rows) && s.runtime == Sort(s.rows)
  }

  /** The row the call would write, if it gets that far and differs from the stored one. */
  predicate WouldChange(cfg: Config, s: State, call: Call) {
    match call
    case Create(_, _, _, _) => false
    case SetEnabled(id, enabled) => FindById(s.rows, id).Some? && FindById(s.rows, id).value.enabled != enabled
    case UpdateScope(id, groups, channels) =>
      && (channels.Some? ==> NormalizedChannels(cfg, channels.value).Ok?)
      && (groups.Some? || channels.Some?)
      && FindById(s.rows, id).Some?
      && Rescoped(FindById(s.rows, id).value, groups, channels) != FindById(s.rows, id).value
  }

  /** Without the mirroring, the old runtime list still fits only if the row did not change. */
  lemma UnmirroredFitsExactly(rows: seq<Token>, stored: Token, updated: Token)
    requires Unique(rows) && FindById(rows, updated.id) == Some(stored)
    ensures Sort(rows) == Sort(Upsert(rows, updated)) <==> updated == stored
  {
    SortIsSorted(rows);
    SortIsSorted(Upsert(rows, updated));
    UpsertMultiset(rows, updated);
    FindByIdMeaning(rows, updated.id);
    if updated == stored {
      SortOfPermutation(rows, Upsert(rows, updated));
    } else {
      assert multiset(Upsert(rows, updated))[stored] < multiset(rows)[stored];
    }
  }

  lemma RewriteMirrorsExactly(s: State, stored: Token, updated: Token, io: Io)
    requires Mirrors(s) && !io.WriteFails? && FindById(s.rows, updated.id) == Some(stored)
    requires stored.name == updated.name && stored.tokenHash == updated.tokenHash
    ensures Unique(Rewritten(s, updated, io).0.rows)
    ensures Mirrors(Rewritten(s, updated, io).0) <==> !(io.ReadBackFails? && updated != stored)
  {
    UpdateKeepsUnique(s.rows, updated);
    if io.ReadBackFails? {
      UnmirroredFitsExactly(s.rows, stored, updated);
    } else {
      MirrorUpsert(s.rows, s.runtime, updated);
    }
  }

  lemma RuntimeFindsWhatIsStored(s: State, id: string)
    requires Mirrors(s)
    ensures FindById(s.runtime, id) == FindById(s.rows, id)
  {
    SortIsSorted(s.rows);
    FindInPermutation(s.rows, s.runtime, id);
  }

  lemma CreateKeepsMirror(cfg: Config, s: State, call: Call, faults: Faults)
    requires Mirrors(s) && call.Create?
    ensures Mirrors(Created(cfg, s, call, faults).0)
  {
    var (s', r) := Created(cfg, s, call, faults);
    if r.Ok? {
      InsertKeepsUnique(s.rows, r.value);
      RuntimeFindsWhatIsStored(s, r.value.id);
      UpsertNewIsInsert(s.rows, r.value);
      MirrorUpsert(s.rows, s.runtime, r.value);
    }
  }

  /**
   The unique columns survive every call, failing ones included. The runtime list stays equal to the table after
   every call except one: a row that was changed but could not be read back.
   */
  lemma CallKeepsMirrorExactly(cfg: Config, s: State, call: Call, faults: Faults)
    requires Mirrors(s)
    ensures var s' := Apply(cfg, s, call, faults).0;
            && Unique(s'.rows)
            && (Mirrors(s') <==> !(faults.auditWorks && faults.io.ReadBackFails? && WouldChange(cfg, s, call)))
  {
    match call {
      case Create(_, _, _, _) => CreateKeepsMirror(cfg, s, call, faults);
      case SetEnabled(id, enabled) =>
        RuntimeFindsWhatIsStored(s, id);
        FindByIdMeaning(s.rows, id);
        var row := FindById(s.rows, id);
        if row.Some? && faults.auditWorks && !faults.io.WriteFails? {
          RewriteMirrorsExactly(Audited(s, if enabled then "client_token_enabled" else "client_token_disabled", id),
                                row.value, row.value.(enabled := enabled), faults.io);
        }
      case UpdateScope(id, groups, channels) =>
        RuntimeFindsWhatIsStored(s, id);
        FindByIdMeaning(s.rows, id);
        var row := FindById(s.rows, id);
        if row.Some? && faults.auditWorks && !faults.io.WriteFails? && (groups.Some? || channels.Some?)
           && (channels.Some? ==> NormalizedChannels(cfg, channels.value).Ok?) {
          RewriteMirrorsExactly(Audited(s, "client_token_scope_updated", id), row.value,
                                Rescoped(row.value, groups, channels), faults.io);
        }
    }
  }

  /** The token a call is about. */
  function TargetId(cfg: Config, call: Call): string {
    match call
    case Create(name, _, _, _) => cfg.stableId(Trim(name))
    case SetEnabled(id, _) => id
    case UpdateScope(id, _, _) => id
  }

  /** What one call may do to table, runtime list and audit log. */
  ghost predicate ActsOn(s: State, s': State, r: Result<Token, TokenError>, id: string, faults: Faults) {
    && (s'.audits == s.audits
        || (|s'.audits| == |s.audits| + 1 && s'.audits[..|s.audits|] == s.audits
            && s'.audits[|s.audits|].tokenId == id))
    && (s'.rows != s.rows ==> s'.audits != s.audits)
    && (forall other :: other != id ==> FindById(s'.rows, other) == FindById(s.rows, other))
    && (r.Ok? ==> r.value.id == id && FindById(s'.rows, id) == Some(r.value) && s'.audits != s.audits)
    && (r.Err? ==> s'.runtime == s.runtime && (s'.rows == s.rows || faults.io.ReadBackFails?))
  }

  lemma RewriteActs(s: State, audited: State, updated: Token, faults: Faults)
    requires audited.rows == s.rows && audited.runtime == s.runtime
    requires |audited.audits| == |s.audits| + 1 && audited.audits[..|s.audits|] == s.audits
             && audited.audits[|s.audits|].tokenId == updated.id
    ensures var (s', r) := Rewritten(audited, updated, faults.io);
            ActsOn(s, s', r, updated.id, faults) && (r.Ok? ==> r.value == updated)
  {
    forall id { UpsertFinds(s.rows, updated, id); }
  }

  lemma CreateActs(cfg: Config, s: State, call: Call, faults: Faults)
    requires Mirrors(s) && call.Create?
    ensures var (s', r) := Created(cfg, s, call, faults); ActsOn(s, s', r, cfg.stableId(Trim(call.name)), faults)
  {
    var (s', r) := Created(cfg, s, call, faults);
    if r.Ok? {
      RuntimeFindsWhatIsStored(s, r.value.id);
      UpsertNewIsInsert(s.rows, r.value);
      forall id { UpsertFinds(s.rows, r.value, id); }
    }
  }

  lemma SetEnabledActs(s: State, id: string, enabled: bool, faults: Faults)
    ensures var (s', r) := EnabledSet(s, id, enabled, faults); ActsOn(s, s', r, id, faults)
  {
    FindByIdMeaning(s.rows, id);
    if FindById(s.rows, id).Some? {
      RewriteActs(s, Audited(s, if enabled then "client_token_enabled" else "client_token_disabled", id),
                  FindById(s.rows, id).value.(enabled := enabled), faults);
    }
  }

  lemma UpdateScopeActs(cfg: Config, s: State, call: Call, faults: Faults)
    requires call.UpdateScope?
    ensures var (s', r) := ScopeUpdated(cfg, s, call, faults); ActsOn(s, s', r, call.id, faults)
  {
    FindByIdMeaning(s.rows, call.id);
    if FindById(s.rows, call.id).Some? {
      RewriteActs(s, Audited(s, "client_token_scope_updated", call.id),
                  Rescoped(FindById(s.rows, call.id).value, call.newModelGroups, call.newChannels), faults);
    }
  }

  /**
   Every call acts on one token only: nothing changes in the table without an audit entry that names the token, no
   other row is touched, a success is what the table then holds, and a failure leaves the runtime list alone and the
   table too, unless the written row could not be read back.
   */
  lemma CallActsOnItsToken(cfg: Config, s: State, call: Call, faults: Faults)
    requires Mirrors(s)
    ensures var (s', r) := Apply(cfg, s, call, faults); ActsOn(s, s', r, TargetId(cfg, call), faults)
  {
    match call {
      case Create(_, _, _, _) => CreateActs(cfg, s, call, faults);
      case SetEnabled(id, enabled) => SetEnabledActs(s, id, enabled, faults);
      case UpdateScope(_, _, _) => UpdateScopeActs(cfg, s, call, faults);
    }
  }

  /**
   After any sequential run in which no read-back fails, whatever else fails, the runtime list is the sorted table.
   */
  lemma {:induction false} RunsKeepMirror(cfg: Config, s: State, calls: seq<(Call, Faults)>)
    requires Mirrors(s) && forall c <- calls :: !c.1.io.ReadBackFails?
    ensures Mirrors(Run(cfg, s, calls))
    decreases |calls|
  {
    if calls != [] {
      RunsKeepMirror(cfg, s, calls[..|calls| - 1]);
      CallKeepsMirrorExactly(cfg, Run(cfg, s, calls[..|calls| - 1]), calls[|calls| - 1].0, calls[|calls| - 1].1);
    }
  }

  /** In such a state a bearer token authorises exactly the one enabled stored row with its hash. */
  lemma AuthorizationReadsTheTable(cfg: Config, s: State, bearer: string)
    requires Mirrors(s)
    ensures forall t :: Authorized(s.runtime, cfg.hashToken(bearer)) == Some(t)
                        <==> t in s.rows && t.enabled && t.tokenHash == cfg.hashToken(bearer)
  {
    SortIsSorted(s.rows);
    AuthorizationIgnoresOrder(s.rows, s.runtime, cfg.hashToken(bearer));
  }

  // --- Bootstrap and the methods ----------------------------------------------------------------

  /** Inserting tokens one by one; a violated constraint rolls all of them back. */
  function InsertedAll(rows: seq<Token>, tokens: seq<Token>): Result<seq<Token>, TokenError> {
    if tokens == [] then Ok(rows)
    else
      var before, last := InsertedAll(rows, tokens[..|tokens| - 1]), tokens[|tokens| - 1];
      if before.Err? then before
      else if ViolatesUnique(before.value, last) then Err(Persistence)
      else Ok(before.value + [last])
  }

  lemma PrefixIsUnique(tokens: seq<Token>, n: nat)
    requires n <= |tokens| && Unique(tokens)
    ensures Unique(tokens[..n])
  {
  }

  lemma {:induction false} InsertedAllMeaning(tokens: seq<Token>)
    ensures InsertedAll([], tokens) == if Unique(tokens) then Ok(tokens) else Err(Persistence)
  {
    if tokens != [] {
      var init, last := tokens[..|tokens| - 1], tokens[|tokens| - 1];
      InsertedAllMeaning(init);
      assert init + [last] == tokens;
      if Unique(tokens) {
        PrefixIsUnique(tokens, |tokens| - 1);
      }
      if Unique(init) {
        InsertKeepsUnique(init, last);
      }
    }
  }

  /** `load_or_bootstrap`: fills an empty table with the configured tokens, then loads it in (name, id) order. */
  function Started(rows: seq<Token>, tokens: seq<Token>): Result<State, TokenError> {
    var table := if rows == [] then InsertedAll([], tokens) else Ok(rows);
    if table.Err? then Err(table.error) else Ok(State(table.value, Sort(table.value), []))
  }

  method LoadOrBootstrap(rows: seq<Token>, tokens: seq<Token>) returns (r: Result<State, TokenError>)
    requires Unique(rows)
    ensures r == Started(rows, tokens)
    ensures r.Ok? ==> Mirrors(r.value) && r.value.rows == if rows == [] then tokens else rows
    ensures r.Err? <==> rows == [] && !Unique(tokens)
  {
    var table := rows;
    if table == [] {
      InsertedAllMeaning(tokens);
      for i := 0 to |tokens|
        invariant InsertedAll([], tokens[..i]) == Ok(table)
      {
        assert tokens[..i + 1][..i] == tokens[..i];
        if ViolatesUnique(table, tokens[i]) {
          InsertedFailsEarly(tokens, i + 1);
          return Err(Persistence);
        }
        table := table + [tokens[i]];
      }
      assert tokens[..|tokens|] == tokens;
    }
    r := Ok(State(table, Sort(table), []));
  }

  lemma {:induction false} InsertedFailsEarly(tokens: seq<Token>, n: nat)
    requires n <= |tokens| && InsertedAll([], tokens[..n]).Err?
    ensures InsertedAll([], tokens) == InsertedAll([], tokens[..n])
  {
    if n < |tokens| {
      assert tokens[..|tokens| - 1][..n] == tokens[..n];
      InsertedFailsEarly(tokens[..|tokens| - 1], n);
    } else {
      assert tokens[..n] == tokens;
    }
  }

  lemma {:induction false} UpsertAt(tokens: seq<Token>, updated: Token, i: nat)
    requires i <= |tokens| && forall k :: 0 <= k < i ==> tokens[k].id != updated.id
    requires i < |tokens| ==> tokens[i].id == updated.id
    ensures Upsert(tokens, updated) == if i < |tokens| then tokens[i := updated] else tokens + [updated]
  {
    if i > 0 {
      UpsertAt(tokens[1..], updated, i - 1);
      assert tokens == [tokens[0]] + tokens[1..];
    }
  }

  // --- Lives of the service ---------------------------------------------------------------------

  /** The process starts with some configured tokens, or serves one call. */
  datatype Event = Start(configured: seq<Token>) | Serve(call: Call, faults: Faults)

  /** Any sequence of starts and calls over one table; a start that fails leaves the table alone. */
  function Lived(cfg: Config, events: seq<Event>): State {
    if events == [] then State([], [], [])
    else
      var s := Lived(cfg, events[..|events| - 1]);
      match events[|events| - 1]
      case Start(configured) =>
        var started := Started(s.rows, configured);
        if started.Ok? then started.value.(audits := s.audits) else s
      case Serve(call, faults) => Apply(cfg, s, call, faults).0
  }

  /** The id of a token is the stable id of its name, as the resolver and the create flow make it. */
  ghost predicate DerivedIds(cfg: Config, tokens: seq<Token>) {
    forall t <- tokens :: t.id == cfg.stableId(t.name)
  }

  ghost predicate ConfiguredIdsDerived(cfg: Config, events: seq<Event>) {
    forall e <- events :: e.Start? ==> DerivedIds(cfg, e.configured)
  }

  /** Table and runtime list have the same ids, names and hashes, even if flags and scopes have drifted apart. */
  ghost predicate KeysAgree(cfg: Config, s: State) {
    Unique(s.rows) && KeySet(s.runtime) == KeySet(s.rows) && DerivedIds(cfg, s.rows)
  }

  lemma InsertKeepsKeys(cfg: Config, s: State, token: Token)
    requires KeysAgree(cfg, s) && !ViolatesUnique(s.rows, token) && token.id == cfg.stableId(token.name)
    requires FindById(s.runtime, token.id).None?
    ensures KeysAgree(cfg, Mirrored(s, s.rows + [token], token))
  {
    FindByIdMeaning(s.runtime, token.id);
    InsertKeepsUnique(s.rows, token);
    KeySetOfConcat(s.rows, [token]);
    UpsertKeys(s.runtime, token);
    SortKeepsKeys(Upsert(s.runtime, token));
  }

  lemma CreateKeepsKeys(cfg: Config, s: State, call: Call, faults: Faults)
    requires KeysAgree(cfg, s) && call.Create?
    ensures KeysAgree(cfg, Created(cfg, s, call, faults).0)
  {
    var (s', r) := Created(cfg, s, call, faults);
    if r.Ok? {
      InsertKeepsKeys(cfg, Audited(s, "client_token_created", r.value.id), r.value);
    }
  }

  lemma KeyIsShared(a: seq<Token>, b: seq<Token>, t: Token) returns (u: Token)
    requires KeySet(a) == KeySet(b) && t in a
    ensures u in b && KeyOf(u) == KeyOf(t)
  {
    assert KeyOf(t) in KeySet(b);
    u :| u in b && KeyOf(u) == KeyOf(t);
  }

  lemma SameKeysSameIds(cfg: Config, a: seq<Token>, b: seq<Token>)
    requires KeySet(a) == KeySet(b) && DerivedIds(cfg, a)
    ensures DerivedIds(cfg, b)
  {
    forall t <- b ensures t.id == cfg.stableId(t.name) {
      var u := KeyIsShared(b, a, t);
    }
  }

  /** Any list with the stored keys keeps them when a stored token is overwritten under its own key. */
  lemma OverwriteKeepsKeys(rows: seq<Token>, list: seq<Token>, stored: Token, updated: Token)
    requires Unique(rows) && KeySet(list) == KeySet(rows) && stored in rows && KeyOf(updated) == KeyOf(stored)
    ensures KeySet(Upsert(list, updated)) == KeySet(rows)
  {
    forall t <- list | t.id == updated.id ensures KeyOf(t) == KeyOf(updated) {
      assert KeyOf(t) in KeySet(list);
      KeyIsStored(rows, stored, t);
    }
    UpsertKeys(list, updated);
    assert KeyOf(stored) in KeySet(rows);
  }

  lemma RewriteKeepsKeys(cfg: Config, s: State, stored: Token, updated: Token, io: Io)
    requires KeysAgree(cfg, s) && FindById(s.rows, updated.id) == Some(stored) && KeyOf(updated) == KeyOf(stored)
    ensures KeysAgree(cfg, Rewritten(s, updated, io).0)
  {
    FindByIdMeaning(s.rows, updated.id);
    UpdateKeepsUnique(s.rows, updated);
    OverwriteKeepsKeys(s.rows, s.rows, stored, updated);
    SameKeysSameIds(cfg, s.rows, Upsert(s.rows, updated));
    OverwriteKeepsKeys(s.rows, s.runtime, stored, updated);
    SortKeepsKeys(Upsert(s.runtime, updated));
  }

  lemma SetEnabledKeepsKeys(cfg: Config, s: State, id: string, enabled: bool, faults: Faults)
    requires KeysAgree(cfg, s)
    ensures KeysAgree(cfg, EnabledSet(s, id, enabled, faults).0)
  {
    var row := FindById(s.rows, id);
    FindByIdMeaning(s.rows, id);
    if row.Some? {
      RewriteKeepsKeys(cfg, Audited(s, if enabled then "client_token_enabled" else "client_token_disabled", id),
                       row.value, row.value.(enabled := enabled), faults.io);
    }
  }

  lemma UpdateScopeKeepsKeys(cfg: Config, s: State, call: Call, faults: Faults)
    requires KeysAgree(cfg, s) && call.UpdateScope?
    ensures KeysAgree(cfg, ScopeUpdated(cfg, s, call, faults).0)
  {
    var row := FindById(s.rows, call.id);
    FindByIdMeaning(s.rows, call.id);
    if row.Some? {
      RewriteKeepsKeys(cfg, Audited(s, "client_token_scope_updated", call.id), row.value,
                       Rescoped(row.value, call.newModelGroups, call.newChannels), faults.io);
    }
  }

  lemma CallKeepsKeys(cfg: Config, s: State, call: Call, faults: Faults)
    requires KeysAgree(cfg, s)
    ensures KeysAgree(cfg, Apply(cfg, s, call, faults).0)
  {
    match call {
      case Create(_, _, _, _) => CreateKeepsKeys(cfg, s, call, faults);
      case SetEnabled(id, enabled) => SetEnabledKeepsKeys(cfg, s, id, enabled, faults);
      case UpdateScope(_, _, _) => UpdateScopeKeepsKeys(cfg, s, call, faults);
    }
  }

  lemma StartKeepsKeys(cfg: Config, s: State, configured: seq<Token>)
    requires KeysAgree(cfg, s) && DerivedIds(cfg, configured) && Started(s.rows, configured).Ok?
    ensures KeysAgree(cfg, Started(s.rows, configured).value) && Mirrors(Started(s.rows, configured).value)
  {
    InsertedAllMeaning(configured);
    SortKeepsKeys(Started(s.rows, configured).value.rows);
  }

  /**
   After any life of the service, whatever failed in it, ids, names and hashes in the table are unique, every id is
   the one derived from its name, and the runtime list has exactly the stored keys.
   */
  lemma {:induction false} LivesKeepKeys(cfg: Config, events: seq<Event>)
    requires ConfiguredIdsDerived(cfg, events)
    ensures KeysAgree(cfg, Lived(cfg, events))
  {
    if events != [] {
      var init, s := events[..|events| - 1], Lived(cfg, events[..|events| - 1]);
      LivesKeepKeys(cfg, init);
      match events[|events| - 1] {
        case Start(configured) =>
          assert events[|events| - 1] in events;
          if Started(s.rows, configured).Ok? {
            StartKeepsKeys(cfg, s, configured);
          }
        case Serve(call, faults) => CallKeepsKeys(cfg, s, call, faults);
      }
    }
  }

  /** A restart mends a runtime list that has fallen behind, and it stays mended until a read-back fails again. */
  lemma RestartMends(cfg: Config, events: seq<Event>, configured: seq<Token>, calls: seq<(Call, Faults)>)
    requires ConfiguredIdsDerived(cfg, events) && DerivedIds(cfg, configured)
    requires Started(Lived(cfg, events).rows, configured).Ok? && forall c <- calls :: !c.1.io.ReadBackFails?
    ensures Mirrors(Run(cfg, Started(Lived(cfg, events).rows, configured).value, calls))
  {
    LivesKeepKeys(cfg, events);
    StartKeepsKeys(cfg, Lived(cfg, events), configured);
    RunsKeepMirror(cfg, Started(Lived(cfg, events).rows, configured).value, calls);
  }

  ghost predicate HashIn(tokens: seq<Token>, tokenHash: string) {
    exists t <- tokens :: t.tokenHash == tokenHash
  }

  ghost predicate IdIn(tokens: seq<Token>, id: string) {
    exists t <- tokens :: t.id == id
  }

  lemma KeysCarryOver(a: seq<Token>, b: seq<Token>, id: string, tokenHash: string)
    requires KeySet(a) == KeySet(b)
    ensures (IdIn(a, id) ==> IdIn(b, id)) && (HashIn(a, tokenHash) ==> HashIn(b, tokenHash))
  {
    if IdIn(a, id) {
      var t :| t in a && t.id == id;
      var u := KeyIsShared(a, b, t);
    }
    if HashIn(a, tokenHash) {
      var t :| t in a && t.tokenHash == tokenHash;
      var u := KeyIsShared(a, b, t);
    }
  }

  lemma HashKnownMeaning(tokens: seq<Token>, tokenHash: string)
    ensures HashKnown(tokens, tokenHash) <==> HashIn(tokens, tokenHash)
  {
  }

  lemma KeysAreFound(cfg: Config, s: State, id: string, tokenHash: string)
    requires KeysAgree(cfg, s)
    ensures FindById(s.runtime, id).Some? <==> IdIn(s.rows, id)
    ensures HashKnown(s.runtime, tokenHash) <==> HashIn(s.rows, tokenHash)
  {
    FindByIdMeaning(s.runtime, id);
    HashKnownMeaning(s.runtime, tokenHash);
    KeysCarryOver(s.rows, s.runtime, id, tokenHash);
    KeysCarryOver(s.runtime, s.rows, id, tokenHash);
  }

  /** What a create asks for, judged by the request and the table alone. */
  ghost predicate Creatable(cfg: Config, rows: seq<Token>, call: Call)
    requires call.Create?
  {
    && Trim(call.name) != "" && Trim(call.token) != ""
    && Elements(Keys(call.allowedChannels)) <= cfg.channels
    && !IdIn(rows, cfg.stableId(Trim(call.name))) && !HashIn(rows, cfg.hashToken(Trim(call.token)))
  }

  /**
   After any life of the service a create without faults succeeds exactly when name and token are present, the
   channels exist and neither derived id nor hash is stored; and it is audited exactly when it succeeds, so the audit
   log never names a token that was not created.
   */
  lemma AuditedCreateSucceeds(cfg: Config, events: seq<Event>, call: Call)
    requires ConfiguredIdsDerived(cfg, events) && call.Create?
    ensures var s := Lived(cfg, events);
            var (s', r) := Created(cfg, s, call, Faults(true, Works));
            && (r.Ok? <==> Creatable(cfg, s.rows, call))
            && (s'.audits != s.audits <==> r.Ok?)
  {
    var s := Lived(cfg, events);
    LivesKeepKeys(cfg, events);
    if Trim(call.name) != "" && Trim(call.token) != "" && NormalizedChannels(cfg, call.allowedChannels).Ok? {
      var token := NewToken(cfg, call, NormalizedChannels(cfg, call.allowedChannels).value);
      KeysAreFound(cfg, s, token.id, token.tokenHash);
      NoOtherConstraint(cfg, s.rows, token);
    }
  }

  /** With derived ids a taken name shows as a taken id. */
  lemma NoOtherConstraint(cfg: Config, rows: seq<Token>, token: Token)
    requires DerivedIds(cfg, rows) && token.id == cfg.stableId(token.name)
    ensures ViolatesUnique(rows, token) <==> IdIn(rows, token.id) || HashIn(rows, token.tokenHash)
  {
    forall i | 0 <= i < |rows| ensures rows[i] in rows && (rows[i].name == token.name ==> rows[i].id == token.id) {
      assert rows[i] in rows;
    }
  }

  // --- What authorises when the list has drifted ------------------------------------------------

  /** The token of an id as it last entered the runtime list: loaded at a start, or written by a successful call. */
  function LastMirrored(cfg: Config, events: seq<Event>, id: string): Option<Token> {
    if events == [] then None
    else
      var init := events[..|events| - 1];
      match events[|events| - 1]
      case Start(configured) =>
        var started := Started(Lived(cfg, init).rows, configured);
        if started.Ok? then FindById(started.value.rows, id) else LastMirrored(cfg, init, id)
      case Serve(call, faults) =>
        var r := Apply(cfg, Lived(cfg, init), call, faults).1;
        if r.Ok? && r.value.id == id then Some(r.value) else LastMirrored(cfg, init, id)
  }

  /** The token is new to the table, or it overwrites the stored one under its own key. */
  ghost predicate FitsTable(rows: seq<Token>, updated: Token) {
    !ViolatesUnique(rows, updated) || KeyOf(updated) in KeySet(rows)
  }

  lemma NewToOthers(rows: seq<Token>, list: seq<Token>, token: Token)
    requires KeySet(list) == KeySet(rows) && !ViolatesUnique(rows, token)
    ensures !ViolatesUnique(list, token)
  {
    forall i | 0 <= i < |list|
      ensures list[i].id != token.id && list[i].name != token.name && list[i].tokenHash != token.tokenHash
    {
      var t := KeyIsShared(list, rows, list[i]);
      var k :| 0 <= k < |rows| && rows[k] == t;
    }
  }

  lemma MirrorStaysUnique(rows: seq<Token>, list: seq<Token>, updated: Token)
    requires Unique(list) && KeySet(list) == KeySet(rows) && FitsTable(rows, updated)
    ensures Unique(Sort(Upsert(list, updated)))
  {
    FindByIdMeaning(list, updated.id);
    if !ViolatesUnique(rows, updated) {
      NewToOthers(rows, list, updated);
      assert forall t <- list :: t.id != updated.id;
      UpsertNewIsInsert(list, updated);
      InsertKeepsUnique(list, updated);
    } else {
      var u :| u in list && KeyOf(u) == KeyOf(updated);
      KeyIsStored(list, u, FindById(list, updated.id).value);
      UpdateKeepsUnique(list, updated);
    }
    SortIsSorted(Upsert(list, updated));
    UniqueOfPermutation(Upsert(list, updated), Sort(Upsert(list, updated)));
  }

  /** The list after mirroring finds the mirrored token under its id, and the others as before. */
  lemma MirrorFinds(rows: seq<Token>, list: seq<Token>, updated: Token, id: string)
    requires Unique(list) && KeySet(list) == KeySet(rows) && FitsTable(rows, updated)
    ensures FindById(Sort(Upsert(list, updated)), id) == if id == updated.id then Some(updated) else FindById(list, id)
  {
    MirrorStaysUnique(rows, list, updated);
    SortIsSorted(Upsert(list, updated));
    FindInPermutation(Sort(Upsert(list, updated)), Upsert(list, updated), id);
    UpsertFinds(list, updated, id);
  }

  /** A success mirrors a token that fits the table; a failure leaves the runtime list alone. */
  ghost predicate MirrorsResult(s: State, s': State, r: Result<Token, TokenError>) {
    if r.Ok? then FitsTable(s.rows, r.value) && s'.runtime == Sort(Upsert(s.runtime, r.value))
    else s'.runtime == s.runtime
  }

  lemma StoredKey(rows: seq<Token>, id: string)
    ensures FindById(rows, id).Some? ==> KeyOf(FindById(rows, id).value) in KeySet(rows)
  {
    FindByIdMeaning(rows, id);
  }

  lemma SetEnabledMirrors(s: State, id: string, enabled: bool, faults: Faults)
    ensures var (s', r) := EnabledSet(s, id, enabled, faults); MirrorsResult(s, s', r)
  {
    StoredKey(s.rows, id);
  }

  lemma UpdateScopeMirrors(cfg: Config, s: State, call: Call, faults: Faults)
    requires call.UpdateScope?
    ensures var (s', r) := ScopeUpdated(cfg, s, call, faults); MirrorsResult(s, s', r)
  {
    StoredKey(s.rows, call.id);
  }

  lemma CallMirrors(cfg: Config, s: State, call: Call, faults: Faults)
    ensures var (s', r) := Apply(cfg, s, call, faults); MirrorsResult(s, s', r)
  {
    match call {
      case Create(_, _, _, _) =>
      case SetEnabled(id, enabled) => SetEnabledMirrors(s, id, enabled, faults);
      case UpdateScope(_, _, _) => UpdateScopeMirrors(cfg, s, call, faults);
    }
  }

  lemma StartFinds(rows: seq<Token>, configured: seq<Token>, id: string)
    requires Unique(rows) && Started(rows, configured).Ok?
    ensures var s := Started(rows, configured).value;
            Unique(s.runtime) && FindById(s.runtime, id) == FindById(s.rows, id)
  {
    var s := Started(rows, configured).value;
    InsertedAllMeaning(configured);
    SortIsSorted(s.rows);
    UniqueOfPermutation(s.rows, s.runtime);
    FindInPermutation(s.rows, s.runtime, id);
  }

  /** After any life the runtime list holds every token as it was last mirrored. */
  lemma {:induction false} RuntimeIsLastMirrored(cfg: Config, events: seq<Event>, id: string)
    requires ConfiguredIdsDerived(cfg, events)
    ensures Unique(Lived(cfg, events).runtime)
    ensures FindById(Lived(cfg, events).runtime, id) == LastMirrored(cfg, events, id)
  {
    if events != [] {
      var init := events[..|events| - 1];
      var s := Lived(cfg, init);
      RuntimeIsLastMirrored(cfg, init, id);
      LivesKeepKeys(cfg, init);
      match events[|events| - 1] {
        case Start(configured) =>
          if Started(s.rows, configured).Ok? {
            StartFinds(s.rows, configured, id);
          }
        case Serve(call, faults) =>
          CallMirrors(cfg, s, call, faults);
          var r := Apply(cfg, s, call, faults).1;
          if r.Ok? {
            MirrorStaysUnique(s.rows, s.runtime, r.value);
            MirrorFinds(s.rows, s.runtime, r.value, id);
          }
      }
    }
  }

  lemma FoundExactly(tokens: seq<Token>, t: Token)
    requires Unique(tokens)
    ensures FindById(tokens, t.id) == Some(t) <==> t in tokens
  {
    FindByIdMeaning(tokens, t.id);
    UniqueMeansKeysDetermine(tokens);
  }

  /**
   After any life, whatever failed in it, a bearer token authorises exactly the token with its hash whose flag was set
   when it was last mirrored.
   */
  lemma AuthorizationReadsLastMirrored(cfg: Config, events: seq<Event>, bearer: string, t: Token)
    requires ConfiguredIdsDerived(cfg, events)
    ensures Authorized(Lived(cfg, events).runtime, cfg.hashToken(bearer)) == Some(t)
            <==> t.enabled && t.tokenHash == cfg.hashToken(bearer) && LastMirrored(cfg, events, t.id) == Some(t)
  {
    var runtime := Lived(cfg, events).runtime;
    RuntimeIsLastMirrored(cfg, events, t.id);
    FoundExactly(runtime, t);
    AuthorizationIgnoresOrder(runtime, runtime, cfg.hashToken(bearer));
  }

  /** A disable whose read-back fails is in the table, and the token still authorises. */
  lemma UnseenDisableStillAuthorises(cfg: Config, events: seq<Event>, bearer: string, t: Token)
    requires ConfiguredIdsDerived(cfg, events)
             && Authorized(Lived(cfg, events).runtime, cfg.hashToken(bearer)) == Some(t)
    ensures var s := Apply(cfg, Lived(cfg, events), SetEnabled(t.id, false), Faults(true, ReadBackFails)).0;
            && FindById(s.rows, t.id).Some? && !FindById(s.rows, t.id).value.enabled
            && Authorized(s.runtime, cfg.hashToken(bearer)) == Some(t)
  {
    var s := Lived(cfg, events);
    AuthorizationReadsLastMirrored(cfg, events, bearer, t);
    RuntimeIsLastMirrored(cfg, events, t.id);
    LivesKeepKeys(cfg, events);
    KeysAreFound(cfg, s, t.id, t.tokenHash);
    FindByIdMeaning(s.rows, t.id);
    UpsertFinds(s.rows, FindById(s.rows, t.id).value.(enabled := false), t.id);
  }

  class ClientTokenService {
    const cfg: Config
    var rows: seq<Token>
    var runtime: seq<Token>
    var audits: seq<AuditEntry>

    ghost function Contents(): State
      reads this
    {
      State(rows, runtime, audits)
    }

    constructor (cfg: Config, loaded: State)
      requires Mirrors(loaded)
      ensures this.cfg == cfg && Contents() == loaded
    {
      this.cfg, rows, runtime, audits := cfg, loaded.rows, loaded.runtime, loaded.audits;
    }

    method ReplaceRuntimeClientToken(updated: Token)
      modifies this`runtime
      ensures runtime == Sort(Upsert(old(runtime), updated))
    {
      var i := 0;
      while i < |runtime| && runtime[i].id != updated.id
        invariant i <= |runtime| && runtime == old(runtime)
        invariant forall k :: 0 <= k < i ==> runtime[k].id != updated.id
      {
        i := i + 1;
      }
      UpsertAt(runtime, updated, i);
      if i < |runtime| {
        runtime := runtime[i := updated];
      } else {
        runtime := runtime + [updated];
      }
      runtime := Sort(runtime);
    }

    method CreateClientToken(name: string, token: string, groups: seq<string>, channels: seq<string>, faults: Faults)
      returns (r: Result<Token, TokenError>)
      modifies this
      ensures (Contents(), r) == Apply(cfg, old(Contents()), Create(name, token, groups, channels), faults)
    {
      if Trim(name) == "" || Trim(token) == "" {
        return Err(BadRequest);
      }
      var allowedModelGroups := NormalizeUniqueNonEmpty(groups);
      var allowedChannels := NormalizeAllowedChannels(cfg, channels);
      if allowedChannels.Err? {
        return Err(allowedChannels.error);
      }
      var created := Token(cfg.stableId(Trim(name)), Trim(name), cfg.hashToken(Trim(token)), true,
                           allowedModelGroups, allowedChannels.value);
      if FindById(runtime, created.id).Some? || HashKnown(runtime, created.tokenHash) {
        return Err(Conflict);
      }
      if !faults.auditWorks {
        return Err(EventAppendFailed);
      }
      audits := audits + [AuditEntry("client_token_created", created.id)];
      if faults.io.WriteFails? {
        return Err(Persistence);
      }
      if ViolatesUnique(rows, created) {
        return Err(Duplicate);
      }
      rows := rows + [created];
      ReplaceRuntimeClientToken(created);
      r := Ok(created);
    }

    method SetClientTokenEnabled(id: string, enabled: bool, faults: Faults) returns (r: Result<Token, TokenError>)
      modifies this
      ensures (Contents(), r) == Apply(cfg, old(Contents()), SetEnabled(id, enabled), faults)
    {
      if FindById(runtime, id).None? {
        return Err(NotFound);
      }
      if !faults.auditWorks {
        return Err(EventAppendFailed);
      }
      audits := audits + [AuditEntry(if enabled then "client_token_enabled" else "client_token_disabled", id)];
      if faults.io.WriteFails? {
        return Err(Persistence);
      }
      var row := FindById(rows, id);
      if row.None? {
        return Err(NotFound);
      }
      var updated := row.value.(enabled := enabled);
      rows := Upsert(rows, updated);
      if faults.io.ReadBackFails? {
        return Err(Persistence);
      }
      ReplaceRuntimeClientToken(updated);
      r := Ok(updated);
    }

    method UpdateClientTokenScope(id: string, groups: Option<seq<string>>, channels: Option<seq<string>>,
                                  faults: Faults)
      returns (r: Result<Token, TokenError>)
      modifies this
      ensures (Contents(), r) == Apply(cfg, old(Contents()), UpdateScope(id, groups, channels), faults)
    {
      if groups.None? && channels.None? {
        return Err(BadRequest);
      }
      var newGroups: Option<seq<string>>, newChannels: Option<seq<string>> := None, None;
      if groups.Some? {
        var normalized := NormalizeUniqueNonEmpty(groups.value);
        newGroups := Some(normalized);
      }
      if channels.Some? {
        var normalized := NormalizeAllowedChannels(cfg, channels.value);
        if normalized.Err? {
          return Err(normalized.error);
        }
        newChannels := Some(normalized.value);
      }
      if FindById(runtime, id).None? {
        return Err(NotFound);
      }
      if !faults.auditWorks {
        return Err(EventAppendFailed);
      }
      audits := audits + [AuditEntry("client_token_scope_updated", id)];
      var row := FindById(rows, id);
      if faults.io.WriteFails? {
        return Err(Persistence);
      }
      if row.None? {
        return Err(NotFound);
      }
      var updated := row.value;
      if newGroups.Some? {
        updated := updated.(allowedModelGroups := newGroups.value);
      }
      if newChannels.Some? {
        updated := updated.(allowedChannels := newChannels.value);
      }
      rows := Upsert(rows, updated);
      if faults.io.ReadBackFails? {
        return Err(Persistence);
      }
      ReplaceRuntimeClientToken(updated);
      r := Ok(updated);
    }
  }
}
