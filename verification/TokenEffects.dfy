/** What each management call stores and answers, said of the request and the table alone. */
module TokenEffects {
  import opened Outcomes
  import opened Strings
  import opened FirstOccurrences
  import opened ClientTokens
  import opened TokenService

  /**
   The list a scope holds after a request: first occurrences of the trimmed, non-empty values, or what it held before.
   */
  function ScopeAfter(requested: Option<seq<string>>, before: seq<string>): seq<string> {
    if requested.Some? then Firsts(Keys(requested.value), {}) else before
  }

  ghost predicate ChannelsExist(cfg: Config, channels: seq<string>) {
    forall key <- Keys(channels) :: key in cfg.channels
  }

  /** The call answers the token it has stored, and has written one audit entry of this kind about it. */
  ghost predicate Stores(s: State, s': State, r: Result<Token, TokenError>, kind: string) {
    && r.Ok? && FindById(s'.rows, r.value.id) == Some(r.value)
    && s'.audits == s.audits + [AuditEntry(kind, r.value.id)]
    && s'.runtime == Sort(Upsert(s.runtime, r.value))
  }

  /** The audit entry has been written and nothing else. */
  ghost predicate OnlyAudited(s: State, s': State, kind: string, id: string) {
    s'.rows == s.rows && s'.runtime == s.runtime && s'.audits == s.audits + [AuditEntry(kind, id)]
  }

  /** The row has been written but not mirrored. */
  ghost predicate Unmirrored(s: State, s': State, kind: string, id: string) {
    FindById(s'.rows, id).Some? && s'.runtime == s.runtime && s'.audits == s.audits + [AuditEntry(kind, id)]
  }

  // --- Create -----------------------------------------------------------------------------------

  /** A created token carries the trimmed name, the derived id and hash, the normalised scopes, and is enabled. */
  lemma CreateStores(cfg: Config, s: State, name: string, token: string, groups: seq<string>, channels: seq<string>,
                     faults: Faults)
    ensures var (s', r) := Apply(cfg, s, Create(name, token, groups, channels), faults);
            r.Ok? ==>
              && Stores(s, s', r, "client_token_created")
              && r.value.name == Trim(name) && r.value.id == cfg.stableId(Trim(name))
              && r.value.tokenHash == cfg.hashToken(Trim(token)) && r.value.enabled
              && r.value.allowedModelGroups == Firsts(Keys(groups), {})
              && r.value.allowedChannels == Firsts(Keys(channels), {})
              && s'.rows == s.rows + [r.value]
  {
    var (s', r) := Apply(cfg, s, Create(name, token, groups, channels), faults);
    if r.Ok? {
      FindByIdMeaning(s.rows, r.value.id);
      assert forall t <- s.rows :: t.id != r.value.id;
      UpsertNewIsInsert(s.rows, r.value);
      UpsertFinds(s.rows, r.value, r.value.id);
    }
  }

  /** Why a create fails, in the order of the checks; it succeeds exactly when none of these holds. */
  lemma CreateFailsExactly(cfg: Config, s: State, name: string, token: string, groups: seq<string>,
                           channels: seq<string>, faults: Faults)
    ensures var (s', r) := Apply(cfg, s, Create(name, token, groups, channels), faults);
            var id, tokenHash := cfg.stableId(Trim(name)), cfg.hashToken(Trim(token));
            if Trim(name) == "" || Trim(token) == "" then s' == s && r == Err(BadRequest)
            else if !ChannelsExist(cfg, channels) then s' == s && r == Err(UnknownChannel)
            else if IdIn(s.runtime, id) || HashIn(s.runtime, tokenHash) then s' == s && r == Err(Conflict)
            else if !faults.auditWorks then s' == s && r == Err(EventAppendFailed)
            else if faults.io.WriteFails? then r == Err(Persistence) && OnlyAudited(s, s', "client_token_created", id)
            else if IdIn(s.rows, id) || NameIn(s.rows, Trim(name)) || HashIn(s.rows, tokenHash) then
              r == Err(Duplicate) && OnlyAudited(s, s', "client_token_created", id)
            else r.Ok?
  {
    ChannelsExactly(cfg, channels);
    FindByIdMeaning(s.runtime, cfg.stableId(Trim(name)));
    HashKnownMeaning(s.runtime, cfg.hashToken(Trim(token)));
    var created := Token(cfg.stableId(Trim(name)), Trim(name), cfg.hashToken(Trim(token)), true, [], []);
    ViolationExactly(s.rows, created);
  }

  ghost predicate NameIn(tokens: seq<Token>, name: string) {
    exists t <- tokens :: t.name == name
  }

  lemma ViolationExactly(rows: seq<Token>, t: Token)
    ensures ViolatesUnique(rows, t) <==> IdIn(rows, t.id) || NameIn(rows, t.name) || HashIn(rows, t.tokenHash)
  {
    forall i | 0 <= i < |rows| ensures rows[i] in rows {
    }
  }

  lemma ChannelsExactly(cfg: Config, channels: seq<string>)
    ensures NormalizedChannels(cfg, channels).Ok? <==> ChannelsExist(cfg, channels)
    ensures NormalizedChannels(cfg, channels).Ok? ==>
              NormalizedChannels(cfg, channels).value == Firsts(Keys(channels), {})
  {
    assert forall key :: key in Elements(Keys(channels)) <==> key in Keys(channels);
  }

  // --- Enable and disable -----------------------------------------------------------------------

  /** Nothing but the named columns of the stored token changes. */
  ghost predicate KeepsIdentity(before: Token, after: Token) {
    after.id == before.id && after.name == before.name && after.tokenHash == before.tokenHash
  }

  /**
   Enabling or disabling succeeds exactly when the token is known to list and table and nothing fails; then only the
   flag changes, to what was asked.
   */
  lemma SetEnabledStores(cfg: Config, s: State, id: string, enabled: bool, faults: Faults)
    ensures var (s', r) := Apply(cfg, s, SetEnabled(id, enabled), faults);
            var stored := FindById(s.rows, id);
            && (r.Ok? <==> IdIn(s.runtime, id) && stored.Some? && faults.auditWorks && faults.io.Works?)
            && (r.Ok? ==>
                  && Stores(s, s', r, if enabled then "client_token_enabled" else "client_token_disabled")
                  && KeepsIdentity(stored.value, r.value) && r.value.enabled == enabled
                  && r.value.allowedModelGroups == stored.value.allowedModelGroups
                  && r.value.allowedChannels == stored.value.allowedChannels)
  {
    FindByIdMeaning(s.runtime, id);
    FindByIdMeaning(s.rows, id);
    if FindById(s.rows, id).Some? {
      UpsertFinds(s.rows, FindById(s.rows, id).value.(enabled := enabled), id);
    }
  }

  /** Why it fails: an unknown token, the audit log, or the store. */
  lemma SetEnabledFailsExactly(cfg: Config, s: State, id: string, enabled: bool, faults: Faults)
    ensures var (s', r) := Apply(cfg, s, SetEnabled(id, enabled), faults);
            var kind := if enabled then "client_token_enabled" else "client_token_disabled";
            if !IdIn(s.runtime, id) then s' == s && r == Err(NotFound)
            else if !faults.auditWorks then s' == s && r == Err(EventAppendFailed)
            else if faults.io.WriteFails? then r == Err(Persistence) && OnlyAudited(s, s', kind, id)
            else if !IdIn(s.rows, id) then r == Err(NotFound) && OnlyAudited(s, s', kind, id)
            else if faults.io.ReadBackFails? then r == Err(Persistence) && Unmirrored(s, s', kind, id)
            else r.Ok?
  {
    FindByIdMeaning(s.runtime, id);
    FindByIdMeaning(s.rows, id);
    if FindById(s.rows, id).Some? {
      UpsertFinds(s.rows, FindById(s.rows, id).value.(enabled := enabled), id);
    }
  }

  // --- Scope updates ----------------------------------------------------------------------------

  /**
   A scope update succeeds exactly when it gives a list, its channels exist, the token is known to list and table, and
   nothing fails. Then each list given is normalised and stored, each list not given is kept, and so is all the rest.
   */
  lemma ScopeUpdateStores(cfg: Config, s: State, id: string, groups: Option<seq<string>>, channels: Option<seq<string>>,
                          faults: Faults)
    ensures var (s', r) := Apply(cfg, s, UpdateScope(id, groups, channels), faults);
            var stored := FindById(s.rows, id);
            && (r.Ok? <==> && (groups.Some? || channels.Some?)
                           && (channels.Some? ==> ChannelsExist(cfg, channels.value))
                           && IdIn(s.runtime, id) && stored.Some? && faults.auditWorks && faults.io.Works?)
            && (r.Ok? ==>
                  && Stores(s, s', r, "client_token_scope_updated")
                  && KeepsIdentity(stored.value, r.value) && r.value.enabled == stored.value.enabled
                  && r.value.allowedModelGroups == ScopeAfter(groups, stored.value.allowedModelGroups)
                  && r.value.allowedChannels == ScopeAfter(channels, stored.value.allowedChannels))
  {
    FindByIdMeaning(s.runtime, id);
    FindByIdMeaning(s.rows, id);
    if channels.Some? {
      ChannelsExactly(cfg, channels.value);
    }
    var (s', r) := Apply(cfg, s, UpdateScope(id, groups, channels), faults);
    if r.Ok? {
      UpsertFinds(s.rows, r.value, id);
    }
  }

  /** Why it fails: nothing asked, an unknown channel or token, the audit log, or the store. */
  lemma ScopeUpdateFailsExactly(cfg: Config, s: State, id: string, groups: Option<seq<string>>,
                                channels: Option<seq<string>>, faults: Faults)
    ensures var (s', r) := Apply(cfg, s, UpdateScope(id, groups, channels), faults);
            if groups.None? && channels.None? then s' == s && r == Err(BadRequest)
            else if channels.Some? && !ChannelsExist(cfg, channels.value) then s' == s && r == Err(UnknownChannel)
            else if !IdIn(s.runtime, id) then s' == s && r == Err(NotFound)
            else if !faults.auditWorks then s' == s && r == Err(EventAppendFailed)
            else if faults.io.WriteFails? then
              r == Err(Persistence) && OnlyAudited(s, s', "client_token_scope_updated", id)
            else if !IdIn(s.rows, id) then r == Err(NotFound) && OnlyAudited(s, s', "client_token_scope_updated", id)
            else if faults.io.ReadBackFails? then
              r == Err(Persistence) && Unmirrored(s, s', "client_token_scope_updated", id)
            else r.Ok?
  {
    FindByIdMeaning(s.runtime, id);
    FindByIdMeaning(s.rows, id);
    if channels.Some? {
      ChannelsExactly(cfg, channels.value);
    }
    if FindById(s.rows, id).Some? {
      UpsertFinds(s.rows, Rescoped(FindById(s.rows, id).value, groups, channels), id);
    }
  }

  // --- Across calls -----------------------------------------------------------------------------

  /** Disabling and enabling again gives back the stored token as it was, if it was enabled. */
  lemma DisableThenEnable(cfg: Config, s: State, id: string)
    requires Mirrors(s) && FindById(s.rows, id).Some? && FindById(s.rows, id).value.enabled
    ensures var s1 := Apply(cfg, s, SetEnabled(id, false), Faults(true, Works)).0;
            var (s2, r) := Apply(cfg, s1, SetEnabled(id, true), Faults(true, Works));
            r == Ok(FindById(s.rows, id).value) && FindById(s2.rows, id) == FindById(s.rows, id)
  {
    var fine := Faults(true, Works);
    var s1 := Apply(cfg, s, SetEnabled(id, false), fine).0;
    FindByIdMeaning(s.rows, id);
    RuntimeFindsWhatIsStored(s, id);
    FindByIdMeaning(s.runtime, id);
    SetEnabledStores(cfg, s, id, false, fine);
    CallKeepsMirrorExactly(cfg, s, SetEnabled(id, false), fine);
    RuntimeFindsWhatIsStored(s1, id);
    FindByIdMeaning(s1.runtime, id);
    SetEnabledStores(cfg, s1, id, true, fine);
  }

  /** The audit trail only grows, through restarts too, and by at most one entry a call. */
  lemma {:induction false} AuditsOnlyGrow(cfg: Config, events: seq<Event>, n: nat)
    requires n <= |events|
    ensures Lived(cfg, events[..n]).audits <= Lived(cfg, events).audits
    ensures |Lived(cfg, events).audits| <= |Lived(cfg, events[..n]).audits| + (|events| - n)
    ensures n < |events| && events[n].Start? ==> Lived(cfg, events[..n + 1]).audits == Lived(cfg, events[..n]).audits
  {
    if n == |events| {
      assert events[..n] == events;
    } else {
      var init := events[..|events| - 1];
      AuditsOnlyGrow(cfg, init, n);
      assert init[..n] == events[..n];
      assert events[..n + 1][..n] == events[..n];
      StepAudits(cfg, events);
    }
  }

  lemma StepAudits(cfg: Config, events: seq<Event>)
    requires events != []
    ensures Extends(Lived(cfg, events[..|events| - 1]).audits, Lived(cfg, events).audits)
  {
    var s := Lived(cfg, events[..|events| - 1]);
    match events[|events| - 1] {
      case Start(_) =>
      case Serve(call, faults) => CallAudits(cfg, s, call, faults);
    }
  }

  /** From one audit trail to the next. */
  ghost predicate Extends(before: seq<AuditEntry>, after: seq<AuditEntry>) {
    before <= after && |after| <= |before| + 1
  }

  lemma CallAudits(cfg: Config, s: State, call: Call, faults: Faults)
    ensures Extends(s.audits, Apply(cfg, s, call, faults).0.audits)
  {
    match call {
      case Create(_, _, _, _) => assert Extends(s.audits, Created(cfg, s, call, faults).0.audits);
      case SetEnabled(id, enabled) => assert Extends(s.audits, EnabledSet(s, id, enabled, faults).0.audits);
      case UpdateScope(_, _, _) => assert Extends(s.audits, ScopeUpdated(cfg, s, call, faults).0.audits);
    }
  }
}
