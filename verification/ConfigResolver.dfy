/**
 The resolver loops of `src/config.rs` for client tokens, pools, model routes and model groups. Hash maps are lists of
 entries in an arbitrary order.
 */
module ConfigResolver {
  import opened Outcomes
  import opened Strings
  import opened FirstOccurrences

  datatype ProviderKind = OpenAiCompatible | GenericHttp
  datatype Pool = Pool(configuredEnabled: bool, accountEnabled: bool, providerKind: ProviderKind)
  datatype TokenConfig = TokenConfig(
    name: string, token: string, enabled: bool, allowedModelGroups: seq<string>, allowedChannels: seq<string>)
  datatype TargetConfig = TargetConfig(
    channel: string, upstreamModel: Option<string>, priority: nat, weight: nat, enabled: bool)
  datatype RouteConfig = RouteConfig(strategy: Option<string>, targets: seq<TargetConfig>)

  /** `credentialStore` says whether a store path is configured. */
  datatype Document = Document(
    credentialStore: bool, clientTokens: seq<TokenConfig>, pools: seq<(string, Pool)>, defaultPool: Option<string>,
    modelRoutes: map<string, RouteConfig>, modelGroups: seq<(string, seq<string>)>)

  datatype ClientToken = ClientToken(
    name: string, tokenHash: string, enabled: bool, allowedModelGroups: seq<string>, allowedChannels: seq<string>)
  datatype RouteTarget = RouteTarget(
    channelId: string, providerKind: ProviderKind, upstreamModel: Option<string>,
    priority: nat, weight: nat, enabled: bool)
  datatype ResolvedConfig = ResolvedConfig(
    clientTokens: seq<ClientToken>, pools: map<string, Pool>, defaultPool: Option<string>,
    modelRoutes: map<string, seq<RouteTarget>>, modelGroups: map<string, seq<string>>)

  datatype ResolveError =
    | NoClientTokens | EmptyToken | EmptyTokenName | DuplicateTokenName | DuplicateTokenSecret | EmptyId | DuplicateId
    | UnknownChannel | UnknownStrategy | NoTargets | NoModels | UnknownModel | UnknownDefaultPool

  // --- Names ------------------------------------------------------------------------------------

  function Trims(values: seq<string>): seq<string> {
    seq(|values|, i requires 0 <= i < |values| => Trim(values[i]))
  }

  /** The trimmed keys of a table, in its iteration order. */
  function Ids<T>(entries: seq<(string, T)>): seq<string> {
    seq(|entries|, i requires 0 <= i < |entries| => Trim(entries[i].0))
  }

  ghost predicate AllKnown(names: seq<string>, known: set<string>) {
    forall v <- names :: v != "" && v in known
  }

  ghost predicate AllPresent(names: seq<string>) {
    forall v <- names :: v != ""
  }

  /** What a loop that inserts names into a set learns from one insertion. */
  lemma InsertName(names: seq<string>, i: nat)
    requires i < |names| && Distinct(names[..i])
    ensures Elements(names[..i + 1]) == Elements(names[..i]) + {names[i]}
    ensures if names[i] in Elements(names[..i]) then !Distinct(names) else Distinct(names[..i + 1])
  {
    assert names[..i + 1] == names[..i] + [names[i]];
    if names[i] in Elements(names[..i]) {
      var k :| 0 <= k < i && names[..i][k] == names[i];
      assert names[k] == names[i];
    } else {
      DistinctSnoc(names[..i], names[i]);
    }
  }

  /** The error of the first name that is empty or unknown. */
  ghost predicate NamesFail(values: seq<string>, known: set<string>, missing: ResolveError, error: ResolveError) {
    exists i :: (
      && 0 <= i < |values| && AllKnown(Trims(values)[..i], known)
      && if Trim(values[i]) == "" then error == EmptyId else Trim(values[i]) !in known && error == missing)
  }

  lemma NameFailsHere(values: seq<string>, i: nat, known: set<string>, missing: ResolveError)
    requires i < |values| && AllKnown(Trims(values)[..i], known)
    ensures Trim(values[i]) == "" ==> NamesFail(values, known, missing, EmptyId)
    ensures Trim(values[i]) != "" && Trim(values[i]) !in known ==> NamesFail(values, known, missing, missing)
  {
  }

  /** Trims and deduplicates a list whose every entry must be a known, non-empty name. */
  method ResolveNames(values: seq<string>, known: set<string>, missing: ResolveError)
    returns (r: Result<seq<string>, ResolveError>)
    ensures r.Ok? <==> AllKnown(Trims(values), known)
    ensures r.Ok? ==> r.value == Firsts(Trims(values), {})
    ensures r.Err? ==> NamesFail(values, known, missing, r.error)
  {
    ghost var all := Trims(values);
    var names: seq<string> := [];
    var seen: set<string> := {};
    for i := 0 to |values|
      invariant names == Firsts(all[..i], {}) && seen == Elements(all[..i])
      invariant AllKnown(all[..i], known)
    {
      var name := Trim(values[i]);
      assert all[i] == name && name in all;
      assert all[..i + 1] == all[..i] + [name] && all[..i + 1][..i] == all[..i];
      NameFailsHere(values, i, known, missing);
      if name == "" {
        return Err(EmptyId);
      }
      if name !in known {
        return Err(missing);
      }
      if name !in seen {
        seen := seen + {name};
        names := names + [name];
      }
    }
    assert all[..|values|] == all;
    r := Ok(names);
  }

  /** A resolved scope is empty only if the configured one was, has no repeats, and stays within the known names. */
  lemma ResolvedScope(values: seq<string>, known: set<string>)
    requires AllKnown(Trims(values), known)
    ensures var scope := Firsts(Trims(values), {});
            Distinct(scope) && Elements(scope) <= known && Elements(scope) == Elements(Trims(values))
            && (scope == [] <==> values == [])
  {
    FirstsElements(Trims(values), {});
    FirstsAreDistinct(Trims(values), {});
    if values != [] {
      assert Trims(values)[0] in Elements(Trims(values));
    }
  }

  // --- Client tokens ----------------------------------------------------------------------------

  function TokenNames(tokens: seq<TokenConfig>): seq<string> {
    seq(|tokens|, i requires 0 <= i < |tokens| => Trim(tokens[i].name))
  }

  function TokenHashes(tokens: seq<TokenConfig>, hash: string -> string): seq<string> {
    seq(|tokens|, i requires 0 <= i < |tokens| => hash(Trim(tokens[i].token)))
  }

  ghost predicate TokensAccepted(tokens: seq<TokenConfig>, hash: string -> string) {
    && (forall t <- tokens :: Trim(t.token) != "" && Trim(t.name) != "")
    && Distinct(TokenNames(tokens)) && Distinct(TokenHashes(tokens, hash))
  }

  function Unscoped(t: TokenConfig, hash: string -> string): ClientToken {
    ClientToken(Trim(t.name), hash(Trim(t.token)), t.enabled, t.allowedModelGroups, t.allowedChannels)
  }

  /** The first n tokens are accepted, and these are their names and hashes. */
  ghost predicate FirstAccepted(tokens: seq<TokenConfig>, hash: string -> string, n: nat, names: set<string>,
                                hashes: set<string>)
    requires n <= |tokens|
  {
    && (forall k :: 0 <= k < n ==> Trim(tokens[k].token) != "" && Trim(tokens[k].name) != "")
    && Distinct(TokenNames(tokens)[..n]) && names == Elements(TokenNames(tokens)[..n])
    && Distinct(TokenHashes(tokens, hash)[..n]) && hashes == Elements(TokenHashes(tokens, hash)[..n])
  }

  lemma AcceptOne(tokens: seq<TokenConfig>, hash: string -> string, n: nat, names: set<string>, hashes: set<string>)
    requires n < |tokens| && FirstAccepted(tokens, hash, n, names, hashes)
    ensures var name, token := Trim(tokens[n].name), Trim(tokens[n].token);
            if token != "" && name != "" && name !in names && hash(token) !in hashes
            then FirstAccepted(tokens, hash, n + 1, names + {name}, hashes + {hash(token)})
            else !TokensAccepted(tokens, hash)
  {
    InsertName(TokenNames(tokens), n);
    InsertName(TokenHashes(tokens, hash), n);
    assert tokens[n] in tokens;
  }

  lemma AcceptAll(tokens: seq<TokenConfig>, hash: string -> string, names: set<string>, hashes: set<string>)
    requires FirstAccepted(tokens, hash, |tokens|, names, hashes)
    ensures TokensAccepted(tokens, hash)
  {
    assert TokenNames(tokens)[..|tokens|] == TokenNames(tokens);
    assert TokenHashes(tokens, hash)[..|tokens|] == TokenHashes(tokens, hash);
  }

  ghost predicate Unscopes(resolved: seq<ClientToken>, tokens: seq<TokenConfig>, n: nat, hash: string -> string)
    requires n <= |tokens|
  {
    |resolved| == n && forall k :: 0 <= k < n ==> resolved[k] == Unscoped(tokens[k], hash)
  }

  lemma UnscopeOne(resolved: seq<ClientToken>, tokens: seq<TokenConfig>, n: nat, hash: string -> string)
    requires n < |tokens| && Unscopes(resolved, tokens, n, hash)
    ensures Unscopes(resolved + [Unscoped(tokens[n], hash)], tokens, n + 1, hash)
  {
  }

  /** What is wrong with a token, given those before it. */
  ghost function TokenFault(tokens: seq<TokenConfig>, hash: string -> string, i: nat): Option<ResolveError>
    requires i < |tokens|
  {
    var name, token := Trim(tokens[i].name), Trim(tokens[i].token);
    if token == "" then Some(EmptyToken)
    else if name == "" then Some(EmptyTokenName)
    else if exists k :: 0 <= k < i && Trim(tokens[k].name) == name then Some(DuplicateTokenName)
    else if exists k :: 0 <= k < i && hash(Trim(tokens[k].token)) == hash(token) then Some(DuplicateTokenSecret)
    else None
  }

  /** The error is that of the first token something is wrong with. */
  ghost predicate TokensFail(tokens: seq<TokenConfig>, hash: string -> string, error: ResolveError) {
    exists i :: 0 <= i < |tokens| && TokensAccepted(tokens[..i], hash) && TokenFault(tokens, hash, i) == Some(error)
  }

  lemma AcceptedSoFar(tokens: seq<TokenConfig>, hash: string -> string, n: nat, names: set<string>, hashes: set<string>)
    requires n < |tokens| && FirstAccepted(tokens, hash, n, names, hashes)
    ensures TokensAccepted(tokens[..n], hash)
    ensures Trim(tokens[n].name) in names <==> exists k :: 0 <= k < n && Trim(tokens[k].name) == Trim(tokens[n].name)
    ensures hash(Trim(tokens[n].token)) in hashes
            <==> exists k :: 0 <= k < n && hash(Trim(tokens[k].token)) == hash(Trim(tokens[n].token))
  {
    assert TokenNames(tokens[..n]) == TokenNames(tokens)[..n];
    assert TokenHashes(tokens[..n], hash) == TokenHashes(tokens, hash)[..n];
    forall k | 0 <= k < n
      ensures TokenNames(tokens)[..n][k] == Trim(tokens[k].name)
              && TokenHashes(tokens, hash)[..n][k] == hash(Trim(tokens[k].token))
    {
    }
  }

  lemma FailsHere(tokens: seq<TokenConfig>, hash: string -> string, n: nat, names: set<string>, hashes: set<string>)
    requires n < |tokens| && FirstAccepted(tokens, hash, n, names, hashes)
    ensures var name, token := Trim(tokens[n].name), Trim(tokens[n].token);
            if token == "" then TokensFail(tokens, hash, EmptyToken)
            else if name == "" then TokensFail(tokens, hash, EmptyTokenName)
            else if name in names then TokensFail(tokens, hash, DuplicateTokenName)
            else if hash(token) in hashes then TokensFail(tokens, hash, DuplicateTokenSecret)
            else true
  {
    AcceptedSoFar(tokens, hash, n, names, hashes);
    var fault := TokenFault(tokens, hash, n);
    assert fault.Some? ==> TokensFail(tokens, hash, fault.value);
  }

  /** The token loop: names and secrets must be present and pairwise distinct. */
  method ResolveClientTokens(tokens: seq<TokenConfig>, hash: string -> string)
    returns (r: Result<seq<ClientToken>, ResolveError>)
    ensures r.Ok? <==> TokensAccepted(tokens, hash)
    ensures r.Ok? ==> |r.value| == |tokens| && forall i :: 0 <= i < |tokens| ==> r.value[i] == Unscoped(tokens[i], hash)
    ensures r.Err? ==> TokensFail(tokens, hash, r.error)
  {
    var resolved: seq<ClientToken> := [];
    var names: set<string>, hashes: set<string> := {}, {};
    for i := 0 to |tokens|
      invariant FirstAccepted(tokens, hash, i, names, hashes)
      invariant Unscopes(resolved, tokens, i, hash)
    {
      var name, token := Trim(tokens[i].name), Trim(tokens[i].token);
      AcceptOne(tokens, hash, i, names, hashes);
      FailsHere(tokens, hash, i, names, hashes);
      if token == "" {
        return Err(EmptyToken);
      }
      if name == "" {
        return Err(EmptyTokenName);
      }
      if name in names {
        return Err(DuplicateTokenName);
      }
      if hash(token) in hashes {
        return Err(DuplicateTokenSecret);
      }
      names, hashes := names + {name}, hashes + {hash(token)};
      UnscopeOne(resolved, tokens, i, hash);
      resolved := resolved + [ClientToken(name, hash(token), tokens[i].enabled, tokens[i].allowedModelGroups,
                                          tokens[i].allowedChannels)];
    }
    AcceptAll(tokens, hash, names, hashes);
    r := Ok(resolved);
  }

  // --- Route targets ----------------------------------------------------------------------------

  function InsertByPriority(t: RouteTarget, sorted: seq<RouteTarget>): seq<RouteTarget> {
    if sorted == [] || t.priority <= sorted[0].priority then [t] + sorted
    else [sorted[0]] + InsertByPriority(t, sorted[1..])
  }

  /** `sort_by_key(priority)`. */
  function ByPriority(targets: seq<RouteTarget>): seq<RouteTarget> {
    if targets == [] then [] else InsertByPriority(targets[0], ByPriority(targets[1..]))
  }

  ghost predicate PrioritySorted(targets: seq<RouteTarget>) {
    forall i, j :: 0 <= i < j < |targets| ==> targets[i].priority <= targets[j].priority
  }

  function WithPriority(targets: seq<RouteTarget>, p: nat): seq<RouteTarget> {
    if targets == [] then []
    else if targets[0].priority == p then [targets[0]] + WithPriority(targets[1..], p)
    else WithPriority(targets[1..], p)
  }

  lemma {:induction false} InsertIsStable(t: RouteTarget, sorted: seq<RouteTarget>, p: nat)
    requires PrioritySorted(sorted)
    ensures var r := InsertByPriority(t, sorted);
            && PrioritySorted(r)
            && (forall x :: x in r <==> x == t || x in sorted)
            && WithPriority(r, p) == (if t.priority == p then [t] else []) + WithPriority(sorted, p)
  {
    var r := InsertByPriority(t, sorted);
    if sorted == [] || t.priority <= sorted[0].priority {
      assert r[1..] == sorted;
    } else {
      InsertIsStable(t, sorted[1..], p);
      assert r[1..] == InsertByPriority(t, sorted[1..]);
      assert sorted == [sorted[0]] + sorted[1..];
      if t.priority == p {
        NonePastPriority(sorted, p);
      }
    }
  }

  lemma {:induction false} NonePastPriority(sorted: seq<RouteTarget>, p: nat)
    requires sorted != []
    ensures sorted[0].priority != p ==> WithPriority(sorted, p) == WithPriority(sorted[1..], p)
  {
  }

  /** The sort is stable: ascending priorities, and within one priority the configured order. */
  lemma {:induction false} ByPriorityIsStable(targets: seq<RouteTarget>, p: nat)
    ensures PrioritySorted(ByPriority(targets))
    ensures forall x :: x in ByPriority(targets) <==> x in targets
    ensures WithPriority(ByPriority(targets), p) == WithPriority(targets, p)
  {
    if targets != [] {
      ByPriorityIsStable(targets[1..], p);
      InsertIsStable(targets[0], ByPriority(targets[1..]), p);
    }
  }

  ghost predicate TargetsAccepted(route: RouteConfig, channels: set<string>) {
    && (route.strategy.None? || route.strategy.value == "priority"
        || route.strategy.value == "priority_weighted_sticky")
    && route.targets != []
    && forall t <- route.targets :: Trim(t.channel) != "" && Trim(t.channel) in channels
  }

  function ResolvedTarget(t: TargetConfig, pools: map<string, Pool>): RouteTarget
    requires Trim(t.channel) in pools
  {
    RouteTarget(Trim(t.channel), pools[Trim(t.channel)].providerKind, t.upstreamModel, t.priority, t.weight, t.enabled)
  }

  /**
   The route serves exactly the configured targets: ascending priorities, the configured order within one
   priority, and every channel a pool of the configuration.
   */
  ghost predicate ServesTargets(served: seq<RouteTarget>, route: RouteConfig, pools: map<string, Pool>) {
    && served != [] && PrioritySorted(served)
    && (forall t <- served :: t.channelId in pools)
    && exists given: seq<RouteTarget> :: GivenTargets(given, route, pools) && SamePriorityOrder(served, given)
  }

  ghost predicate GivenTargets(given: seq<RouteTarget>, route: RouteConfig, pools: map<string, Pool>) {
    && |given| == |route.targets|
    && forall i :: 0 <= i < |given| ==>
         Trim(route.targets[i].channel) in pools && given[i] == ResolvedTarget(route.targets[i], pools)
  }

  ghost predicate SamePriorityOrder(a: seq<RouteTarget>, b: seq<RouteTarget>) {
    forall p: nat :: WithPriority(a, p) == WithPriority(b, p)
  }

  lemma SortedRouteServes(given: seq<RouteTarget>, route: RouteConfig, pools: map<string, Pool>)
    requires GivenTargets(given, route, pools) && given != []
    ensures ServesTargets(ByPriority(given), route, pools)
  {
    forall p: nat ensures WithPriority(ByPriority(given), p) == WithPriority(given, p) {
      ByPriorityIsStable(given, p);
    }
    ByPriorityIsStable(given, 0);
    assert given[0] in ByPriority(given);
    forall t <- ByPriority(given) ensures t.channelId in pools {
      assert t in given;
    }
    assert SamePriorityOrder(ByPriority(given), given);
  }

  /** What is wrong with a route, or with the first bad target of it. */
  ghost predicate RouteFaults(route: RouteConfig, channels: set<string>, error: ResolveError) {
    if route.strategy.Some? && route.strategy.value != "priority" && route.strategy.value != "priority_weighted_sticky"
    then error == UnknownStrategy
    else if route.targets == [] then error == NoTargets
    else exists i :: 0 <= i < |route.targets| && FaultyTarget(route.targets, i, channels, error)
  }

  /** The first target that names no known channel. */
  ghost predicate FaultyTarget(targets: seq<TargetConfig>, i: nat, channels: set<string>, error: ResolveError)
    requires i < |targets|
  {
    && TargetsKnown(targets[..i], channels)
    && if Trim(targets[i].channel) == "" then error == EmptyId
       else Trim(targets[i].channel) !in channels && error == UnknownChannel
  }

  ghost predicate TargetsKnown(targets: seq<TargetConfig>, channels: set<string>) {
    forall t <- targets :: Trim(t.channel) != "" && Trim(t.channel) in channels
  }

  /** The target loop of one route. */
  method ResolveRoute(route: RouteConfig, pools: map<string, Pool>) returns (r: Result<seq<RouteTarget>, ResolveError>)
    ensures r.Ok? <==> TargetsAccepted(route, pools.Keys)
    ensures r.Ok? ==> ServesTargets(r.value, route, pools)
    ensures r.Err? ==> RouteFaults(route, pools.Keys, r.error)
  {
    var strategy := if route.strategy.Some? then route.strategy.value else "priority_weighted_sticky";
    if strategy != "priority" && strategy != "priority_weighted_sticky" {
      return Err(UnknownStrategy);
    }
    if route.targets == [] {
      return Err(NoTargets);
    }
    var targets: seq<RouteTarget> := [];
    for i := 0 to |route.targets|
      invariant |targets| == i
      invariant forall k :: 0 <= k < i ==>
                  Trim(route.targets[k].channel) != "" && Trim(route.targets[k].channel) in pools
      invariant forall k :: 0 <= k < i ==> targets[k] == ResolvedTarget(route.targets[k], pools)
    {
      var t := route.targets[i];
      var channelId := Trim(t.channel);
      assert t in route.targets;
      if channelId == "" {
        assert FaultyTarget(route.targets, i, pools.Keys, EmptyId);
        return Err(EmptyId);
      }
      if channelId !in pools {
        assert FaultyTarget(route.targets, i, pools.Keys, UnknownChannel);
        return Err(UnknownChannel);
      }
      targets := targets + [RouteTarget(channelId, pools[channelId].providerKind, t.upstreamModel, t.priority, t.weight,
                                        t.enabled)];
    }
    SortedRouteServes(targets, route, pools);
    r := Ok(ByPriority(targets));
  }

  // --- The whole document -----------------------------------------------------------------------

  /** Every name a resolved configuration mentions points at an entry of it. */
  ghost predicate WellFormed(cfg: ResolvedConfig) {
    && (forall model <- cfg.modelRoutes ::
          cfg.modelRoutes[model] != [] && PrioritySorted(cfg.modelRoutes[model])
          && forall t <- cfg.modelRoutes[model] :: t.channelId in cfg.pools)
    && (forall token <- cfg.clientTokens ::
          Distinct(token.allowedChannels) && Elements(token.allowedChannels) <= cfg.pools.Keys)
    && (forall id <- cfg.modelGroups ::
          cfg.modelGroups[id] != [] && Distinct(cfg.modelGroups[id])
          && Elements(cfg.modelGroups[id]) <= cfg.modelRoutes.Keys)
    && (cfg.defaultPool.Some? ==> cfg.defaultPool.value in cfg.pools)
  }

  /** What a document must satisfy to resolve: present and distinct ids, and every reference points at an entry. */
  ghost predicate Resolvable(doc: Document, hash: string -> string) {
    && TokensAccepted(doc.clientTokens, hash) && (doc.credentialStore || doc.clientTokens != [])
    && IdsAccepted(Ids(doc.pools))
    && (forall t <- doc.clientTokens :: AllKnown(Trims(t.allowedChannels), Elements(Ids(doc.pools))))
    && (doc.defaultPool.Some? ==>
          Trim(doc.defaultPool.value) != "" && Trim(doc.defaultPool.value) in Elements(Ids(doc.pools)))
    && (forall model <- doc.modelRoutes :: TargetsAccepted(doc.modelRoutes[model], Elements(Ids(doc.pools))))
    && GroupsAccepted(doc.modelGroups, doc.modelRoutes.Keys)
  }

  ghost predicate IdsAccepted(ids: seq<string>) {
    AllPresent(ids) && Distinct(ids)
  }

  ghost predicate GroupsAccepted(entries: seq<(string, seq<string>)>, models: set<string>) {
    IdsAccepted(Ids(entries)) && forall i :: 0 <= i < |entries| ==> MembersAccepted(entries[i].1, models)
  }

  ghost predicate MembersAccepted(members: seq<string>, models: set<string>) {
    members != [] && AllKnown(Trims(members), models)
  }

  /** The table holds exactly the first n entries, under their trimmed ids. */
  ghost predicate TabulatesFirst<T, U>(table: map<string, U>, entries: seq<(string, T)>, n: nat, value: T -> U)
    requires n <= |entries|
  {
    && table.Keys == Elements(Ids(entries)[..n])
    && forall i :: 0 <= i < n ==> Ids(entries)[i] in table && table[Ids(entries)[i]] == value(entries[i].1)
  }

  ghost predicate Tabulates<T, U>(table: map<string, U>, entries: seq<(string, T)>, value: T -> U) {
    && table.Keys == Elements(Ids(entries))
    && forall i :: 0 <= i < |entries| ==> Ids(entries)[i] in table && table[Ids(entries)[i]] == value(entries[i].1)
  }

  function Deduplicated(values: seq<string>): seq<string> {
    Firsts(Trims(values), {})
  }

  ghost predicate Scopes(scoped: seq<ClientToken>, tokens: seq<ClientToken>) {
    && |scoped| == |tokens|
    && forall i :: 0 <= i < |tokens| ==>
         scoped[i] == tokens[i].(allowedChannels := Deduplicated(tokens[i].allowedChannels))
  }

  /** What resolution keeps of the document. */
  ghost predicate Resolves(doc: Document, hash: string -> string, cfg: ResolvedConfig) {
    && |cfg.clientTokens| == |doc.clientTokens|
    && (forall i :: 0 <= i < |doc.clientTokens| ==>
          var configured := doc.clientTokens[i];
          cfg.clientTokens[i]
          == Unscoped(configured, hash).(allowedChannels := Deduplicated(configured.allowedChannels)))
    && Tabulates(cfg.pools, doc.pools, pool => pool)
    && cfg.modelRoutes.Keys == doc.modelRoutes.Keys
    && (forall model <- doc.modelRoutes :: ServesTargets(cfg.modelRoutes[model], doc.modelRoutes[model], cfg.pools))
    && Tabulates(cfg.modelGroups, doc.modelGroups, Deduplicated)
    && cfg.defaultPool == (if doc.defaultPool.Some? then Some(Trim(doc.defaultPool.value)) else None)
  }

  /** Adding one entry under a new id. */
  lemma TabulateOne<T, U>(table: map<string, U>, entries: seq<(string, T)>, i: nat, value: T -> U)
    requires i < |entries| && TabulatesFirst(table, entries, i, value) && IdsAccepted(Ids(entries)[..i])
    requires Ids(entries)[i] != "" && Ids(entries)[i] !in table
    ensures TabulatesFirst(table[Ids(entries)[i] := value(entries[i].1)], entries, i + 1, value)
    ensures IdsAccepted(Ids(entries)[..i + 1])
  {
    InsertName(Ids(entries), i);
    assert Ids(entries)[..i + 1] == Ids(entries)[..i] + [Ids(entries)[i]];
  }

  lemma TabulatedAll<T, U>(table: map<string, U>, entries: seq<(string, T)>, value: T -> U)
    requires TabulatesFirst(table, entries, |entries|, value)
    ensures Tabulates(table, entries, value) && Ids(entries)[..|entries|] == Ids(entries)
  {
    assert Ids(entries)[..|entries|] == Ids(entries);
  }

  lemma RejectedId<T, U>(table: map<string, U>, entries: seq<(string, T)>, i: nat, value: T -> U)
    requires i < |entries| && TabulatesFirst(table, entries, i, value) && IdsAccepted(Ids(entries)[..i])
    requires Ids(entries)[i] == "" || Ids(entries)[i] in table
    ensures !IdsAccepted(Ids(entries))
  {
    assert Ids(entries)[i] in Ids(entries);
    InsertName(Ids(entries), i);
  }

  /** The first n entries are accepted and tabulated. */
  ghost predicate FirstEntries<T, U>(table: map<string, U>, entries: seq<(string, T)>, n: nat, value: T -> U)
    requires n <= |entries|
  {
    TabulatesFirst(table, entries, n, value) && IdsAccepted(Ids(entries)[..n])
  }

  lemma AcceptEntry<T, U>(table: map<string, U>, entries: seq<(string, T)>, n: nat, value: T -> U)
    requires n < |entries| && FirstEntries(table, entries, n, value)
    ensures var id := Trim(entries[n].0);
            if id != "" && id !in table then FirstEntries(table[id := value(entries[n].1)], entries, n + 1, value)
            else !IdsAccepted(Ids(entries))
  {
    if Trim(entries[n].0) == "" || Trim(entries[n].0) in table {
      RejectedId(table, entries, n, value);
    } else {
      TabulateOne(table, entries, n, value);
    }
  }

  lemma AcceptEntries<T, U>(table: map<string, U>, entries: seq<(string, T)>, value: T -> U)
    requires FirstEntries(table, entries, |entries|, value)
    ensures Tabulates(table, entries, value) && IdsAccepted(Ids(entries))
  {
    TabulatedAll(table, entries, value);
  }

  /** The first id that is missing or repeats an earlier one. */
  ghost predicate FaultyId(ids: seq<string>, i: nat, error: ResolveError)
    requires i < |ids|
  {
    && IdsAccepted(ids[..i])
    && if ids[i] == "" then error == EmptyId else ids[i] in ids[..i] && error == DuplicateId
  }

  ghost predicate IdsFail(ids: seq<string>, error: ResolveError) {
    exists i :: 0 <= i < |ids| && FaultyId(ids, i, error)
  }

  lemma IdFailsHere<T, U>(table: map<string, U>, entries: seq<(string, T)>, n: nat, value: T -> U)
    requires n < |entries| && FirstEntries(table, entries, n, value)
    ensures var id := Trim(entries[n].0);
            if id == "" then IdsFail(Ids(entries), EmptyId)
            else if id in table then IdsFail(Ids(entries), DuplicateId)
            else true
  {
    var ids := Ids(entries);
    if ids[n] == "" {
      assert FaultyId(ids, n, EmptyId);
    } else if ids[n] in table {
      assert ids[n] in Elements(ids[..n]);
      assert FaultyId(ids, n, DuplicateId);
    }
  }

  /** The pool loop: trimmed ids must be non-empty and distinct. */
  method ResolvePools(entries: seq<(string, Pool)>) returns (r: Result<map<string, Pool>, ResolveError>)
    ensures r.Ok? <==> IdsAccepted(Ids(entries))
    ensures r.Ok? ==> Tabulates(r.value, entries, pool => pool)
    ensures r.Err? ==> IdsFail(Ids(entries), r.error)
  {
    ghost var keep := (pool: Pool) => pool;
    var pools: map<string, Pool> := map[];
    for i := 0 to |entries|
      invariant FirstEntries(pools, entries, i, keep)
    {
      var id := Trim(entries[i].0);
      AcceptEntry(pools, entries, i, keep);
      IdFailsHere(pools, entries, i, keep);
      if id == "" {
        return Err(EmptyId);
      }
      if id in pools {
        return Err(DuplicateId);
      }
      pools := pools[id := entries[i].1];
    }
    AcceptEntries(pools, entries, keep);
    r := Ok(pools);
  }

  ghost predicate GroupsWellFormed(groups: map<string, seq<string>>, models: set<string>) {
    forall id <- groups :: groups[id] != [] && Distinct(groups[id]) && Elements(groups[id]) <= models
  }

  ghost predicate MembersFail(configured: seq<string>, models: set<string>, error: ResolveError) {
    if configured == [] then error == NoModels else NamesFail(configured, models, UnknownModel, error)
  }

  /** One entry of the group table: its members, or what is wrong with them. */
  method ResolveMembers(configured: seq<string>, models: set<string>) returns (r: Result<seq<string>, ResolveError>)
    ensures r.Ok? <==> MembersAccepted(configured, models)
    ensures r.Ok? ==> r.value == Deduplicated(configured)
    ensures r.Err? ==> MembersFail(configured, models, r.error)
  {
    if configured == [] {
      return Err(NoModels);
    }
    r := ResolveNames(configured, models, UnknownModel);
  }

  /** The first n groups are accepted and tabulated. */
  ghost predicate FirstGroups(groups: map<string, seq<string>>, entries: seq<(string, seq<string>)>, n: nat,
                              models: set<string>)
    requires n <= |entries|
  {
    && FirstEntries(groups, entries, n, Deduplicated)
    && forall k :: 0 <= k < n ==> MembersAccepted(entries[k].1, models)
  }

  lemma AcceptGroup(groups: map<string, seq<string>>, entries: seq<(string, seq<string>)>, n: nat, models: set<string>)
    requires n < |entries| && FirstGroups(groups, entries, n, models)
    ensures var id := Trim(entries[n].0);
            if id != "" && id !in groups && MembersAccepted(entries[n].1, models)
            then FirstGroups(groups[id := Deduplicated(entries[n].1)], entries, n + 1, models)
            else !GroupsAccepted(entries, models)
  {
    AcceptEntry(groups, entries, n, Deduplicated);
  }

  /** The first group without an id, with bad members, or with the id of an earlier group, checked in this order. */
  ghost predicate FaultyGroup(entries: seq<(string, seq<string>)>, i: nat, models: set<string>, error: ResolveError)
    requires i < |entries|
  {
    && IdsAccepted(Ids(entries)[..i])
    && (forall k :: 0 <= k < i ==> MembersAccepted(entries[k].1, models))
    && if Ids(entries)[i] == "" then error == EmptyId
       else if !MembersAccepted(entries[i].1, models) then MembersFail(entries[i].1, models, error)
       else Ids(entries)[i] in Ids(entries)[..i] && error == DuplicateId
  }

  ghost predicate GroupsFail(entries: seq<(string, seq<string>)>, models: set<string>, error: ResolveError) {
    exists i :: 0 <= i < |entries| && FaultyGroup(entries, i, models, error)
  }

  lemma GroupFailsHere(groups: map<string, seq<string>>, entries: seq<(string, seq<string>)>, n: nat,
                       models: set<string>, error: ResolveError)
    requires n < |entries| && FirstGroups(groups, entries, n, models)
    requires if Trim(entries[n].0) == "" then error == EmptyId
             else if !MembersAccepted(entries[n].1, models) then MembersFail(entries[n].1, models, error)
             else Trim(entries[n].0) in groups && error == DuplicateId
    ensures GroupsFail(entries, models, error)
  {
    var ids := Ids(entries);
    assert ids[n] in groups ==> ids[n] in Elements(ids[..n]);
    assert FaultyGroup(entries, n, models, error);
  }

  lemma AcceptGroups(groups: map<string, seq<string>>, entries: seq<(string, seq<string>)>, models: set<string>)
    requires FirstGroups(groups, entries, |entries|, models)
    ensures GroupsAccepted(entries, models) && Tabulates(groups, entries, Deduplicated)
  {
    AcceptEntries(groups, entries, Deduplicated);
  }

  /** The group loop: every member must be a route, ids must be non-empty and distinct. */
  method ResolveGroups(entries: seq<(string, seq<string>)>, models: set<string>)
    returns (r: Result<map<string, seq<string>>, ResolveError>)
    ensures r.Ok? <==> GroupsAccepted(entries, models)
    ensures r.Ok? ==> Tabulates(r.value, entries, Deduplicated)
    ensures r.Err? ==> GroupsFail(entries, models, r.error)
  {
    var groups: map<string, seq<string>> := map[];
    for i := 0 to |entries|
      invariant FirstGroups(groups, entries, i, models)
    {
      var id := Trim(entries[i].0);
      AcceptGroup(groups, entries, i, models);
      if id == "" {
        GroupFailsHere(groups, entries, i, models, EmptyId);
        return Err(EmptyId);
      }
      var members := ResolveMembers(entries[i].1, models);
      if members.Err? {
        GroupFailsHere(groups, entries, i, models, members.error);
        return Err(members.error);
      }
      if id in groups {
        GroupFailsHere(groups, entries, i, models, DuplicateId);
        return Err(DuplicateId);
      }
      groups := groups[id := members.value];
    }
    AcceptGroups(groups, entries, models);
    r := Ok(groups);
  }

  lemma GroupsFit(groups: map<string, seq<string>>, entries: seq<(string, seq<string>)>, models: set<string>)
    requires Tabulates(groups, entries, Deduplicated) && GroupsAccepted(entries, models)
    ensures GroupsWellFormed(groups, models)
  {
    forall id <- groups ensures groups[id] != [] && Distinct(groups[id]) && Elements(groups[id]) <= models {
      var i :| 0 <= i < |entries| && Ids(entries)[i] == id;
      assert MembersAccepted(entries[i].1, models);
      ResolvedScope(entries[i].1, models);
    }
  }

  method ResolveRoutes(routes: map<string, RouteConfig>, pools: map<string, Pool>)
    returns (r: Result<map<string, seq<RouteTarget>>, ResolveError>)
    ensures r.Ok? <==> forall model <- routes :: TargetsAccepted(routes[model], pools.Keys)
    ensures r.Ok? ==> r.value.Keys == routes.Keys
    ensures r.Ok? ==> forall model <- routes :: ServesTargets(r.value[model], routes[model], pools)
    ensures r.Err? ==> exists model <- routes :: RouteFaults(routes[model], pools.Keys, r.error)
  {
    var resolved: map<string, seq<RouteTarget>> := map[];
    var todo := routes.Keys;
    while todo != {}
      invariant todo <= routes.Keys && resolved.Keys == routes.Keys - todo
      invariant forall model <- resolved :: TargetsAccepted(routes[model], pools.Keys)
      invariant forall model <- resolved :: ServesTargets(resolved[model], routes[model], pools)
      decreases todo
    {
      var model :| model in todo;
      var targets := ResolveRoute(routes[model], pools);
      if targets.Err? {
        return Err(targets.error);
      }
      resolved := resolved[model := targets.value];
      todo := todo - {model};
    }
    r := Ok(resolved);
  }

  /** The first n tokens have known channels, and these are the tokens with their channels resolved. */
  ghost predicate FirstScopes(scoped: seq<ClientToken>, tokens: seq<ClientToken>, n: nat, channels: set<string>)
    requires n <= |tokens|
  {
    && |scoped| == n
    && forall k :: 0 <= k < n ==>
         scoped[k] == tokens[k].(allowedChannels := Deduplicated(tokens[k].allowedChannels))
         && AllKnown(Trims(tokens[k].allowedChannels), channels)
  }

  lemma ScopeOne(scoped: seq<ClientToken>, tokens: seq<ClientToken>, n: nat, channels: set<string>)
    requires n < |tokens| && FirstScopes(scoped, tokens, n, channels)
    requires AllKnown(Trims(tokens[n].allowedChannels), channels)
    ensures var token := tokens[n].(allowedChannels := Deduplicated(tokens[n].allowedChannels));
            FirstScopes(scoped + [token], tokens, n + 1, channels)
  {
  }

  /** The scope loop over the resolved tokens. */
  method ResolveScopes(tokens: seq<ClientToken>, channels: set<string>)
    returns (r: Result<seq<ClientToken>, ResolveError>)
    ensures r.Ok? <==> forall t <- tokens :: AllKnown(Trims(t.allowedChannels), channels)
    ensures r.Ok? ==> Scopes(r.value, tokens)
    ensures r.Err? ==> exists t <- tokens :: NamesFail(t.allowedChannels, channels, UnknownChannel, r.error)
  {
    var scoped: seq<ClientToken> := [];
    for i := 0 to |tokens|
      invariant FirstScopes(scoped, tokens, i, channels)
    {
      assert tokens[i] in tokens;
      var resolved := ResolveNames(tokens[i].allowedChannels, channels, UnknownChannel);
      if resolved.Err? {
        return Err(resolved.error);
      }
      ScopeOne(scoped, tokens, i, channels);
      scoped := scoped + [tokens[i].(allowedChannels := resolved.value)];
    }
    r := Ok(scoped);
  }

  lemma ScopesFit(scoped: seq<ClientToken>, tokens: seq<ClientToken>, channels: set<string>)
    requires Scopes(scoped, tokens) && forall t <- tokens :: AllKnown(Trims(t.allowedChannels), channels)
    ensures forall t <- scoped :: Distinct(t.allowedChannels) && Elements(t.allowedChannels) <= channels
  {
    forall t <- scoped ensures Distinct(t.allowedChannels) && Elements(t.allowedChannels) <= channels {
      var i :| 0 <= i < |scoped| && scoped[i] == t;
      ResolvedScope(tokens[i].allowedChannels, channels);
    }
  }

  /** The document's channel scopes are those of the unscoped tokens. */
  lemma ScopesOfTokens(configured: seq<TokenConfig>, tokens: seq<ClientToken>, hash: string -> string,
                       channels: set<string>)
    requires |tokens| == |configured|
    requires forall i :: 0 <= i < |configured| ==> tokens[i] == Unscoped(configured[i], hash)
    ensures (forall t <- tokens :: AllKnown(Trims(t.allowedChannels), channels))
            <==> (forall t <- configured :: AllKnown(Trims(t.allowedChannels), channels))
  {
    if forall t <- tokens :: AllKnown(Trims(t.allowedChannels), channels) {
      forall t <- configured ensures AllKnown(Trims(t.allowedChannels), channels) {
        var i :| 0 <= i < |configured| && configured[i] == t;
        assert tokens[i] in tokens;
      }
    }
    if forall t <- configured :: AllKnown(Trims(t.allowedChannels), channels) {
      forall t <- tokens ensures AllKnown(Trims(t.allowedChannels), channels) {
        var i :| 0 <= i < |tokens| && tokens[i] == t;
        assert configured[i] in configured;
      }
    }
  }

  /** The first stage that refuses the document, and the error it refuses with. */
  ghost predicate Fails(doc: Document, hash: string -> string, error: ResolveError) {
    var channels := Elements(Ids(doc.pools));
    if !TokensAccepted(doc.clientTokens, hash) then TokensFail(doc.clientTokens, hash, error)
    else if !doc.credentialStore && doc.clientTokens == [] then error == NoClientTokens
    else if !IdsAccepted(Ids(doc.pools)) then IdsFail(Ids(doc.pools), error)
    else if exists t <- doc.clientTokens :: !AllKnown(Trims(t.allowedChannels), channels) then
      exists t <- doc.clientTokens :: NamesFail(t.allowedChannels, channels, UnknownChannel, error)
    else if doc.defaultPool.Some? && Trim(doc.defaultPool.value) == "" then error == EmptyId
    else if exists model <- doc.modelRoutes :: !TargetsAccepted(doc.modelRoutes[model], channels) then
      exists model <- doc.modelRoutes :: RouteFaults(doc.modelRoutes[model], channels, error)
    else if !GroupsAccepted(doc.modelGroups, doc.modelRoutes.Keys) then
      GroupsFail(doc.modelGroups, doc.modelRoutes.Keys, error)
    else error == UnknownDefaultPool
  }

  lemma ScopeFails(configured: seq<TokenConfig>, tokens: seq<ClientToken>, hash: string -> string,
                   channels: set<string>, error: ResolveError)
    requires |tokens| == |configured|
    requires forall i :: 0 <= i < |configured| ==> tokens[i] == Unscoped(configured[i], hash)
    requires exists t <- tokens :: NamesFail(t.allowedChannels, channels, UnknownChannel, error)
    ensures exists t <- configured :: NamesFail(t.allowedChannels, channels, UnknownChannel, error)
  {
    var t :| t in tokens && NamesFail(t.allowedChannels, channels, UnknownChannel, error);
    var i :| 0 <= i < |tokens| && tokens[i] == t;
    assert configured[i] in configured && configured[i].allowedChannels == t.allowedChannels;
  }

  /**
   A document resolves exactly when its ids are present and distinct and all its references point at entries, and
   then the configuration is well-formed and keeps what the document says.
   */
  method Resolve(doc: Document, hash: string -> string) returns (r: Result<ResolvedConfig, ResolveError>)
    ensures r.Ok? <==> Resolvable(doc, hash)
    ensures r.Ok? ==> WellFormed(r.value) && Resolves(doc, hash, r.value)
    ensures r.Err? ==> Fails(doc, hash, r.error)
  {
    var tokens := ResolveClientTokens(doc.clientTokens, hash);
    if tokens.Err? {
      return Err(tokens.error);
    }
    if !doc.credentialStore && tokens.value == [] {
      return Err(NoClientTokens);
    }
    var pools := ResolvePools(doc.pools);
    if pools.Err? {
      return Err(pools.error);
    }
    ScopesOfTokens(doc.clientTokens, tokens.value, hash, pools.value.Keys);
    var scoped := ResolveScopes(tokens.value, pools.value.Keys);
    if scoped.Err? {
      ScopeFails(doc.clientTokens, tokens.value, hash, pools.value.Keys, scoped.error);
      return Err(scoped.error);
    }
    ScopesFit(scoped.value, tokens.value, pools.value.Keys);
    var defaultPool := if doc.defaultPool.Some? then Some(Trim(doc.defaultPool.value)) else None;
    if defaultPool == Some("") {
      return Err(EmptyId);
    }
    var routes := ResolveRoutes(doc.modelRoutes, pools.value);
    if routes.Err? {
      return Err(routes.error);
    }
    var groups := ResolveGroups(doc.modelGroups, routes.value.Keys);
    if groups.Err? {
      return Err(groups.error);
    }
    GroupsFit(groups.value, doc.modelGroups, routes.value.Keys);
    if defaultPool.Some? && defaultPool.value !in pools.value {
      return Err(UnknownDefaultPool);
    }
    r := Ok(ResolvedConfig(scoped.value, pools.value, defaultPool, routes.value, groups.value));
  }

  /** A channel scope resolves to the empty, unrestricted scope only if it was configured empty. */
  lemma ScopedTokensStayScoped(doc: Document, hash: string -> string, cfg: ResolvedConfig, i: nat)
    requires Resolvable(doc, hash) && Resolves(doc, hash, cfg) && i < |doc.clientTokens|
    ensures cfg.clientTokens[i].allowedChannels == [] <==> doc.clientTokens[i].allowedChannels == []
    ensures Elements(cfg.clientTokens[i].allowedChannels) == Elements(Trims(doc.clientTokens[i].allowedChannels))
  {
    assert doc.clientTokens[i] in doc.clientTokens;
    ResolvedScope(doc.clientTokens[i].allowedChannels, Elements(Ids(doc.pools)));
  }
}
