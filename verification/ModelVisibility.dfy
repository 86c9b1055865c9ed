/** Which public models a client token can see (`src/control_plane.rs`). */
module ModelVisibility {
  import opened Strings
  import opened FirstOccurrences
  import opened ConfigResolver

  /** `client_model_allowed`: an empty list of groups allows every model. */
  predicate ModelAllowed(modelGroups: map<string, seq<string>>, allowed: seq<string>, model: string) {
    allowed == []
    || exists i :: (
         0 <= i < |allowed|
         && (allowed[i] == model || (allowed[i] in modelGroups && model in modelGroups[allowed[i]])))
  }

  predicate TargetVisible(cfg: ResolvedConfig, token: ClientToken, target: RouteTarget) {
    && target.enabled
    && (token.allowedChannels == [] || target.channelId in token.allowedChannels)
    && target.channelId in cfg.pools
    && var pool := cfg.pools[target.channelId];
       pool.configuredEnabled && pool.accountEnabled && pool.providerKind.OpenAiCompatible?
  }

  predicate ModelVisible(cfg: ResolvedConfig, token: ClientToken, model: string) {
    && model in cfg.modelRoutes
    && ModelAllowed(cfg.modelGroups, token.allowedModelGroups, model)
    && exists i :: 0 <= i < |cfg.modelRoutes[model]| && TargetVisible(cfg, token, cfg.modelRoutes[model][i])
  }

  /** Ascending without repeats, as a B-tree set iterates. */
  ghost predicate StrictlySorted(xs: seq<string>) {
    forall i, j :: 0 <= i < j < |xs| ==> Le(xs[i], xs[j]) && xs[i] != xs[j]
  }

  function InsertOnce(x: string, sorted: seq<string>): seq<string> {
    if sorted == [] then [x]
    else if sorted[0] == x then sorted
    else if Le(x, sorted[0]) then [x] + sorted
    else [sorted[0]] + InsertOnce(x, sorted[1..])
  }

  lemma ConsSorted(head: string, rest: seq<string>)
    requires StrictlySorted(rest) && forall y <- rest :: Le(head, y) && head != y
    ensures StrictlySorted([head] + rest)
  {
    var all := [head] + rest;
    forall i, j | 0 <= i < j < |all| ensures Le(all[i], all[j]) && all[i] != all[j] {
      assert all[j] == rest[j - 1] && rest[j - 1] in rest;
      assert i > 0 ==> all[i] == rest[i - 1];
    }
  }

  lemma HeadIsLeast(sorted: seq<string>)
    requires StrictlySorted(sorted) && sorted != []
    ensures StrictlySorted(sorted[1..]) && forall y <- sorted[1..] :: Le(sorted[0], y) && sorted[0] != y
  {
    forall y <- sorted[1..] ensures Le(sorted[0], y) && sorted[0] != y {
      var k :| 0 <= k < |sorted[1..]| && sorted[1..][k] == y;
      assert sorted[k + 1] == y;
    }
  }

  lemma {:induction false} InsertOnceKeepsOrder(x: string, sorted: seq<string>)
    requires StrictlySorted(sorted)
    ensures StrictlySorted(InsertOnce(x, sorted)) && forall y :: y in InsertOnce(x, sorted) <==> y == x || y in sorted
  {
    if sorted != [] && sorted[0] != x {
      var head, rest := sorted[0], sorted[1..];
      HeadIsLeast(sorted);
      assert sorted == [head] + rest;
      if Le(x, head) {
        forall y <- sorted ensures Le(x, y) && x != y {
          if y != head {
            LeIsTransitive(x, head, y);
            if x == y { LeIsAntisymmetric(head, y); }
          }
        }
        ConsSorted(x, sorted);
      } else {
        InsertOnceKeepsOrder(x, rest);
        LeIsTotal(x, head);
        ConsSorted(head, InsertOnce(x, rest));
      }
    }
  }

  /** `visible_models_for_client`: exactly the visible models, in strictly ascending order. */
  method VisibleModelsForClient(cfg: ResolvedConfig, token: ClientToken) returns (visible: seq<string>)
    ensures StrictlySorted(visible)
    ensures forall model :: model in visible <==> ModelVisible(cfg, token, model)
  {
    visible := [];
    var todo := cfg.modelRoutes.Keys;
    while todo != {}
      invariant todo <= cfg.modelRoutes.Keys && StrictlySorted(visible)
      invariant forall model :: model in visible <==> model !in todo && ModelVisible(cfg, token, model)
      decreases todo
    {
      var model :| model in todo;
      todo := todo - {model};
      if !ModelAllowed(cfg.modelGroups, token.allowedModelGroups, model) {
        continue;
      }
      var targets := cfg.modelRoutes[model];
      if exists i :: 0 <= i < |targets| && TargetVisible(cfg, token, targets[i]) {
        InsertOnceKeepsOrder(model, visible);
        visible := InsertOnce(model, visible);
      }
    }
  }

  /** The first scope allows no more than the second; the empty scope allows everything. */
  predicate Within(narrow: seq<string>, wide: seq<string>) {
    wide == [] || (narrow != [] && forall x <- narrow :: x in wide)
  }

  /**
   Visibility is monotone in both scopes: scoping an unrestricted token never adds a model, and growing a
   non-empty scope never removes one.
   */
  lemma VisibilityIsMonotone(cfg: ResolvedConfig, narrow: ClientToken, wide: ClientToken, model: string)
    requires Within(narrow.allowedModelGroups, wide.allowedModelGroups)
    requires Within(narrow.allowedChannels, wide.allowedChannels)
    requires ModelVisible(cfg, narrow, model)
    ensures ModelVisible(cfg, wide, model)
  {
    var i :| 0 <= i < |cfg.modelRoutes[model]| && TargetVisible(cfg, narrow, cfg.modelRoutes[model][i]);
    assert TargetVisible(cfg, wide, cfg.modelRoutes[model][i]);
    var allowed, wider := narrow.allowedModelGroups, wide.allowedModelGroups;
    if wider != [] {
      var k :| 0 <= k < |allowed|
          && (allowed[k] == model || (allowed[k] in cfg.modelGroups && model in cfg.modelGroups[allowed[k]]));
      assert allowed[k] in allowed && allowed[k] in wider;
      var j :| 0 <= j < |wider| && wider[j] == allowed[k];
      assert wider[j] == model || (wider[j] in cfg.modelGroups && model in cfg.modelGroups[wider[j]]);
    }
  }

  // --- Visibility in terms of the document ------------------------------------------------------

  /** The token lists the model, or a group that lists it. */
  ghost predicate DocumentAllows(doc: Document, allowed: seq<string>, model: string) {
    allowed == []
    || exists i :: 0 <= i < |allowed| && (allowed[i] == model || ListedIn(doc, allowed[i], model))
  }

  ghost predicate ListedIn(doc: Document, group: string, model: string) {
    exists g :: (
      0 <= g < |doc.modelGroups| && Trim(doc.modelGroups[g].0) == group && model in Trims(doc.modelGroups[g].1))
  }

  /** An enabled target, in the token's scope, whose channel is a live pool of the document. */
  ghost predicate LiveTarget(doc: Document, scope: seq<string>, t: TargetConfig) {
    t.enabled && (scope == [] || Trim(t.channel) in Trims(scope)) && LivePool(doc, Trim(t.channel))
  }

  ghost predicate LivePool(doc: Document, channel: string) {
    exists p :: 0 <= p < |doc.pools| && Trim(doc.pools[p].0) == channel && Live(doc.pools[p].1)
  }

  predicate Live(pool: Pool) {
    pool.configuredEnabled && pool.accountEnabled && pool.providerKind.OpenAiCompatible?
  }

  lemma GroupsReadTheDocument(doc: Document, hash: string -> string, cfg: ResolvedConfig, group: string, model: string)
    requires Resolvable(doc, hash) && Resolves(doc, hash, cfg)
    ensures group in cfg.modelGroups && model in cfg.modelGroups[group] <==> ListedIn(doc, group, model)
  {
    forall g | 0 <= g < |doc.modelGroups| && Trim(doc.modelGroups[g].0) == group
      ensures group in cfg.modelGroups && (model in cfg.modelGroups[group] <==> model in Trims(doc.modelGroups[g].1))
    {
      assert Ids(doc.modelGroups)[g] == group;
      assert MembersAccepted(doc.modelGroups[g].1, doc.modelRoutes.Keys);
      ResolvedScope(doc.modelGroups[g].1, doc.modelRoutes.Keys);
      assert model in Elements(cfg.modelGroups[group]) <==> model in Elements(Trims(doc.modelGroups[g].1));
    }
    if group in cfg.modelGroups {
      assert group in Elements(Ids(doc.modelGroups));
      var g :| 0 <= g < |doc.modelGroups| && Ids(doc.modelGroups)[g] == group;
    }
  }

  lemma PoolsReadTheDocument(doc: Document, hash: string -> string, cfg: ResolvedConfig, channel: string)
    requires Resolves(doc, hash, cfg)
    ensures channel in cfg.pools && Live(cfg.pools[channel]) <==> LivePool(doc, channel)
  {
    forall p | 0 <= p < |doc.pools| && Trim(doc.pools[p].0) == channel
      ensures channel in cfg.pools && cfg.pools[channel] == doc.pools[p].1
    {
      assert Ids(doc.pools)[p] == channel;
    }
    if channel in cfg.pools {
      assert channel in Elements(Ids(doc.pools));
      var p :| 0 <= p < |doc.pools| && Ids(doc.pools)[p] == channel;
    }
  }

  lemma {:induction false} PriorityFinds(targets: seq<RouteTarget>, t: RouteTarget)
    ensures t in WithPriority(targets, t.priority) <==> t in targets
  {
    if targets != [] {
      PriorityFinds(targets[1..], t);
      assert targets == [targets[0]] + targets[1..];
    }
  }

  /** A route serves exactly its configured targets. */
  lemma ServedIsConfigured(served: seq<RouteTarget>, route: RouteConfig, pools: map<string, Pool>, t: RouteTarget)
    requires ServesTargets(served, route, pools)
    ensures t in served
            <==> exists k :: (
                   && 0 <= k < |route.targets| && Trim(route.targets[k].channel) in pools
                   && t == ResolvedTarget(route.targets[k], pools))
  {
    var given: seq<RouteTarget> :| GivenTargets(given, route, pools) && SamePriorityOrder(served, given);
    PriorityFinds(served, t);
    PriorityFinds(given, t);
    assert WithPriority(served, t.priority) == WithPriority(given, t.priority);
    forall k | 0 <= k < |route.targets|
      ensures Trim(route.targets[k].channel) in pools && given[k] == ResolvedTarget(route.targets[k], pools)
    {
    }
  }

  lemma ConfiguredIsServed(served: seq<RouteTarget>, route: RouteConfig, pools: map<string, Pool>, c: nat)
    returns (k: nat)
    requires ServesTargets(served, route, pools) && c < |route.targets| && Trim(route.targets[c].channel) in pools
    ensures k < |served| && served[k] == ResolvedTarget(route.targets[c], pools)
  {
    ServedIsConfigured(served, route, pools, ResolvedTarget(route.targets[c], pools));
    k :| 0 <= k < |served| && served[k] == ResolvedTarget(route.targets[c], pools);
  }

  lemma TargetReadsTheDocument(doc: Document, hash: string -> string, cfg: ResolvedConfig, i: nat, t: TargetConfig)
    requires Resolvable(doc, hash) && Resolves(doc, hash, cfg) && i < |doc.clientTokens| && Trim(t.channel) in cfg.pools
    ensures TargetVisible(cfg, cfg.clientTokens[i], ResolvedTarget(t, cfg.pools))
            <==> LiveTarget(doc, doc.clientTokens[i].allowedChannels, t)
  {
    var token, scope := cfg.clientTokens[i], doc.clientTokens[i].allowedChannels;
    ScopedTokensStayScoped(doc, hash, cfg, i);
    assert Trim(t.channel) in Elements(token.allowedChannels) <==> Trim(t.channel) in Elements(Trims(scope));
    PoolsReadTheDocument(doc, hash, cfg, Trim(t.channel));
  }

  lemma AllowanceReadsTheDocument(doc: Document, hash: string -> string, cfg: ResolvedConfig, allowed: seq<string>,
                                  model: string)
    requires Resolvable(doc, hash) && Resolves(doc, hash, cfg)
    ensures ModelAllowed(cfg.modelGroups, allowed, model) <==> DocumentAllows(doc, allowed, model)
  {
    forall i | 0 <= i < |allowed|
      ensures allowed[i] in cfg.modelGroups && model in cfg.modelGroups[allowed[i]]
              <==> ListedIn(doc, allowed[i], model)
    {
      GroupsReadTheDocument(doc, hash, cfg, allowed[i], model);
    }
  }

  ghost predicate ServedTo(cfg: ResolvedConfig, token: ClientToken, model: string)
    requires model in cfg.modelRoutes
  {
    exists k :: 0 <= k < |cfg.modelRoutes[model]| && TargetVisible(cfg, token, cfg.modelRoutes[model][k])
  }

  ghost predicate HasLiveTarget(doc: Document, scope: seq<string>, model: string)
    requires model in doc.modelRoutes
  {
    exists c :: 0 <= c < |doc.modelRoutes[model].targets| && LiveTarget(doc, scope, doc.modelRoutes[model].targets[c])
  }

  lemma ServedMeansLive(doc: Document, hash: string -> string, cfg: ResolvedConfig, i: nat, model: string)
    requires Resolvable(doc, hash) && Resolves(doc, hash, cfg) && i < |doc.clientTokens| && model in doc.modelRoutes
    requires ServedTo(cfg, cfg.clientTokens[i], model)
    ensures HasLiveTarget(doc, doc.clientTokens[i].allowedChannels, model)
  {
    var served, targets := cfg.modelRoutes[model], doc.modelRoutes[model].targets;
    var k :| 0 <= k < |served| && TargetVisible(cfg, cfg.clientTokens[i], served[k]);
    ServedIsConfigured(served, doc.modelRoutes[model], cfg.pools, served[k]);
    var c :| 0 <= c < |targets| && Trim(targets[c].channel) in cfg.pools
        && served[k] == ResolvedTarget(targets[c], cfg.pools);
    TargetReadsTheDocument(doc, hash, cfg, i, targets[c]);
  }

  lemma LiveMeansServed(doc: Document, hash: string -> string, cfg: ResolvedConfig, i: nat, model: string)
    requires Resolvable(doc, hash) && Resolves(doc, hash, cfg) && i < |doc.clientTokens| && model in doc.modelRoutes
    requires HasLiveTarget(doc, doc.clientTokens[i].allowedChannels, model)
    ensures ServedTo(cfg, cfg.clientTokens[i], model)
  {
    var targets := doc.modelRoutes[model].targets;
    var c :| 0 <= c < |targets| && LiveTarget(doc, doc.clientTokens[i].allowedChannels, targets[c]);
    PoolsReadTheDocument(doc, hash, cfg, Trim(targets[c].channel));
    TargetReadsTheDocument(doc, hash, cfg, i, targets[c]);
    var k := ConfiguredIsServed(cfg.modelRoutes[model], doc.modelRoutes[model], cfg.pools, c);
  }

  /**
   What a token sees can be read off the document: exactly the routed models that it or one of its groups lists and
   that have an enabled target, in its scope, in a live pool. No name of the document is lost or dangling on the way.
   */
  lemma VisibilityReadsTheDocument(doc: Document, hash: string -> string, cfg: ResolvedConfig, i: nat, model: string)
    requires Resolvable(doc, hash) && Resolves(doc, hash, cfg) && i < |doc.clientTokens|
    ensures ModelVisible(cfg, cfg.clientTokens[i], model)
            <==> && model in doc.modelRoutes
                 && DocumentAllows(doc, doc.clientTokens[i].allowedModelGroups, model)
                 && HasLiveTarget(doc, doc.clientTokens[i].allowedChannels, model)
  {
    AllowanceReadsTheDocument(doc, hash, cfg, doc.clientTokens[i].allowedModelGroups, model);
    if model in doc.modelRoutes {
      if ServedTo(cfg, cfg.clientTokens[i], model) {
        ServedMeansLive(doc, hash, cfg, i, model);
      }
      if HasLiveTarget(doc, doc.clientTokens[i].allowedChannels, model) {
        LiveMeansServed(doc, hash, cfg, i, model);
      }
    }
  }

  /**
   Scopes survive resolution: a model that a token with a configured channel scope can see is served by an enabled
   target in one of the channels the document lists for that token.
   */
  lemma ResolvedScopeBindsVisibility(doc: Document, hash: string -> string, cfg: ResolvedConfig, i: nat, model: string)
    requires Resolvable(doc, hash) && Resolves(doc, hash, cfg) && i < |doc.clientTokens|
    requires doc.clientTokens[i].allowedChannels != [] && ModelVisible(cfg, cfg.clientTokens[i], model)
    ensures exists k, c :: (
              && 0 <= k < |cfg.modelRoutes[model]| && 0 <= c < |doc.clientTokens[i].allowedChannels|
              && cfg.modelRoutes[model][k].enabled
              && cfg.modelRoutes[model][k].channelId == Trims(doc.clientTokens[i].allowedChannels)[c])
  {
    ScopedTokensStayScoped(doc, hash, cfg, i);
    var k := VisibleTarget(cfg, cfg.clientTokens[i], model);
    var c := IndexIn(Trims(doc.clientTokens[i].allowedChannels), cfg.modelRoutes[model][k].channelId);
  }

  lemma VisibleTarget(cfg: ResolvedConfig, token: ClientToken, model: string) returns (k: nat)
    requires ModelVisible(cfg, token, model)
    ensures k < |cfg.modelRoutes[model]| && cfg.modelRoutes[model][k].enabled
    ensures token.allowedChannels == [] || cfg.modelRoutes[model][k].channelId in Elements(token.allowedChannels)
  {
    k :| 0 <= k < |cfg.modelRoutes[model]| && TargetVisible(cfg, token, cfg.modelRoutes[model][k]);
  }

  lemma IndexIn(names: seq<string>, name: string) returns (c: nat)
    requires name in Elements(names)
    ensures c < |names| && names[c] == name
  {
    c :| 0 <= c < |names| && names[c] == name;
  }
}
