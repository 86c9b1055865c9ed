/** What a resolved configuration says, field by field, of the document it came from. */
module ResolvedDocument {
  import opened Strings
  import opened FirstOccurrences
  import opened ConfigResolver

  // --- Routes -----------------------------------------------------------------------------------

  /** The configured targets of one priority, in the configured order. */
  function AskedWith(targets: seq<TargetConfig>, p: nat): seq<TargetConfig> {
    if targets == [] then []
    else if targets[0].priority == p then [targets[0]] + AskedWith(targets[1..], p)
    else AskedWith(targets[1..], p)
  }

  /** The served target carries every setting of the configured one, and the kind of the pool it names. */
  ghost predicate Carries(t: RouteTarget, asked: TargetConfig, pools: map<string, Pool>) {
    && t.channelId == Trim(asked.channel) && t.channelId in pools && t.providerKind == pools[t.channelId].providerKind
    && t.upstreamModel == asked.upstreamModel
    && t.priority == asked.priority && t.weight == asked.weight && t.enabled == asked.enabled
  }

  ghost predicate CarriesAll(targets: seq<RouteTarget>, asked: seq<TargetConfig>, pools: map<string, Pool>) {
    |targets| == |asked| && forall i :: 0 <= i < |asked| ==> Carries(targets[i], asked[i], pools)
  }

  lemma {:induction false} CarriesEachPriority(given: seq<RouteTarget>, asked: seq<TargetConfig>,
                                               pools: map<string, Pool>, p: nat)
    requires CarriesAll(given, asked, pools)
    ensures CarriesAll(WithPriority(given, p), AskedWith(asked, p), pools)
  {
    if given != [] {
      assert Carries(given[0], asked[0], pools);
      CarriesEachPriority(given[1..], asked[1..], pools, p);
    }
  }

  lemma {:induction false} CountByPriority(targets: seq<RouteTarget>, t: RouteTarget)
    ensures multiset(WithPriority(targets, t.priority))[t] == multiset(targets)[t]
  {
    if targets != [] {
      CountByPriority(targets[1..], t);
      assert targets == [targets[0]] + targets[1..];
    }
  }

  /** Sequences that agree priority by priority hold the same targets as often. */
  lemma SameTargets(a: seq<RouteTarget>, b: seq<RouteTarget>)
    requires SamePriorityOrder(a, b)
    ensures multiset(a) == multiset(b) && |a| == |b|
  {
    forall t: RouteTarget ensures multiset(a)[t] == multiset(b)[t] {
      CountByPriority(a, t);
      CountByPriority(b, t);
      assert WithPriority(a, t.priority) == WithPriority(b, t.priority);
    }
    assert multiset(a) == multiset(b);
    assert |a| == |multiset(a)| && |b| == |multiset(b)|;
  }

  lemma ServedCarries(served: seq<RouteTarget>, route: RouteConfig, pools: map<string, Pool>, p: nat)
    requires ServesTargets(served, route, pools)
    ensures |served| == |route.targets|
    ensures CarriesAll(WithPriority(served, p), AskedWith(route.targets, p), pools)
  {
    var given: seq<RouteTarget> :| GivenTargets(given, route, pools) && SamePriorityOrder(served, given);
    SameTargets(served, given);
    CarriesEachPriority(given, route.targets, pools, p);
    assert WithPriority(served, p) == WithPriority(given, p);
  }

  /**
   A resolved route has as many targets as the configured one, by ascending priority; the targets of one priority are
   those configured with it, in the configured order and with every setting kept.
   */
  lemma RouteReadsTargets(doc: Document, hash: string -> string, cfg: ResolvedConfig, model: string, p: nat)
    requires Resolves(doc, hash, cfg) && model in doc.modelRoutes
    ensures model in cfg.modelRoutes && PrioritySorted(cfg.modelRoutes[model])
    ensures |cfg.modelRoutes[model]| == |doc.modelRoutes[model].targets|
    ensures CarriesAll(WithPriority(cfg.modelRoutes[model], p), AskedWith(doc.modelRoutes[model].targets, p), cfg.pools)
  {
    ServedCarries(cfg.modelRoutes[model], doc.modelRoutes[model], cfg.pools, p);
  }

  // --- Client tokens ----------------------------------------------------------------------------

  /** The names configured, trimmed, each once and in the order of their first occurrence. */
  ghost predicate ListsOnce(names: seq<string>, configured: seq<string>) {
    && Distinct(names)
    && (forall name :: name in names <==> exists i :: 0 <= i < |configured| && Trim(configured[i]) == name)
    && forall a, b :: 0 <= a < b < |names| ==> FirstTrim(configured, names[a]) < FirstTrim(configured, names[b])
  }

  /** The first position whose trimmed value is the name, or the length. */
  function FirstTrim(configured: seq<string>, name: string): nat {
    if configured == [] || Trim(configured[0]) == name then 0 else 1 + FirstTrim(configured[1..], name)
  }

  lemma {:induction false} FirstTrimOfSnoc(configured: seq<string>, last: string, name: string)
    ensures FirstTrim(configured, name) <= |configured|
    ensures FirstTrim(configured, name) < |configured| <==> name in Trims(configured)
    ensures name in Trims(configured) ==> FirstTrim(configured + [last], name) == FirstTrim(configured, name)
    ensures name !in Trims(configured) && Trim(last) == name ==> FirstTrim(configured + [last], name) == |configured|
  {
    if configured != [] {
      FirstTrimOfSnoc(configured[1..], last, name);
      assert Trims(configured) == [Trim(configured[0])] + Trims(configured[1..]);
      assert (configured + [last])[1..] == configured[1..] + [last];
    }
  }

  lemma DeduplicatedHolds(configured: seq<string>, name: string)
    ensures name in Deduplicated(configured) <==> exists i :: 0 <= i < |configured| && Trim(configured[i]) == name
  {
    FirstsElements(Trims(configured), {});
    assert name in Elements(Deduplicated(configured)) <==> name in Elements(Trims(configured));
    if i :| 0 <= i < |configured| && Trim(configured[i]) == name {
      assert Trims(configured)[i] == name;
    }
  }

  lemma DeduplicatedOfSnoc(init: seq<string>, last: string)
    ensures Deduplicated(init + [last])
            == Deduplicated(init) + if Trim(last) in Trims(init) then [] else [Trim(last)]
  {
    var all := Trims(init + [last]);
    assert all[..|all| - 1] == Trims(init) && all[|all| - 1] == Trim(last);
  }

  lemma {:induction false} DeduplicatedListsOnce(configured: seq<string>)
    ensures ListsOnce(Deduplicated(configured), configured)
  {
    FirstsAreDistinct(Trims(configured), {});
    forall name {
      DeduplicatedHolds(configured, name);
    }
    if configured != [] {
      var init, last := configured[..|configured| - 1], configured[|configured| - 1];
      assert configured == init + [last];
      DeduplicatedListsOnce(init);
      DeduplicatedOfSnoc(init, last);
      forall a, b | 0 <= a < b < |Deduplicated(configured)| {
        SnocKeepsOrder(init, last, Deduplicated(configured), a, b);
      }
    }
  }

  lemma SnocKeepsOrder(init: seq<string>, last: string, names: seq<string>, a: nat, b: nat)
    requires ListsOnce(Deduplicated(init), init) && a < b < |names|
    requires names == Deduplicated(init) || (names == Deduplicated(init) + [Trim(last)] && Trim(last) !in Trims(init))
    ensures FirstTrim(init + [last], names[a]) < FirstTrim(init + [last], names[b])
  {
    var before := Deduplicated(init);
    assert names[a] == before[a] && before[a] in before;
    FirstsElements(Trims(init), {});
    assert names[a] in Elements(before);
    FirstTrimOfSnoc(init, last, names[a]);
    FirstTrimOfSnoc(init, last, names[b]);
    if b < |before| {
      assert names[b] == before[b] && before[b] in Elements(before);
    }
  }

  /** Every configured token is resolved at its place, with its own name, secret, flag and groups, and its channels. */
  lemma TokenReadsDocument(doc: Document, hash: string -> string, cfg: ResolvedConfig, i: nat)
    requires Resolves(doc, hash, cfg) && i < |doc.clientTokens|
    ensures |cfg.clientTokens| == |doc.clientTokens|
    ensures var token, configured := cfg.clientTokens[i], doc.clientTokens[i];
            && token.name == Trim(configured.name) && token.tokenHash == hash(Trim(configured.token))
            && token.enabled == configured.enabled && token.allowedModelGroups == configured.allowedModelGroups
            && ListsOnce(token.allowedChannels, configured.allowedChannels)
  {
    DeduplicatedListsOnce(doc.clientTokens[i].allowedChannels);
  }

  // --- Pools and groups -------------------------------------------------------------------------

  /** Every pool stands under its trimmed id, and every group lists its trimmed members once. */
  lemma TablesReadDocument(doc: Document, hash: string -> string, cfg: ResolvedConfig)
    requires Resolves(doc, hash, cfg)
    ensures forall i :: 0 <= i < |doc.pools| ==>
              Trim(doc.pools[i].0) in cfg.pools && cfg.pools[Trim(doc.pools[i].0)] == doc.pools[i].1
    ensures forall i :: 0 <= i < |doc.modelGroups| ==>
              Trim(doc.modelGroups[i].0) in cfg.modelGroups
              && ListsOnce(cfg.modelGroups[Trim(doc.modelGroups[i].0)], doc.modelGroups[i].1)
    ensures forall id <- cfg.pools :: exists i :: 0 <= i < |doc.pools| && Trim(doc.pools[i].0) == id
    ensures forall id <- cfg.modelGroups :: exists i :: 0 <= i < |doc.modelGroups| && Trim(doc.modelGroups[i].0) == id
  {
    forall i | 0 <= i < |doc.pools|
      ensures Trim(doc.pools[i].0) in cfg.pools && cfg.pools[Trim(doc.pools[i].0)] == doc.pools[i].1
    {
      assert Ids(doc.pools)[i] == Trim(doc.pools[i].0);
    }
    forall i | 0 <= i < |doc.modelGroups|
      ensures Trim(doc.modelGroups[i].0) in cfg.modelGroups
              && ListsOnce(cfg.modelGroups[Trim(doc.modelGroups[i].0)], doc.modelGroups[i].1)
    {
      assert Ids(doc.modelGroups)[i] == Trim(doc.modelGroups[i].0);
      DeduplicatedListsOnce(doc.modelGroups[i].1);
    }
    forall id <- cfg.pools ensures exists i :: 0 <= i < |doc.pools| && Trim(doc.pools[i].0) == id {
      assert id in Elements(Ids(doc.pools));
    }
    forall id <- cfg.modelGroups ensures exists i :: 0 <= i < |doc.modelGroups| && Trim(doc.modelGroups[i].0) == id {
      assert id in Elements(Ids(doc.modelGroups));
    }
  }
}
