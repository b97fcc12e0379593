/** What a deployed cluster means to the gateway: resources replace each other by kind and name, so of several
    models whose route names collide only one keeps its route (apps/authz/kubernetes.py:80-105 with
    apps/authz/policies.py:155-170). */
module DeployedRouting {
  import opened Common
  import opened RouteNames
  import opened Policies
  import opened PolicyRouting
  import opened Kubernetes

  /** The cluster's managed resources are exactly those the database compiles to. */
  ghost predicate Current(r: Resources, cfg: Config, db: AuthDb) {
    var compiled := Compile(cfg, Grants(Query(db)));
    compiled.Ok? && Managed(r) == DocMap(compiled.value)
  }

  /** Every successful deployment leaves a current cluster. */
  lemma ReconciledIsCurrent(c: Resources, cfg: Config, db: AuthDb, docs: seq<Document>)
    requires Compile(cfg, Grants(Query(db))) == Ok(docs)
    ensures Current(Reconciled(c, docs), cfg, db)
  {
    CompiledDocumentsQualify(cfg, Grants(Query(db)), docs);
    ReconciledIsDesired(c, docs);
  }

  function RouteKey(cfg: Config, g: Grant): ResourceKey { ResourceKey(RouteKind, Name(cfg, g)) }

  function QuotaKey(cfg: Config, g: Grant): ResourceKey { ResourceKey(TrafficKind, Name(cfg, g) + "-quota") }

  const POLICY_KEY := ResourceKey(SecurityKind, AUTH_POLICY_NAME)

  /** The managed routes that accept a request. */
  function RoutesFor(r: Resources, headers: map<string, string>): set<ResourceKey> {
    set k | k in r && IsManaged(r[k]) && Matches(r[k], headers)
  }

  /** The managed quotas aimed at a route. */
  function QuotasOn(r: Resources, route: string): set<ResourceKey> {
    set k | k in r && IsManaged(r[k]) && Limiting(route)(r[k])
  }

  // ---------- which document is left under a name ----------

  /** The last grant whose route has that name. */
  function LastNamed(cfg: Config, gs: seq<Grant>, name: string): Option<Grant> {
    if gs == [] then None
    else if Name(cfg, gs[|gs| - 1]) == name then Some(gs[|gs| - 1])
    else LastNamed(cfg, gs[..|gs| - 1], name)
  }

  /** The resources of the grants: under each route name, the last grant's route and quota. */
  ghost predicate HoldsLast(cfg: Config, gs: seq<Grant>, name: string, m: Resources)
    requires AllBacked(cfg, gs)
  {
    var route, quota := ResourceKey(RouteKind, name), ResourceKey(TrafficKind, name + "-quota");
    match LastNamed(cfg, gs, name)
    case None => route !in m && quota !in m
    case Some(g) => Backed(cfg, g) && route in m && m[route] == RouteDocument(cfg, g) && quota in m && m[quota] == QuotaDocument(cfg, g)
  }

  lemma SameSuffix(a: string, b: string)
    ensures a + "-quota" == b + "-quota" <==> a == b
  {
    if a + "-quota" == b + "-quota" {
      assert a == (a + "-quota")[..|a|] && b == (b + "-quota")[..|b|];
    }
  }

  lemma PairStored(cfg: Config, front: seq<Grant>, g: Grant)
    requires AllBacked(cfg, front) && Backed(cfg, g)
    ensures AllBacked(cfg, front + [g])
    ensures DocMap(GrantDocs(cfg, front + [g])) ==
            DocMap(GrantDocs(cfg, front))[RouteKey(cfg, g) := RouteDocument(cfg, g)][QuotaKey(cfg, g) := QuotaDocument(cfg, g)]
  {
    OneMoreGrant(cfg, front, g);
    var docs, r, q := GrantDocs(cfg, front), RouteDocument(cfg, g), QuotaDocument(cfg, g);
    assert docs + [r, q] == (docs + [r]) + [q];
    DocMapSnoc(docs + [r], q);
    DocMapSnoc(docs, r);
  }

  lemma OneMoreHoldsLast(cfg: Config, front: seq<Grant>, g: Grant, name: string)
    requires AllBacked(cfg, front) && Backed(cfg, g) && HoldsLast(cfg, front, name, DocMap(GrantDocs(cfg, front)))
    ensures AllBacked(cfg, front + [g]) && HoldsLast(cfg, front + [g], name, DocMap(GrantDocs(cfg, front + [g])))
  {
    PairStored(cfg, front, g);
    assert (front + [g])[..|front|] == front;
    SameSuffix(Name(cfg, g), name);
  }

  lemma {:induction false} GrantsHoldLast(cfg: Config, gs: seq<Grant>, name: string)
    requires AllBacked(cfg, gs)
    ensures HoldsLast(cfg, gs, name, DocMap(GrantDocs(cfg, gs)))
    decreases |gs|
  {
    if gs == [] {
    } else {
      GrantsHoldLast(cfg, gs[..|gs| - 1], name);
      OneMoreHoldsLast(cfg, gs[..|gs| - 1], gs[|gs| - 1], name);
      assert gs == gs[..|gs| - 1] + [gs[|gs| - 1]];
    }
  }

  lemma DocumentsHoldLast(cfg: Config, gs: seq<Grant>, docs: seq<Document>, name: string)
    requires Compile(cfg, gs) == Ok(docs)
    ensures HoldsLast(cfg, gs, name, DocMap(docs))
    ensures POLICY_KEY in DocMap(docs) ==> DocMap(docs)[POLICY_KEY] == SecurityPolicyDocument(Names(cfg, gs))
    ensures POLICY_KEY in DocMap(docs) <==> gs != []
  {
    GrantsHoldLast(cfg, gs, name);
    if gs != [] { DocMapSnoc(GrantDocs(cfg, gs), SecurityPolicyDocument(Names(cfg, gs))); }
  }

  // ---------- which grant is the last ----------

  ghost predicate InModelOrder(gs: seq<Grant>) {
    forall i, j :: 0 <= i < j < |gs| && gs[i].pk == gs[j].pk ==> LexLeq(gs[i].limit.model, gs[j].limit.model)
  }

  ghost predicate ModelsAscend(limits: seq<ModelLimit>) {
    forall i, j :: 0 <= i < j < |limits| ==> LexLeq(limits[i].model, limits[j].model)
  }

  lemma {:induction false} GrantsInModelOrder(ps: seq<PolicyProject>)
    requires forall i, j :: 0 <= i < j < |ps| ==> ps[i].pk != ps[j].pk
    requires forall p :: p in ps ==> ModelsAscend(p.limits)
    ensures InModelOrder(Grants(ps))
    decreases |ps|
  {
    if ps == [] {
    } else {
      var front, last := ps[..|ps| - 1], ps[|ps| - 1];
      assert ps == front + [last];
      GrantsInModelOrder(front);
      var gs := Grants(front);
      forall i | 0 <= i < |gs| ensures gs[i].pk != last.pk {
        GrantsContents(front);
        assert gs[i] in gs;
        var p :| p in front && p.pk == gs[i].pk;
        var n :| 0 <= n < |front| && front[n] == p;
        assert ps[n].pk != ps[|ps| - 1].pk;
      }
      AppendInModelOrder(gs, last);
    }
  }

  lemma AppendInModelOrder(gs: seq<Grant>, p: PolicyProject)
    requires InModelOrder(gs) && ModelsAscend(p.limits) && forall i :: 0 <= i < |gs| ==> gs[i].pk != p.pk
    ensures InModelOrder(gs + ProjectGrants(p.pk, p.limits))
  {
    var all := gs + ProjectGrants(p.pk, p.limits);
    forall i, j | 0 <= i < j < |all| && all[i].pk == all[j].pk ensures LexLeq(all[i].limit.model, all[j].limit.model) {
      if j >= |gs| { assert i >= |gs|; }
    }
  }

  lemma ModelLimitsAscend(limits: map<string, LimitRow>)
    ensures ModelsAscend(ModelLimits(limits))
  {
    LexIsTotalOrder();
  }

  lemma QueryInModelOrder(db: AuthDb)
    ensures InModelOrder(Grants(Query(db)))
  {
    QueryContents(db);
    forall p | p in Query(db) ensures ModelsAscend(p.limits) { ModelLimitsAscend(LimitsOf(db, p.pk)); }
    GrantsInModelOrder(Query(db));
  }

  lemma {:induction false} LastNamedIsLast(cfg: Config, gs: seq<Grant>, g: Grant) returns (n: nat)
    requires g in gs
    ensures n < |gs| && Name(cfg, gs[n]) == Name(cfg, g) && LastNamed(cfg, gs, Name(cfg, g)) == Some(gs[n])
    ensures forall j :: n < j < |gs| ==> Name(cfg, gs[j]) != Name(cfg, g)
    decreases |gs|
  {
    var front, last := gs[..|gs| - 1], gs[|gs| - 1];
    assert gs == front + [last];
    if Name(cfg, last) == Name(cfg, g) {
      n := |gs| - 1;
    } else {
      n := LastNamedIsLast(cfg, front, g);
    }
  }

  /** Among the models of its class with the same slug and digest, this one comes last in code-point order. */
  ghost predicate Prevails(cfg: Config, db: AuthDb, pk: nat, model: string) {
    forall other :: other in LimitsOf(db, pk)
      && Slug(cfg.naming.lower(other)) == Slug(cfg.naming.lower(model)) && cfg.naming.digest(other) == cfg.naming.digest(model)
      ==> LexLeq(other, model)
  }

  lemma LastNamedPrevails(cfg: Config, db: AuthDb, pk: nat, model: string)
    requires Referential(db) && Usable(cfg.naming) && model in LimitsOf(db, pk)
    ensures var last := LastNamed(cfg, Grants(Query(db)), Name(cfg, GrantOf(db, pk, model)));
            && last.Some? && last.value.pk == pk && last.value.limit.model in LimitsOf(db, pk)
            && last.value == GrantOf(db, pk, last.value.limit.model)
            && (last.value.limit.model == model <==> Prevails(cfg, db, pk, model))
  {
    var gs, g := Grants(Query(db)), GrantOf(db, pk, model);
    QueryGrants(db);
    QueryInModelOrder(db);
    var n := LastNamedIsLast(cfg, gs, g);
    var last := gs[n];
    assert last in gs;
    SameNameSameProject(cfg, last, g);
    forall other | other in LimitsOf(db, pk)
        && Slug(cfg.naming.lower(other)) == Slug(cfg.naming.lower(model)) && cfg.naming.digest(other) == cfg.naming.digest(model)
      ensures LexLeq(other, last.limit.model)
    {
      NotAfterLast(cfg, db, GrantOf(db, pk, other), g, n);
    }
    if Prevails(cfg, db, pk, model) { LexTotal(last.limit.model, model); }
  }

  lemma NotAfterLast(cfg: Config, db: AuthDb, h: Grant, g: Grant, n: nat)
    requires Usable(cfg.naming) && h in Grants(Query(db)) && n < |Grants(Query(db))| && h.pk == g.pk
    requires Slug(cfg.naming.lower(h.limit.model)) == Slug(cfg.naming.lower(g.limit.model))
    requires cfg.naming.digest(h.limit.model) == cfg.naming.digest(g.limit.model)
    requires Name(cfg, Grants(Query(db))[n]) == Name(cfg, g)
    requires forall j :: n < j < |Grants(Query(db))| ==> Name(cfg, Grants(Query(db))[j]) != Name(cfg, g)
    requires InModelOrder(Grants(Query(db)))
    ensures LexLeq(h.limit.model, Grants(Query(db))[n].limit.model)
  {
    var gs := Grants(Query(db));
    SameNameSameProject(cfg, h, g);
    SameNameSameProject(cfg, gs[n], g);
    var j :| 0 <= j < |gs| && gs[j] == h;
    if j == n { LexTotal(h.limit.model, h.limit.model); }
  }

  /** A class's models all prevail exactly when no two of them collide. */
  lemma AllPrevailWithoutCollision(cfg: Config, db: AuthDb, pk: nat)
    ensures (forall model :: model in LimitsOf(db, pk) ==> Prevails(cfg, db, pk, model)) <==>
            (forall model :: model in LimitsOf(db, pk) ==> NoCollision(cfg, db, pk, model))
  {
    if forall model :: model in LimitsOf(db, pk) ==> Prevails(cfg, db, pk, model) {
      forall model, other | model in LimitsOf(db, pk) && other in LimitsOf(db, pk) && other != model
        ensures Slug(cfg.naming.lower(other)) != Slug(cfg.naming.lower(model)) || cfg.naming.digest(other) != cfg.naming.digest(model)
      {
        assert Prevails(cfg, db, pk, model) && Prevails(cfg, db, pk, other);
        LexTotal(model, other);
      }
    }
    if forall model :: model in LimitsOf(db, pk) ==> NoCollision(cfg, db, pk, model) {
      forall model | model in LimitsOf(db, pk) ensures Prevails(cfg, db, pk, model) {
        assert NoCollision(cfg, db, pk, model);
        LexTotal(model, model);
      }
    }
  }

  // ---------- routing in a current cluster ----------

  lemma ManagedAre(r: Resources, cfg: Config, db: AuthDb, k: ResourceKey)
    requires Current(r, cfg, db)
    ensures var docs := Compile(cfg, Grants(Query(db))).value;
            && (k in r && IsManaged(r[k]) <==> k in DocMap(docs))
            && (k in DocMap(docs) ==> r[k] == DocMap(docs)[k] && r[k] in docs && KeyOf(r[k]) == k)
  {
    var docs := Compile(cfg, Grants(Query(db))).value;
    DocMapContents(docs);
    assert k in Managed(r) <==> k in DocMap(docs);
  }

  /** A managed route that takes the request is the one compiled for it. */
  lemma AcceptedByItsOwn(r: Resources, cfg: Config, db: AuthDb, headers: map<string, string>, pk: nat, model: string, k: ResourceKey)
    requires Referential(db) && Current(r, cfg, db) && RequestFor(headers, pk, model) && k in RoutesFor(r, headers)
    ensures model in LimitsOf(db, pk) && var g := GrantOf(db, pk, model);
            Backed(cfg, g) && k == RouteKey(cfg, g) && r[k] == RouteDocument(cfg, g)
  {
    var gs, docs := Grants(Query(db)), Compile(cfg, Grants(Query(db))).value;
    ManagedAre(r, cfg, db, k);
    CompiledContents(cfg, gs, docs);
    QueryGrants(db);
    var i :| 0 <= i < |gs| && (r[k] == RouteDocument(cfg, gs[i]) || r[k] == QuotaDocument(cfg, gs[i]));
    assert gs[i] in gs;
    RouteMatch(cfg, gs[i], headers, pk, model);
  }

  /** Exactly one managed route takes a request for a model that its project's class limits and that prevails
      among the models it collides with; any other request reaches none. */
  lemma RequestReachesDeployedRoute(r: Resources, cfg: Config, db: AuthDb, headers: map<string, string>, pk: nat, model: string)
    requires Referential(db) && Usable(cfg.naming) && Current(r, cfg, db) && RequestFor(headers, pk, model)
    ensures model in LimitsOf(db, pk) && Prevails(cfg, db, pk, model) ==>
              var g := GrantOf(db, pk, model);
              && Backed(cfg, g) && RoutesFor(r, headers) == {RouteKey(cfg, g)}
              && RouteKey(cfg, g) in r && r[RouteKey(cfg, g)] == RouteDocument(cfg, g)
    ensures !(model in LimitsOf(db, pk) && Prevails(cfg, db, pk, model)) ==> RoutesFor(r, headers) == {}
  {
    var gs, docs := Grants(Query(db)), Compile(cfg, Grants(Query(db))).value;
    forall k | k in RoutesFor(r, headers) ensures model in LimitsOf(db, pk) && k == RouteKey(cfg, GrantOf(db, pk, model)) {
      AcceptedByItsOwn(r, cfg, db, headers, pk, model, k);
    }
    if model in LimitsOf(db, pk) {
      var g := GrantOf(db, pk, model);
      BackedGrant(cfg, db, docs, pk, model);
      LastNamedPrevails(cfg, db, pk, model);
      DocumentsHoldLast(cfg, gs, docs, Name(cfg, g));
      ManagedAre(r, cfg, db, RouteKey(cfg, g));
      RouteMatch(cfg, LastNamed(cfg, gs, Name(cfg, g)).value, headers, pk, model);
    }
  }

  /** The quota under a limited model's name is the last namesake's. */
  lemma QuotaInPlace(r: Resources, cfg: Config, db: AuthDb, pk: nat, model: string) returns (winner: string)
    requires Referential(db) && Usable(cfg.naming) && Current(r, cfg, db) && model in LimitsOf(db, pk)
    ensures winner in LimitsOf(db, pk) && (winner == model <==> Prevails(cfg, db, pk, model))
    ensures LastNamed(cfg, Grants(Query(db)), Name(cfg, GrantOf(db, pk, model))) == Some(GrantOf(db, pk, winner))
    ensures var key := QuotaKey(cfg, GrantOf(db, pk, model));
            key in r && IsManaged(r[key]) && r[key] == QuotaDocument(cfg, GrantOf(db, pk, winner))
  {
    var gs, docs, g := Grants(Query(db)), Compile(cfg, Grants(Query(db))).value, GrantOf(db, pk, model);
    LastNamedPrevails(cfg, db, pk, model);
    DocumentsHoldLast(cfg, gs, docs, Name(cfg, g));
    ManagedAre(r, cfg, db, QuotaKey(cfg, g));
    winner := LastNamed(cfg, gs, Name(cfg, g)).value.limit.model;
  }

  /** On the route of a limited model there is exactly one managed quota, the prevailing model's; it carries
      the model's own limits if the model prevails. */
  lemma DeployedRouteCarriesItsQuota(r: Resources, cfg: Config, db: AuthDb, pk: nat, model: string)
    requires Referential(db) && Usable(cfg.naming) && Current(r, cfg, db) && model in LimitsOf(db, pk)
    ensures var g := GrantOf(db, pk, model);
            && QuotasOn(r, Name(cfg, g)) == {QuotaKey(cfg, g)} && QuotaKey(cfg, g) in r
            && (exists winner :: winner in LimitsOf(db, pk) && Prevails(cfg, db, pk, winner)
                  && Name(cfg, GrantOf(db, pk, winner)) == Name(cfg, g)
                  && r[QuotaKey(cfg, g)] == QuotaDocument(cfg, GrantOf(db, pk, winner)))
            && (Prevails(cfg, db, pk, model) ==>
                  r[QuotaKey(cfg, g)] == QuotaDocument(cfg, g) && ChargesItsLimit(cfg, db, pk, model))
  {
    var g := GrantOf(db, pk, model);
    var winner := QuotaInPlace(r, cfg, db, pk, model);
    WinnerPrevails(cfg, db, pk, model, winner);
    BackedGrant(cfg, db, Compile(cfg, Grants(Query(db))).value, pk, model);
    QuotaCharges(cfg, db, pk, model);
    forall k | k in QuotasOn(r, Name(cfg, g)) ensures k == QuotaKey(cfg, g) { LimitedByItsKey(r, cfg, db, Name(cfg, g), k); }
  }

  lemma LimitedByItsKey(r: Resources, cfg: Config, db: AuthDb, name: string, k: ResourceKey)
    requires Current(r, cfg, db) && k in QuotasOn(r, name)
    ensures k == ResourceKey(TrafficKind, name + "-quota")
  {
    var gs, docs := Grants(Query(db)), Compile(cfg, Grants(Query(db))).value;
    ManagedAre(r, cfg, db, k);
    CompiledContents(cfg, gs, docs);
    var i :| 0 <= i < |gs| && (r[k] == RouteDocument(cfg, gs[i]) || r[k] == QuotaDocument(cfg, gs[i]));
  }

  lemma WinnerPrevails(cfg: Config, db: AuthDb, pk: nat, model: string, winner: string)
    requires Referential(db) && Usable(cfg.naming) && model in LimitsOf(db, pk) && winner in LimitsOf(db, pk)
    requires LastNamed(cfg, Grants(Query(db)), Name(cfg, GrantOf(db, pk, model))) == Some(GrantOf(db, pk, winner))
    ensures Prevails(cfg, db, pk, winner) && Name(cfg, GrantOf(db, pk, winner)) == Name(cfg, GrantOf(db, pk, model))
  {
    QueryGrants(db);
    var n := LastNamedIsLast(cfg, Grants(Query(db)), GrantOf(db, pk, model));
    LastNamedPrevails(cfg, db, pk, winner);
  }

  /** A request without any other header. */
  function Request(pk: nat, model: string): map<string, string> {
    map[PROJECT_ID_HEADER := Dec(pk), MODEL_HEADER := model]
  }

  lemma RequestIsFor(pk: nat, model: string)
    ensures RequestFor(Request(pk, model), pk, model)
  {
    assert |PROJECT_ID_HEADER| != |MODEL_HEADER|;
  }

  /** Every model of a project's class reaches a route exactly when no two of them collide. */
  lemma AllRoutedWithoutCollision(r: Resources, cfg: Config, db: AuthDb, pk: nat)
    requires Referential(db) && Usable(cfg.naming) && Current(r, cfg, db)
    ensures (forall model :: model in LimitsOf(db, pk) ==> RoutesFor(r, Request(pk, model)) != {}) <==>
            (forall model :: model in LimitsOf(db, pk) ==> NoCollision(cfg, db, pk, model))
  {
    AllPrevailWithoutCollision(cfg, db, pk);
    forall model | model in LimitsOf(db, pk)
      ensures RoutesFor(r, Request(pk, model)) != {} <==> Prevails(cfg, db, pk, model)
    {
      RequestIsFor(pk, model);
      RequestReachesDeployedRoute(r, cfg, db, Request(pk, model), pk, model);
    }
  }

  lemma PolicyInstalled(r: Resources, cfg: Config, db: AuthDb)
    requires Current(r, cfg, db) && POLICY_KEY in Managed(r)
    ensures r[POLICY_KEY] == SecurityPolicyDocument(Names(cfg, Grants(Query(db))))
  {
    DocumentsHoldLast(cfg, Grants(Query(db)), Compile(cfg, Grants(Query(db))).value, "");
    ManagedAre(r, cfg, db, POLICY_KEY);
  }

  /** A current cluster lacks the authorization policy only if it has no route that needs it. */
  lemma RoutesArePoliced(r: Resources, cfg: Config, db: AuthDb, k: ResourceKey)
    requires Current(r, cfg, db) && k in Managed(r)
    ensures POLICY_KEY in Managed(r)
    ensures k.kind == RouteKind ==> k.name in Targets(r[POLICY_KEY])
  {
    var gs, docs := Grants(Query(db)), Compile(cfg, Grants(Query(db))).value;
    DocumentsHoldLast(cfg, gs, docs, "");
    ManagedAre(r, cfg, db, k);
    ManagedAre(r, cfg, db, POLICY_KEY);
    CompiledReferencesClosed(cfg, gs, docs);
    if k.kind == RouteKind { assert k.name in RouteNamesIn(docs); }
  }
}
