/** The compiled documents as a list: which route documents a request matches and which quota documents are
    aimed at them (apps/authz/policies.py:155-170 with apps/authz/models.py:107-112). */
module PolicyRouting {
  import opened Common
  import opened RouteNames
  import opened Policies

  /** The gateway's exact header match. */
  predicate Matches(d: Document, headers: map<string, string>) {
    d.AIGatewayRoute? && forall i :: 0 <= i < |d.matches| ==>
      d.matches[i].name in headers && headers[d.matches[i].name] == d.matches[i].value
  }

  function Accepting(headers: map<string, string>): Document -> bool { d => Matches(d, headers) }

  function Limiting(route: string): Document -> bool { (d: Document) => d.BackendTrafficPolicy? && d.target == route }

  function ForRequest(pk: nat, model: string): Grant -> bool { (g: Grant) => g.pk == pk && g.limit.model == model }

  function NamedAs(cfg: Config, name: string): Grant -> bool { g => Name(cfg, g) == name }

  function RouteDocs(cfg: Config, gs: seq<Grant>): seq<Document>
    requires AllBacked(cfg, gs)
  {
    seq(|gs|, i requires 0 <= i < |gs| => RouteDocument(cfg, gs[i]))
  }

  function QuotaDocs(cfg: Config, gs: seq<Grant>): seq<Document> {
    seq(|gs|, i requires 0 <= i < |gs| => QuotaDocument(cfg, gs[i]))
  }

  /** The headers of a request for a model, after authorization named its project. */
  predicate RequestFor(headers: map<string, string>, pk: nat, model: string) {
    && PROJECT_ID_HEADER in headers && headers[PROJECT_ID_HEADER] == Dec(pk)
    && MODEL_HEADER in headers && headers[MODEL_HEADER] == model
  }

  lemma RouteMatch(cfg: Config, g: Grant, headers: map<string, string>, pk: nat, model: string)
    requires Backed(cfg, g) && RequestFor(headers, pk, model)
    ensures Matches(RouteDocument(cfg, g), headers) <==> g.pk == pk && g.limit.model == model
  {
    var d := RouteDocument(cfg, g);
    assert d.matches[0].value == Dec(g.pk) && d.matches[1].value == g.limit.model;
    if Dec(g.pk) == Dec(pk) { DecInjective(g.pk, pk); }
  }

  lemma AcceptingPair(cfg: Config, docs: seq<Document>, g: Grant, headers: map<string, string>, pk: nat, model: string)
    requires Backed(cfg, g) && RequestFor(headers, pk, model)
    ensures Filter(docs + [RouteDocument(cfg, g), QuotaDocument(cfg, g)], Accepting(headers)) ==
            Filter(docs, Accepting(headers)) + if ForRequest(pk, model)(g) then [RouteDocument(cfg, g)] else []
  {
    RouteMatch(cfg, g, headers, pk, model);
    FilterAppend(docs, [RouteDocument(cfg, g), QuotaDocument(cfg, g)], Accepting(headers));
    FilterPair(RouteDocument(cfg, g), QuotaDocument(cfg, g), Accepting(headers));
  }

  lemma {:induction false} AcceptingRoutes(cfg: Config, gs: seq<Grant>, headers: map<string, string>, pk: nat, model: string)
    requires AllBacked(cfg, gs) && RequestFor(headers, pk, model)
    ensures AllBacked(cfg, Filter(gs, ForRequest(pk, model)))
    ensures Filter(GrantDocs(cfg, gs), Accepting(headers)) == RouteDocs(cfg, Filter(gs, ForRequest(pk, model)))
    decreases |gs|
  {
    if gs == [] {
    } else {
      AcceptingRoutes(cfg, gs[..|gs| - 1], headers, pk, model);
      AcceptingPair(cfg, GrantDocs(cfg, gs[..|gs| - 1]), gs[|gs| - 1], headers, pk, model);
    }
  }

  lemma {:induction false} LimitingQuotas(cfg: Config, gs: seq<Grant>, route: string)
    requires AllBacked(cfg, gs)
    ensures Filter(GrantDocs(cfg, gs), Limiting(route)) == QuotaDocs(cfg, Filter(gs, NamedAs(cfg, route)))
    decreases |gs|
  {
    if gs == [] {
    } else {
      var front, g := gs[..|gs| - 1], gs[|gs| - 1];
      LimitingQuotas(cfg, front, route);
      FilterAppend(GrantDocs(cfg, front), [RouteDocument(cfg, g), QuotaDocument(cfg, g)], Limiting(route));
      FilterPair(RouteDocument(cfg, g), QuotaDocument(cfg, g), Limiting(route));
    }
  }

  // ---------- the grants of a database ----------

  ghost predicate DistinctGrants(gs: seq<Grant>) {
    forall i, j :: 0 <= i < j < |gs| ==> gs[i].pk != gs[j].pk || gs[i].limit.model != gs[j].limit.model
  }

  ghost predicate DistinctProjects(ps: seq<PolicyProject>) {
    && (forall i, j :: 0 <= i < j < |ps| ==> ps[i].pk != ps[j].pk)
    && (forall p, i, j :: p in ps && 0 <= i < j < |p.limits| ==> p.limits[i].model != p.limits[j].model)
  }

  lemma {:induction false} GrantsContents(ps: seq<PolicyProject>)
    ensures forall g :: g in Grants(ps) <==> exists p :: p in ps && p.pk == g.pk && g.limit in p.limits
    ensures DistinctProjects(ps) ==> DistinctGrants(Grants(ps))
    decreases |ps|
  {
    if ps == [] {
    } else {
      var front, last := ps[..|ps| - 1], ps[|ps| - 1];
      assert ps == front + [last];
      GrantsContents(front);
      var more := ProjectGrants(last.pk, last.limits);
      forall g ensures g in more <==> g.pk == last.pk && g.limit in last.limits {
        if g.pk == last.pk && g.limit in last.limits {
          var i :| 0 <= i < |last.limits| && last.limits[i] == g.limit;
          assert more[i] == g;
        }
      }
      if DistinctProjects(ps) {
        assert DistinctProjects(front);
        forall i, j | 0 <= i < j < |Grants(ps)|
          ensures Grants(ps)[i].pk != Grants(ps)[j].pk || Grants(ps)[i].limit.model != Grants(ps)[j].limit.model
        {
          if i < |Grants(front)| <= j {
            assert Grants(front)[i] in Grants(front);
            var p :| p in front && p.pk == Grants(front)[i].pk;
            var n :| 0 <= n < |front| && front[n] == p;
            assert ps[n].pk != ps[|ps| - 1].pk;
          }
        }
      }
    }
  }

  function GrantOf(db: AuthDb, pk: nat, model: string): Grant
    requires model in LimitsOf(db, pk)
  {
    var row := LimitsOf(db, pk)[model];
    Grant(pk, ModelLimit(model, row.daily, row.parallel))
  }

  lemma ModelLimitsContents(limits: map<string, LimitRow>)
    ensures var ls := ModelLimits(limits);
            && (forall l :: l in ls <==> l.model in limits && l == ModelLimit(l.model, limits[l.model].daily, limits[l.model].parallel))
            && (forall i, j :: 0 <= i < j < |ls| ==> ls[i].model != ls[j].model)
  {
    LexIsTotalOrder();
    var names, ls := Sorted(limits.Keys, LexLeq), ModelLimits(limits);
    forall l: ModelLimit | l.model in limits && l == ModelLimit(l.model, limits[l.model].daily, limits[l.model].parallel)
      ensures l in ls
    {
      assert l.model in names;
      var i :| 0 <= i < |names| && names[i] == l.model;
      assert ls[i] == l;
    }
    forall l | l in ls ensures l.model in limits && l == ModelLimit(l.model, limits[l.model].daily, limits[l.model].parallel) {
      var i :| 0 <= i < |ls| && ls[i] == l;
      assert names[i] in names;
    }
  }

  lemma QueryContents(db: AuthDb)
    ensures forall p: PolicyProject ::
              p in Query(db) <==> p.pk in ClassedProjects(db) && p.limits == ModelLimits(LimitsOf(db, p.pk))
    ensures forall i, j :: 0 <= i < j < |Query(db)| ==> Query(db)[i].pk != Query(db)[j].pk
  {
    NatIsTotalOrder();
    var ps, pks := Query(db), Sorted<nat>(ClassedProjects(db), NatLeq);
    forall p: PolicyProject | p in ps
      ensures p.limits == ModelLimits(LimitsOf(db, p.pk)) && p.pk in ClassedProjects(db)
    {
      var i :| 0 <= i < |ps| && ps[i] == p;
      assert pks[i] in pks;
    }
    forall p: PolicyProject | p.pk in ClassedProjects(db) && p.limits == ModelLimits(LimitsOf(db, p.pk))
      ensures p in ps
    {
      assert p.pk in pks;
      var i :| 0 <= i < |pks| && pks[i] == p.pk;
      assert ps[i] == p;
    }
  }

  /** The compiler's query yields each limited model of each project once and nothing else. */
  lemma QueryGrants(db: AuthDb)
    requires Referential(db)
    ensures DistinctGrants(Grants(Query(db)))
    ensures forall g :: g in Grants(Query(db)) <==>
              g.limit.model in LimitsOf(db, g.pk) && g == GrantOf(db, g.pk, g.limit.model)
  {
    var ps := Query(db);
    QueryContents(db);
    GrantsContents(ps);
    forall p, i, j | p in ps && 0 <= i < j < |p.limits| ensures p.limits[i].model != p.limits[j].model {
      ModelLimitsContents(LimitsOf(db, p.pk));
    }
    forall g
      ensures g in Grants(ps) <==> g.limit.model in LimitsOf(db, g.pk) && g == GrantOf(db, g.pk, g.limit.model)
    {
      GrantInQuery(db, g);
    }
  }

  lemma GrantInQuery(db: AuthDb, g: Grant)
    requires Referential(db)
    ensures (exists p :: p in Query(db) && p.pk == g.pk && g.limit in p.limits) <==>
            g.limit.model in LimitsOf(db, g.pk) && g == GrantOf(db, g.pk, g.limit.model)
  {
    QueryContents(db);
    ModelLimitsContents(LimitsOf(db, g.pk));
    if g.limit.model in LimitsOf(db, g.pk) {
      assert PolicyProject(g.pk, ModelLimits(LimitsOf(db, g.pk))) in Query(db);
    }
  }

  // ---------- compiler correctness ----------

  /** Compilation succeeds exactly when every limited model of a project has a backend. */
  lemma CompileSucceeds(cfg: Config, db: AuthDb)
    requires Referential(db)
    ensures Compile(cfg, Grants(Query(db))).Ok? <==>
            forall pk, model :: model in LimitsOf(db, pk) ==> model in cfg.backends
  {
    var gs := Grants(Query(db));
    QueryGrants(db);
    if AllBacked(cfg, gs) {
      forall pk, model | model in LimitsOf(db, pk) ensures model in cfg.backends {
        assert GrantOf(db, pk, model) in gs;
      }
    } else {
      var i :| 0 <= i < |gs| && !Backed(cfg, gs[i]);
      assert gs[i] in gs;
    }
  }

  /** A request carrying a project and a model matches exactly one compiled route document if the project's
      limit class limits the model, and none otherwise. */
  lemma RequestReachesItsRoute(cfg: Config, db: AuthDb, docs: seq<Document>, headers: map<string, string>, pk: nat, model: string)
    requires Referential(db) && Compile(cfg, Grants(Query(db))) == Ok(docs) && RequestFor(headers, pk, model)
    ensures model in LimitsOf(db, pk) ==>
              model in cfg.backends && Filter(docs, Accepting(headers)) == [RouteDocument(cfg, GrantOf(db, pk, model))]
    ensures model !in LimitsOf(db, pk) ==> Filter(docs, Accepting(headers)) == []
  {
    var gs := Grants(Query(db));
    QueryGrants(db);
    WithoutSecurityPolicy(cfg, gs, docs, Accepting(headers));
    AcceptingRoutes(cfg, gs, headers, pk, model);
    if model in LimitsOf(db, pk) {
      var g := GrantOf(db, pk, model);
      var i :| 0 <= i < |gs| && gs[i] == g;
      assert Backed(cfg, gs[i]);
      forall j | 0 <= j < |gs| ensures ForRequest(pk, model)(gs[j]) <==> j == i {
        assert gs[j] in gs;
      }
      FilterOne(gs, ForRequest(pk, model), i);
    } else {
      forall j | 0 <= j < |gs| ensures !ForRequest(pk, model)(gs[j]) { assert gs[j] in gs; }
      FilterNone(gs, ForRequest(pk, model));
    }
  }

  /** The one authorization document neither routes nor limits. */
  lemma WithoutSecurityPolicy(cfg: Config, gs: seq<Grant>, docs: seq<Document>, p: Document -> bool)
    requires Compile(cfg, gs) == Ok(docs) && forall names :: !p(SecurityPolicyDocument(names))
    ensures AllBacked(cfg, gs) && Filter(docs, p) == Filter(GrantDocs(cfg, gs), p)
  {
  }

  /** No other model of the project's class shares this model's slug and digest. */
  ghost predicate NoCollision(cfg: Config, db: AuthDb, pk: nat, model: string) {
    forall other :: other in LimitsOf(db, pk) && other != model ==>
      Slug(cfg.naming.lower(other)) != Slug(cfg.naming.lower(model)) || cfg.naming.digest(other) != cfg.naming.digest(model)
  }

  lemma SameNameSameProject(cfg: Config, g: Grant, h: Grant)
    requires Usable(cfg.naming)
    ensures Name(cfg, g) == Name(cfg, h) <==>
            g.pk == h.pk && Slug(cfg.naming.lower(g.limit.model)) == Slug(cfg.naming.lower(h.limit.model))
            && cfg.naming.digest(g.limit.model) == cfg.naming.digest(h.limit.model)
  {
    RouteNameParses(cfg.naming, g.pk, g.limit.model, h.pk, h.limit.model);
  }

  /** The grants of the database that share the name of the route for pk and model. */
  ghost function Namesakes(cfg: Config, db: AuthDb, pk: nat, model: string): seq<Grant>
    requires model in LimitsOf(db, pk)
  {
    Filter(Grants(Query(db)), NamedAs(cfg, Name(cfg, GrantOf(db, pk, model))))
  }

  lemma NamesakesAre(cfg: Config, db: AuthDb, pk: nat, model: string)
    requires Referential(db) && model in LimitsOf(db, pk)
    ensures forall h :: h in Namesakes(cfg, db, pk, model) <==>
              && h.limit.model in LimitsOf(db, h.pk) && h == GrantOf(db, h.pk, h.limit.model)
              && Name(cfg, h) == Name(cfg, GrantOf(db, pk, model))
  {
    QueryGrants(db);
    FilterMembers(Grants(Query(db)), NamedAs(cfg, Name(cfg, GrantOf(db, pk, model))));
  }

  lemma AloneWithoutCollision(cfg: Config, db: AuthDb, pk: nat, model: string)
    requires Referential(db) && Usable(cfg.naming) && model in LimitsOf(db, pk) && NoCollision(cfg, db, pk, model)
    ensures Namesakes(cfg, db, pk, model) == [GrantOf(db, pk, model)]
  {
    var gs, g := Grants(Query(db)), GrantOf(db, pk, model);
    QueryGrants(db);
    var i :| 0 <= i < |gs| && gs[i] == g;
    forall j | 0 <= j < |gs| ensures NamedAs(cfg, Name(cfg, g))(gs[j]) <==> j == i {
      assert gs[j] in gs;
      SameNameSameProject(cfg, gs[j], g);
    }
    FilterOne(gs, NamedAs(cfg, Name(cfg, g)), i);
  }

  lemma CrowdedByCollision(cfg: Config, db: AuthDb, pk: nat, model: string)
    requires Referential(db) && Usable(cfg.naming) && model in LimitsOf(db, pk) && !NoCollision(cfg, db, pk, model)
    ensures |Namesakes(cfg, db, pk, model)| > 1
  {
    NamesakesAre(cfg, db, pk, model);
    var same := Namesakes(cfg, db, pk, model);
    var other :| other in LimitsOf(db, pk) && other != model
      && Slug(cfg.naming.lower(other)) == Slug(cfg.naming.lower(model)) && cfg.naming.digest(other) == cfg.naming.digest(model);
    SameNameSameProject(cfg, GrantOf(db, pk, other), GrantOf(db, pk, model));
    TwoMembers(same, GrantOf(db, pk, other), GrantOf(db, pk, model));
  }

  /** The quota compiled for a model limit: aimed at the limit's own route, with the project's daily limit for
      the model, charged in the unit that route reports and separately for each quota key; its circuit breaker,
      present exactly when the limit sets one, admits as many waiting requests as running ones. */
  ghost predicate ChargesItsLimit(cfg: Config, db: AuthDb, pk: nat, model: string)
    requires model in LimitsOf(db, pk)
  {
    var g := GrantOf(db, pk, model);
    var quota := QuotaDocument(cfg, g);
    && Backed(cfg, g)
    && quota.target == RouteDocument(cfg, g).metadata.name && quota.metadata.name != quota.target
    && QuotaLimitForModel(db, pk, model) == Some(quota.dailyRequests)
    && quota.responseCost == RouteDocument(cfg, g).costKey && quota.distinctHeader == "x-current-quota-key"
    && (match quota.circuitBreaker
        case None => LimitsOf(db, pk)[model].parallel == None
        case Some(b) => LimitsOf(db, pk)[model].parallel == Some(b.maxParallelRequests) && b.maxPendingRequests == b.maxParallelRequests)
  }

  lemma BackedGrant(cfg: Config, db: AuthDb, docs: seq<Document>, pk: nat, model: string)
    requires Referential(db) && Compile(cfg, Grants(Query(db))) == Ok(docs) && model in LimitsOf(db, pk)
    ensures Backed(cfg, GrantOf(db, pk, model))
  {
    CompileSucceeds(cfg, db);
  }

  lemma QuotaCharges(cfg: Config, db: AuthDb, pk: nat, model: string)
    requires model in LimitsOf(db, pk) && Backed(cfg, GrantOf(db, pk, model))
    ensures ChargesItsLimit(cfg, db, pk, model)
  {
  }

  lemma QuotaOfMember(cfg: Config, gs: seq<Grant>, g: Grant)
    requires g in gs
    ensures QuotaDocument(cfg, g) in QuotaDocs(cfg, gs)
  {
    var n :| 0 <= n < |gs| && gs[n] == g;
    assert QuotaDocs(cfg, gs)[n] == QuotaDocument(cfg, g);
  }

  /** Among the compiled quota documents aimed at a model's route name is the one carrying the project's own
      daily and parallel limits for that model, and it is the only one exactly when no other model of the
      class collides. */
  lemma RouteCarriesItsQuota(cfg: Config, db: AuthDb, docs: seq<Document>, pk: nat, model: string)
    requires Referential(db) && Usable(cfg.naming) && Compile(cfg, Grants(Query(db))) == Ok(docs)
    requires model in LimitsOf(db, pk)
    ensures var g := GrantOf(db, pk, model);
            var quotas := Filter(docs, Limiting(Name(cfg, g)));
            && QuotaDocument(cfg, g) in quotas
            && ChargesItsLimit(cfg, db, pk, model)
            && (|quotas| == 1 <==> NoCollision(cfg, db, pk, model))
            && (NoCollision(cfg, db, pk, model) ==> quotas == [QuotaDocument(cfg, g)])
  {
    var g, same := GrantOf(db, pk, model), Namesakes(cfg, db, pk, model);
    WithoutSecurityPolicy(cfg, Grants(Query(db)), docs, Limiting(Name(cfg, g)));
    LimitingQuotas(cfg, Grants(Query(db)), Name(cfg, g));
    NamesakesAre(cfg, db, pk, model);
    assert g in same;
    QuotaOfMember(cfg, same, g);
    BackedGrant(cfg, db, docs, pk, model);
    QuotaCharges(cfg, db, pk, model);
    if NoCollision(cfg, db, pk, model) {
      AloneWithoutCollision(cfg, db, pk, model);
    } else {
      CrowdedByCollision(cfg, db, pk, model);
    }
  }

  // ---------- references between documents ----------

  /** The routes a document refers to. */
  function Targets(d: Document): set<string> {
    match d
    case AIGatewayRoute(_, _, _, _, _, _) => {}
    case BackendTrafficPolicy(_, target, _, _, _, _) => {target}
    case SecurityPolicy(_, targets, _, _, _) => set t | t in targets
  }

  function RouteNamesIn(docs: seq<Document>): set<string> {
    set d | d in docs && d.AIGatewayRoute? :: d.metadata.name
  }

  lemma {:induction false} GrantDocsContents(cfg: Config, gs: seq<Grant>)
    requires AllBacked(cfg, gs)
    ensures forall d :: d in GrantDocs(cfg, gs) <==>
              exists i :: 0 <= i < |gs| && (d == RouteDocument(cfg, gs[i]) || d == QuotaDocument(cfg, gs[i]))
    decreases |gs|
  {
    if gs == [] {
    } else {
      var front, g := gs[..|gs| - 1], gs[|gs| - 1];
      GrantDocsContents(cfg, front);
      assert gs == front + [g];
      forall d ensures d in GrantDocs(cfg, gs) <==> d in GrantDocs(cfg, front) || d == RouteDocument(cfg, g) || d == QuotaDocument(cfg, g) {
      }
    }
  }

  lemma CompiledContents(cfg: Config, gs: seq<Grant>, docs: seq<Document>)
    requires Compile(cfg, gs) == Ok(docs)
    ensures AllBacked(cfg, gs)
    ensures forall d :: d in docs <==>
              || (exists i :: 0 <= i < |gs| && (d == RouteDocument(cfg, gs[i]) || d == QuotaDocument(cfg, gs[i])))
              || (gs != [] && d == SecurityPolicyDocument(Names(cfg, gs)))
  {
    GrantDocsContents(cfg, gs);
  }

  ghost predicate Ours(m: Metadata, name: string) {
    m.name == name && m.labels == map["app.kubernetes.io/managed-by" := "grantdeck-export"]
  }

  /** The route of a model limit: attached to the outer and the inner listener of the gateway, matching the
      project's number and the model, reporting tokens under the key that quotas charge. */
  ghost predicate IsRouteOf(cfg: Config, g: Grant, d: Document) {
    && d.AIGatewayRoute? && Ours(d.metadata, RouteName(cfg.naming, g.pk, g.limit.model))
    && d.parentRefs == [ParentRef(cfg.gateway, cfg.namespace, cfg.section), ParentRef(cfg.gateway, cfg.namespace, cfg.internalSection)]
    && d.matches == [HeaderMatch("x-current-project-id", Dec(g.pk)), HeaderMatch("x-ai-eg-model", g.limit.model)]
    && d.costKey == "llm_total_token" && d.owner == cfg.owner
    && g.limit.model in cfg.backends && d.backend == cfg.backends[g.limit.model]
  }

  ghost predicate IsQuotaOf(cfg: Config, g: Grant, d: Document) {
    && d.BackendTrafficPolicy? && Ours(d.metadata, RouteName(cfg.naming, g.pk, g.limit.model) + "-quota")
    && d.target == RouteName(cfg.naming, g.pk, g.limit.model) && d.distinctHeader == "x-current-quota-key"
    && d.dailyRequests == g.limit.daily && d.responseCost == "llm_total_token"
    && (g.limit.parallel == None ==> d.circuitBreaker == None)
    && (g.limit.parallel.Some? ==> d.circuitBreaker == Some(CircuitBreaker(g.limit.parallel.value, g.limit.parallel.value)))
  }

  ghost predicate IsAuthorization(cfg: Config, gs: seq<Grant>, d: Document) {
    && d.SecurityPolicy? && Ours(d.metadata, "inference-grantdeck-class-auth") && !d.failOpen && d.recomputeRoute
    && d.headersToBackend == ["x-current-user", "x-current-project", "x-current-project-id", "x-current-quota-key", "x-current-quota-class"]
    && |d.targets| == |gs| && forall i :: 0 <= i < |gs| ==> d.targets[i] == RouteName(cfg.naming, gs[i].pk, gs[i].limit.model)
  }

  /** What is compiled, in the words of the cluster: for every grant its route and its quota, and for all of
      them one authorization policy; nothing else. */
  lemma CompiledDocumentsSay(cfg: Config, gs: seq<Grant>, docs: seq<Document>)
    requires Compile(cfg, gs) == Ok(docs)
    ensures forall d :: d in docs ==>
              (exists g :: g in gs && (IsRouteOf(cfg, g, d) || IsQuotaOf(cfg, g, d))) || IsAuthorization(cfg, gs, d)
    ensures forall g :: g in gs ==> exists r, q :: r in docs && q in docs && IsRouteOf(cfg, g, r) && IsQuotaOf(cfg, g, q)
    ensures gs != [] ==> exists d :: d in docs && IsAuthorization(cfg, gs, d)
  {
    CompiledContents(cfg, gs, docs);
    forall g | g in gs ensures exists r, q :: r in docs && q in docs && IsRouteOf(cfg, g, r) && IsQuotaOf(cfg, g, q) {
      var i :| 0 <= i < |gs| && gs[i] == g;
      GrantDocumentsSay(cfg, g);
      assert RouteDocument(cfg, g) in docs && QuotaDocument(cfg, g) in docs;
    }
    forall d | d in docs
      ensures (exists g :: g in gs && (IsRouteOf(cfg, g, d) || IsQuotaOf(cfg, g, d))) || IsAuthorization(cfg, gs, d)
    {
      if i :| 0 <= i < |gs| && (d == RouteDocument(cfg, gs[i]) || d == QuotaDocument(cfg, gs[i])) {
        GrantDocumentsSay(cfg, gs[i]);
        assert gs[i] in gs;
      } else {
        AuthorizationSays(cfg, gs);
      }
    }
    if gs != [] {
      AuthorizationSays(cfg, gs);
      assert SecurityPolicyDocument(Names(cfg, gs)) in docs;
    }
  }

  lemma GrantDocumentsSay(cfg: Config, g: Grant)
    requires Backed(cfg, g)
    ensures IsRouteOf(cfg, g, RouteDocument(cfg, g)) && IsQuotaOf(cfg, g, QuotaDocument(cfg, g))
  {
  }

  lemma AuthorizationSays(cfg: Config, gs: seq<Grant>)
    ensures IsAuthorization(cfg, gs, SecurityPolicyDocument(Names(cfg, gs)))
  {
  }

  lemma RouteNamesAre(cfg: Config, gs: seq<Grant>, docs: seq<Document>)
    requires Compile(cfg, gs) == Ok(docs)
    ensures forall t :: t in RouteNamesIn(docs) <==> t in Names(cfg, gs)
  {
    CompiledContents(cfg, gs, docs);
    forall t | t in RouteNamesIn(docs) ensures t in Names(cfg, gs) {
      var r :| r in docs && r.AIGatewayRoute? && r.metadata.name == t;
      var i :| 0 <= i < |gs| && (r == RouteDocument(cfg, gs[i]) || r == QuotaDocument(cfg, gs[i]));
      assert Names(cfg, gs)[i] == t;
    }
    forall t | t in Names(cfg, gs) ensures t in RouteNamesIn(docs) {
      var i :| 0 <= i < |gs| && Names(cfg, gs)[i] == t;
      assert RouteDocument(cfg, gs[i]) in docs && RouteDocument(cfg, gs[i]).metadata.name == t;
    }
  }

  /** Compiled documents refer only to compiled routes, the authorization policy to all of them, and every
      document carries the label by which the deployer recognises its own. */
  lemma CompiledReferencesClosed(cfg: Config, gs: seq<Grant>, docs: seq<Document>)
    requires Compile(cfg, gs) == Ok(docs)
    ensures forall d :: d in docs ==> Targets(d) <= RouteNamesIn(docs)
    ensures forall d :: d in docs && d.SecurityPolicy? ==> Targets(d) == RouteNamesIn(docs)
    ensures forall d :: d in docs ==> d.metadata == ManagedMetadata(d.metadata.name) && d.metadata.name != ""
  {
    CompiledContents(cfg, gs, docs);
    RouteNamesAre(cfg, gs, docs);
    forall d | d in docs && !d.SecurityPolicy?
      ensures Targets(d) <= RouteNamesIn(docs) && d.metadata == ManagedMetadata(d.metadata.name) && d.metadata.name != ""
    {
      var i :| 0 <= i < |gs| && (d == RouteDocument(cfg, gs[i]) || d == QuotaDocument(cfg, gs[i]));
      assert Names(cfg, gs)[i] == Name(cfg, gs[i]) && Name(cfg, gs[i])[0] == 'g';
    }
  }
}
