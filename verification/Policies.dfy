/** The policy compiler (apps/authz/policies.py) and the tables it reads (apps/authz/models.py). */
module Policies {
  import opened Common
  import opened RouteNames

  // ---------- the tables ----------

  datatype LimitRow = LimitRow(daily: nat, parallel: Option<nat>)

  /** A limit class with its model limits, unique per model name. */
  datatype ClassRow = ClassRow(name: string, slug: string, limits: map<string, LimitRow>)

  /** endDate counts days; limitClass is a foreign key. */
  datatype ProjectRow = ProjectRow(
    name: string, shortcut: string, endDate: Option<int>, joinCodeHash: Option<string>, joinRequiresApproval: bool,
    quotaKey: string, limitClass: Option<nat>)

  datatype AuthDb = AuthDb(projects: map<nat, ProjectRow>, classes: map<nat, ClassRow>)

  predicate Referential(db: AuthDb) {
    forall pk :: pk in db.projects && db.projects[pk].limitClass.Some? ==>
      db.projects[pk].limitClass.value in db.classes
  }

  function LimitsOf(db: AuthDb, pk: nat): map<string, LimitRow> {
    if pk in db.projects && db.projects[pk].limitClass.Some? && db.projects[pk].limitClass.value in db.classes
    then db.classes[db.projects[pk].limitClass.value].limits
    else map[]
  }

  /** Project.quota_limit_for_model */
  function QuotaLimitForModel(db: AuthDb, pk: nat, model: string): Option<nat> {
    if model in LimitsOf(db, pk) then Some(LimitsOf(db, pk)[model].daily) else None
  }

  /** A model is limited for a project exactly if the project has a class and the class limits the model. */
  lemma LimitsAre(db: AuthDb, pk: nat, model: string)
    requires Referential(db)
    ensures model in LimitsOf(db, pk) <==>
            pk in db.projects && db.projects[pk].limitClass.Some? && model in db.classes[db.projects[pk].limitClass.value].limits
    ensures model in LimitsOf(db, pk) ==>
              LimitsOf(db, pk)[model] == db.classes[db.projects[pk].limitClass.value].limits[model]
              && QuotaLimitForModel(db, pk, model) == Some(db.classes[db.projects[pk].limitClass.value].limits[model].daily)
    ensures model !in LimitsOf(db, pk) ==> QuotaLimitForModel(db, pk, model) == None
  {
  }

  // ---------- what the compiler's query returns ----------

  datatype ModelLimit = ModelLimit(model: string, daily: nat, parallel: Option<nat>)

  datatype PolicyProject = PolicyProject(pk: nat, limits: seq<ModelLimit>)

  predicate NatLeq(a: nat, b: nat) { a <= b }

  lemma NatIsTotalOrder()
    ensures TotalOrder<nat>(NatLeq)
  {
  }

  function ClassedProjects(db: AuthDb): set<nat> {
    set pk | pk in db.projects && db.projects[pk].limitClass.Some?
  }

  ghost function ModelLimits(limits: map<string, LimitRow>): seq<ModelLimit> {
    LexIsTotalOrder();
    var names := Sorted(limits.Keys, LexLeq);
    seq(|names|, i requires 0 <= i < |names| =>
      ModelLimit(names[i], limits[names[i]].daily, limits[names[i]].parallel))
  }

  /** Projects with a limit class in primary-key order, each with its limits in model-name order. */
  ghost function Query(db: AuthDb): seq<PolicyProject> {
    NatIsTotalOrder();
    var pks := Sorted<nat>(ClassedProjects(db), NatLeq);
    seq(|pks|, i requires 0 <= i < |pks| => PolicyProject(pks[i], ModelLimits(LimitsOf(db, pks[i]))))
  }

  // ---------- documents ----------

  const MANAGED_BY_LABEL := "app.kubernetes.io/managed-by"
  const MANAGED_BY_VALUE := "grantdeck-export"
  const PROJECT_ID_HEADER := "x-current-project-id"
  const MODEL_HEADER := "x-ai-eg-model"
  const QUOTA_KEY_HEADER := "x-current-quota-key"
  const COST_KEY := "llm_total_token"
  const AUTH_POLICY_NAME := "inference-grantdeck-class-auth"

  datatype Metadata = Metadata(name: string, labels: map<string, string>)

  datatype ParentRef = ParentRef(gateway: string, namespace: string, section: string)

  datatype HeaderMatch = HeaderMatch(name: string, value: string)

  datatype CircuitBreaker = CircuitBreaker(maxParallelRequests: nat, maxPendingRequests: nat)

  datatype Document =
    | AIGatewayRoute(metadata: Metadata, parentRefs: seq<ParentRef>, costKey: string, matches: seq<HeaderMatch>,
                     owner: string, backend: string)
    | BackendTrafficPolicy(metadata: Metadata, target: string, distinctHeader: string, dailyRequests: nat,
                           responseCost: string, circuitBreaker: Option<CircuitBreaker>)
    | SecurityPolicy(metadata: Metadata, targets: seq<string>, failOpen: bool, recomputeRoute: bool,
                     headersToBackend: seq<string>)

  /** The AIGATEWAY_* settings. */
  datatype Config = Config(
    gateway: string, namespace: string, section: string, internalSection: string, owner: string,
    backends: map<string, string>, naming: Naming)

  /** One model limit of one project. */
  datatype Grant = Grant(pk: nat, limit: ModelLimit)

  function Name(cfg: Config, g: Grant): string { RouteName(cfg.naming, g.pk, g.limit.model) }

  function ManagedMetadata(name: string): Metadata { Metadata(name, map[MANAGED_BY_LABEL := MANAGED_BY_VALUE]) }

  predicate Backed(cfg: Config, g: Grant) { g.limit.model in cfg.backends }

  function RouteDocument(cfg: Config, g: Grant): Document
    requires Backed(cfg, g)
  {
    AIGatewayRoute(
      ManagedMetadata(Name(cfg, g)),
      [ParentRef(cfg.gateway, cfg.namespace, cfg.section), ParentRef(cfg.gateway, cfg.namespace, cfg.internalSection)],
      COST_KEY,
      [HeaderMatch(PROJECT_ID_HEADER, Dec(g.pk)), HeaderMatch(MODEL_HEADER, g.limit.model)],
      cfg.owner, cfg.backends[g.limit.model])
  }

  function QuotaDocument(cfg: Config, g: Grant): Document {
    var breaker := match g.limit.parallel case None => None case Some(n) => Some(CircuitBreaker(n, n));
    BackendTrafficPolicy(
      ManagedMetadata(Name(cfg, g) + "-quota"), Name(cfg, g), QUOTA_KEY_HEADER, g.limit.daily, COST_KEY, breaker)
  }

  function SecurityPolicyDocument(routeNames: seq<string>): Document {
    SecurityPolicy(
      ManagedMetadata(AUTH_POLICY_NAME), routeNames, false, true,
      ["x-current-user", "x-current-project", PROJECT_ID_HEADER, QUOTA_KEY_HEADER, "x-current-quota-class"])
  }

  // ---------- the compiler ----------

  function ProjectGrants(pk: nat, limits: seq<ModelLimit>): seq<Grant> {
    seq(|limits|, i requires 0 <= i < |limits| => Grant(pk, limits[i]))
  }

  function Grants(projects: seq<PolicyProject>): seq<Grant> {
    if projects == [] then []
    else Grants(projects[..|projects| - 1])
         + ProjectGrants(projects[|projects| - 1].pk, projects[|projects| - 1].limits)
  }

  predicate AllBacked(cfg: Config, gs: seq<Grant>) { forall i :: 0 <= i < |gs| ==> Backed(cfg, gs[i]) }

  function GrantDocs(cfg: Config, gs: seq<Grant>): seq<Document>
    requires AllBacked(cfg, gs)
  {
    if gs == [] then []
    else
      var g := gs[|gs| - 1];
      GrantDocs(cfg, gs[..|gs| - 1]) + [RouteDocument(cfg, g), QuotaDocument(cfg, g)]
  }

  function Names(cfg: Config, gs: seq<Grant>): seq<string> {
    seq(|gs|, i requires 0 <= i < |gs| => Name(cfg, gs[i]))
  }

  /** The documents for a list of grants; an unmapped model stops the compilation. */
  function Compile(cfg: Config, gs: seq<Grant>): Result<seq<Document>, ()> {
    if !AllBacked(cfg, gs) then Err(())
    else if gs == [] then Ok([])
    else Ok(GrantDocs(cfg, gs) + [SecurityPolicyDocument(Names(cfg, gs))])
  }

  /** build_policy_documents, on the rows its query returned. */
  method BuildPolicyDocuments(cfg: Config, projects: seq<PolicyProject>) returns (r: Result<seq<Document>, ()>)
    ensures r == Compile(cfg, Grants(projects))
  {
    var documents: seq<Document>, routeNames: seq<string> := [], [];
    ghost var done: seq<Grant> := [];
    for p := 0 to |projects|
      invariant done == Grants(projects[..p]) && Built(cfg, done, documents, routeNames)
    {
      var project := projects[p];
      ghost var before := done;
      for l := 0 to |project.limits|
        invariant done == before + ProjectGrants(project.pk, project.limits[..l])
        invariant Built(cfg, done, documents, routeNames)
      {
        var g := Grant(project.pk, project.limits[l]);
        OneMoreLimit(project.pk, project.limits, l);
        if !Backed(cfg, g) {
          MissingBackend(cfg, projects, p, l);
          return Err(());
        }
        OneMoreBuilt(cfg, done, documents, routeNames, g);
        var route := RouteDocument(cfg, g);
        documents := documents + [route, QuotaDocument(cfg, g)];
        routeNames := routeNames + [route.metadata.name];
        done := done + [g];
      }
      OneMoreProject(projects, p);
      assert project.limits[..|project.limits|] == project.limits;
    }
    assert projects[..|projects|] == projects;
    if routeNames != [] { documents := documents + [SecurityPolicyDocument(routeNames)]; }
    r := Ok(documents);
  }

  /** The documents and route names of the grants compiled so far. */
  ghost predicate Built(cfg: Config, done: seq<Grant>, documents: seq<Document>, routeNames: seq<string>) {
    AllBacked(cfg, done) && documents == GrantDocs(cfg, done) && routeNames == Names(cfg, done)
  }

  lemma OneMoreBuilt(cfg: Config, done: seq<Grant>, documents: seq<Document>, routeNames: seq<string>, g: Grant)
    requires Built(cfg, done, documents, routeNames) && Backed(cfg, g)
    ensures Built(cfg, done + [g], documents + [RouteDocument(cfg, g), QuotaDocument(cfg, g)], routeNames + [Name(cfg, g)])
  {
    OneMoreGrant(cfg, done, g);
  }

  lemma OneMoreLimit(pk: nat, limits: seq<ModelLimit>, l: nat)
    requires l < |limits|
    ensures ProjectGrants(pk, limits[..l + 1]) == ProjectGrants(pk, limits[..l]) + [Grant(pk, limits[l])]
  {
  }

  lemma OneMoreProject(projects: seq<PolicyProject>, p: nat)
    requires p < |projects|
    ensures Grants(projects[..p + 1]) == Grants(projects[..p]) + ProjectGrants(projects[p].pk, projects[p].limits)
  {
    assert projects[..p + 1][..p] == projects[..p];
  }

  lemma OneMoreGrant(cfg: Config, gs: seq<Grant>, g: Grant)
    requires AllBacked(cfg, gs) && Backed(cfg, g)
    ensures AllBacked(cfg, gs + [g])
    ensures GrantDocs(cfg, gs + [g]) == GrantDocs(cfg, gs) + [RouteDocument(cfg, g), QuotaDocument(cfg, g)]
    ensures Names(cfg, gs + [g]) == Names(cfg, gs) + [Name(cfg, g)]
  {
    assert (gs + [g])[..|gs|] == gs;
  }

  lemma {:induction false} GrantsPrefix(projects: seq<PolicyProject>, p: nat)
    requires p <= |projects|
    ensures Grants(projects[..p]) <= Grants(projects)
    decreases |projects|
  {
    if p < |projects| {
      var front := projects[..|projects| - 1];
      assert projects[..p] == front[..p];
      GrantsPrefix(front, p);
    } else {
      assert projects[..p] == projects;
    }
  }

  lemma MissingBackend(cfg: Config, projects: seq<PolicyProject>, p: nat, l: nat)
    requires p < |projects| && l < |projects[p].limits|
    requires !Backed(cfg, Grant(projects[p].pk, projects[p].limits[l]))
    ensures !AllBacked(cfg, Grants(projects))
  {
    OneMoreProject(projects, p);
    GrantsPrefix(projects, p + 1);
    assert Grants(projects)[|Grants(projects[..p])| + l] == Grant(projects[p].pk, projects[p].limits[l]);
  }
}
