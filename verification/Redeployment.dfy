/** Editing policies while they are deployed: what heeding the redeployment warnings achieves, edits and
    deployments interleaved call by call (apps/authz/admin.py:175-321, apps/authz/kubernetes.py:136-157). */
module Redeployment {
  import opened Common
  import opened RouteNames
  import opened Policies
  import opened PolicyRouting
  import opened Kubernetes
  import opened DeployedRouting
  import opened Admin
  import opened DeploymentLock

  // ---------- a deployment that fails over a current cluster ----------

  /** No two different documents have one kind and name. */
  ghost predicate Agreeing(docs: seq<Document>) {
    forall d, e :: d in docs && e in docs && KeyOf(d) == KeyOf(e) ==> d == e
  }

  lemma AgreeingIsStored(docs: seq<Document>, d: Document)
    requires Agreeing(docs) && d in docs
    ensures KeyOf(d) in DocMap(docs) && DocMap(docs)[KeyOf(d)] == d
  {
    DocMapContents(docs);
    assert KeyOf(d) in Desired(docs);
  }

  lemma ReapplyingKeeps(c: Resources, docs: seq<Document>, n: nat)
    requires (forall d :: d in docs ==> IsManaged(d)) && Managed(c) == DocMap(docs) && Agreeing(docs)
    requires n <= |ApplyOrder(docs)|
    ensures c + DocMap(ApplyOrder(docs)[..n]) == c
  {
    var done := ApplyOrder(docs)[..n];
    ApplyOrderIsSorted(docs);
    DocMapContents(done);
    forall k | k in DocMap(done) ensures k in c && c[k] == DocMap(done)[k] {
      var d := DocMap(done)[k];
      assert d in ApplyOrder(docs);
      AgreeingIsStored(docs, d);
      assert k in Managed(c);
    }
  }

  lemma NothingStale(c: Resources, docs: seq<Document>)
    requires Managed(c) == DocMap(docs)
    ensures Stale(c, docs) == {}
  {
    DocMapContents(docs);
    assert forall k :: k in Stale(c, docs) ==> k in Managed(c);
  }

  lemma AgreeingKeeps(c: Resources, docs: seq<Document>, h: Resources)
    requires (forall d :: d in docs ==> IsManaged(d)) && Managed(c) == DocMap(docs) && Agreeing(docs) && Midway(c, docs, h)
    ensures h == c
  {
    if PartlyApplied(c, ApplyOrder(docs), h) {
      var n :| 0 <= n <= |ApplyOrder(docs)| && h == c + DocMap(ApplyOrder(docs)[..n]);
      ReapplyingKeeps(c, docs, n);
    }
    if k :| 0 <= k < |PRUNE_ORDER| && PartlyDeleted(Pruned(c, docs, k), StaleOfKind(c, docs, PRUNE_ORDER[k]), h) {
      PruningKeeps(c, docs, h, k);
    }
  }

  lemma PruningKeeps(c: Resources, docs: seq<Document>, h: Resources, k: nat)
    requires (forall d :: d in docs ==> IsManaged(d)) && Managed(c) == DocMap(docs) && Agreeing(docs)
    requires k < |PRUNE_ORDER| && PartlyDeleted(Pruned(c, docs, k), StaleOfKind(c, docs, PRUNE_ORDER[k]), h)
    ensures h == c
  {
    NothingStale(c, docs);
    assert ApplyOrder(docs)[..|ApplyOrder(docs)|] == ApplyOrder(docs);
    ReapplyingKeeps(c, docs, |ApplyOrder(docs)|);
    ApplyOrderSameResult(docs);
    assert PrunedKinds(c, docs, k) == {} && StaleOfKind(c, docs, PRUNE_ORDER[k]) == {};
    assert Pruned(c, docs, k) == c;
  }

  /** The document a key ends up with is one of those applied, the last with that key. */
  lemma {:induction false} LastStored(docs: seq<Document>, d: Document) returns (n: nat)
    requires d in docs
    ensures n < |docs| && KeyOf(docs[n]) == KeyOf(d) && KeyOf(d) in DocMap(docs) && DocMap(docs)[KeyOf(d)] == docs[n]
    ensures forall j :: n < j < |docs| ==> KeyOf(docs[j]) != KeyOf(d)
    decreases |docs|
  {
    var front, last := docs[..|docs| - 1], docs[|docs| - 1];
    assert docs == front + [last];
    if KeyOf(last) == KeyOf(d) {
      n := |docs| - 1;
    } else {
      n := LastStored(front, d);
    }
  }

  /** Stopping right after the i-th document has been applied. */
  lemma StoppedAfter(c: Resources, docs: seq<Document>, i: nat) returns (h: Resources)
    requires i < |ApplyOrder(docs)| && IsManaged(ApplyOrder(docs)[i])
    ensures var d := ApplyOrder(docs)[i];
            Midway(c, docs, h) && KeyOf(d) in Managed(h) && Managed(h)[KeyOf(d)] == d
  {
    var o := ApplyOrder(docs);
    h := c + DocMap(o[..i + 1]);
    assert o[..i + 1] == o[..i] + [o[i]];
    DocMapSnoc(o[..i], o[i]);
    assert PartlyApplied(c, o, h);
  }

  /** Of two documents with one key the one that loses is in the cluster for a while. */
  lemma DisagreeingShows(c: Resources, docs: seq<Document>, d: Document, e: Document) returns (h: Resources)
    requires (forall x :: x in docs ==> IsManaged(x)) && d in docs && e in docs && KeyOf(d) == KeyOf(e) && d != e
    ensures Midway(c, docs, h) && Managed(h) != DocMap(docs)
  {
    var o := ApplyOrder(docs);
    ApplyOrderIsSorted(docs);
    ApplyOrderSameResult(docs);
    var last := LastStored(o, d);
    var loser := if o[last] == d then e else d;
    assert loser in o;
    var i :| 0 <= i < |o| && o[i] == loser;
    h := StoppedAfter(c, docs, i);
  }

  /** A failing deployment of the documents a cluster already holds can leave it otherwise exactly when two
      different documents share a kind and name; if none do, it leaves the cluster untouched. */
  lemma RedeployingIsHarmless(c: Resources, docs: seq<Document>)
    requires (forall d :: d in docs ==> IsManaged(d)) && Managed(c) == DocMap(docs)
    ensures (forall h :: Midway(c, docs, h) ==> Managed(h) == DocMap(docs)) <==> Agreeing(docs)
    ensures Agreeing(docs) ==> forall h :: Midway(c, docs, h) ==> h == c
  {
    if Agreeing(docs) {
      forall h | Midway(c, docs, h) ensures h == c { AgreeingKeeps(c, docs, h); }
    } else {
      var d, e :| d in docs && e in docs && KeyOf(d) == KeyOf(e) && d != e;
      var h := DisagreeingShows(c, docs, d, e);
    }
  }

  /** No two models of a class collide, for any project. */
  ghost predicate CollisionFree(cfg: Config, db: AuthDb) {
    forall pk, model :: model in LimitsOf(db, pk) ==> NoCollision(cfg, db, pk, model)
  }

  lemma SameNameSameGrant(cfg: Config, db: AuthDb, g: Grant, h: Grant)
    requires Referential(db) && Usable(cfg.naming) && CollisionFree(cfg, db)
    requires g in Grants(Query(db)) && h in Grants(Query(db)) && Name(cfg, g) == Name(cfg, h)
    ensures g == h
  {
    QueryGrants(db);
    SameNameSameProject(cfg, g, h);
    assert NoCollision(cfg, db, g.pk, g.limit.model);
  }

  /** Compiled documents have different kinds or names exactly when no two models of a class collide. */
  lemma AgreeingWithoutCollision(cfg: Config, db: AuthDb, docs: seq<Document>)
    requires Referential(db) && Usable(cfg.naming) && Compile(cfg, Grants(Query(db))) == Ok(docs)
    ensures Agreeing(docs) <==> CollisionFree(cfg, db)
  {
    if CollisionFree(cfg, db) {
      forall d, e | d in docs && e in docs && KeyOf(d) == KeyOf(e) ensures d == e {
        CollisionFreeAgrees(cfg, db, docs, d, e);
      }
    }
    if Agreeing(docs) {
      forall pk, model, other | model in LimitsOf(db, pk) && other in LimitsOf(db, pk) && other != model
        ensures Slug(cfg.naming.lower(other)) != Slug(cfg.naming.lower(model)) || cfg.naming.digest(other) != cfg.naming.digest(model)
      {
        AgreeingSeparates(cfg, db, docs, pk, model, other);
      }
    }
  }

  lemma GrantBehind(cfg: Config, gs: seq<Grant>, docs: seq<Document>, d: Document) returns (g: Grant)
    requires Compile(cfg, gs) == Ok(docs) && d in docs && !d.SecurityPolicy?
    ensures g in gs && Backed(cfg, g) && d == if d.AIGatewayRoute? then RouteDocument(cfg, g) else QuotaDocument(cfg, g)
    ensures KeyOf(d) == if d.AIGatewayRoute? then RouteKey(cfg, g) else QuotaKey(cfg, g)
  {
    CompiledContents(cfg, gs, docs);
    var i :| 0 <= i < |gs| && (d == RouteDocument(cfg, gs[i]) || d == QuotaDocument(cfg, gs[i]));
    g := gs[i];
  }

  lemma CollisionFreeAgrees(cfg: Config, db: AuthDb, docs: seq<Document>, d: Document, e: Document)
    requires Referential(db) && Usable(cfg.naming) && Compile(cfg, Grants(Query(db))) == Ok(docs) && CollisionFree(cfg, db)
    requires d in docs && e in docs && KeyOf(d) == KeyOf(e)
    ensures d == e
  {
    if d.SecurityPolicy? {
      CompiledContents(cfg, Grants(Query(db)), docs);
    } else {
      var g := GrantBehind(cfg, Grants(Query(db)), docs, d);
      var h := GrantBehind(cfg, Grants(Query(db)), docs, e);
      SameSuffix(Name(cfg, g), Name(cfg, h));
      SameNameSameGrant(cfg, db, g, h);
    }
  }

  lemma AgreeingSeparates(cfg: Config, db: AuthDb, docs: seq<Document>, pk: nat, model: string, other: string)
    requires Referential(db) && Usable(cfg.naming) && Compile(cfg, Grants(Query(db))) == Ok(docs) && Agreeing(docs)
    requires model in LimitsOf(db, pk) && other in LimitsOf(db, pk) && other != model
    ensures Slug(cfg.naming.lower(other)) != Slug(cfg.naming.lower(model)) || cfg.naming.digest(other) != cfg.naming.digest(model)
  {
    var g, h := GrantOf(db, pk, model), GrantOf(db, pk, other);
    RouteIsCompiled(cfg, db, docs, pk, model);
    RouteIsCompiled(cfg, db, docs, pk, other);
    RoutesDiffer(cfg, docs, g, h);
    SameNameSameProject(cfg, h, g);
  }

  lemma RoutesDiffer(cfg: Config, docs: seq<Document>, g: Grant, h: Grant)
    requires Agreeing(docs) && Backed(cfg, g) && Backed(cfg, h) && g.limit.model != h.limit.model
    requires RouteDocument(cfg, g) in docs && RouteDocument(cfg, h) in docs
    ensures Name(cfg, g) != Name(cfg, h)
  {
    assert RouteDocument(cfg, g).matches[1].value != RouteDocument(cfg, h).matches[1].value;
    assert KeyOf(RouteDocument(cfg, g)) != KeyOf(RouteDocument(cfg, h));
  }

  lemma RouteIsCompiled(cfg: Config, db: AuthDb, docs: seq<Document>, pk: nat, model: string)
    requires Referential(db) && Compile(cfg, Grants(Query(db))) == Ok(docs) && model in LimitsOf(db, pk)
    ensures Backed(cfg, GrantOf(db, pk, model)) && RouteDocument(cfg, GrantOf(db, pk, model)) in docs
  {
    var gs, g := Grants(Query(db)), GrantOf(db, pk, model);
    QueryGrants(db);
    CompiledContents(cfg, gs, docs);
    var i :| 0 <= i < |gs| && gs[i] == g;
    assert RouteDocument(cfg, gs[i]) in docs;
  }

  // ---------- edits, numbered ----------

  /** The database after v edits, the first of which is ops(0). */
  function DbAt(db: AuthDb, ops: nat -> Op, hash: string -> string, v: nat): AuthDb {
    if v == 0 then db else Perform(DbAt(db, ops, hash, v - 1), ops(v - 1), hash).0
  }

  ghost function CompiledAt(cfg: Config, db: AuthDb, ops: nat -> Op, hash: string -> string): Snapshots {
    (v: nat) => Compiled(cfg, DbAt(db, ops, hash, v))
  }

  /** No warning is shown, and projects are deleted only if no class limits anything for them. */
  ghost predicate Silent(db: AuthDb, op: Op, hash: string -> string) {
    && Perform(db, op, hash).1 != Accepted(true)
    && (op.DeleteProjects? ==> forall pk :: pk in op.pks ==> LimitsOf(db, pk) == map[])
  }

  /** Edit number u is silent. */
  ghost predicate SilentAt(db: AuthDb, ops: nat -> Op, hash: string -> string, u: nat) {
    Silent(DbAt(db, ops, hash, u), ops(u), hash)
  }

  /** All edits from number v to just before number w are silent. */
  ghost predicate SilentFrom(db: AuthDb, ops: nat -> Op, hash: string -> string, v: nat, w: nat) {
    forall u: nat :: v <= u < w ==> SilentAt(db, ops, hash, u)
  }

  lemma {:induction false} DbStaysReferential(db: AuthDb, ops: nat -> Op, hash: string -> string, v: nat)
    requires Referential(db)
    ensures Referential(DbAt(db, ops, hash, v))
  {
    if v == 0 {
    } else {
      DbStaysReferential(db, ops, hash, v - 1);
      PerformKeepsReferences(DbAt(db, ops, hash, v - 1), ops(v - 1), hash);
    }
  }

  lemma UnlimitedDeletionKeeps(cfg: Config, db: AuthDb, pks: set<nat>, hash: string -> string)
    requires Referential(db) && forall pk :: pk in pks ==> LimitsOf(db, pk) == map[]
    ensures Compiled(cfg, Perform(db, DeleteProjects(pks), hash).0) == Compiled(cfg, db)
  {
    var next := Perform(db, DeleteProjects(pks), hash).0;
    assert next == db.(projects := db.projects - pks);
    forall pk ensures LimitsOf(next, pk) == LimitsOf(db, pk) {
    }
    GrantsAreTheLimits(db, next);
  }

  lemma SilentEditKeeps(cfg: Config, db: AuthDb, op: Op, hash: string -> string)
    requires Referential(db) && Silent(db, op, hash)
    ensures Compiled(cfg, Perform(db, op, hash).0) == Compiled(cfg, db)
  {
    if op.DeleteProjects? {
      UnlimitedDeletionKeeps(cfg, db, op.pks, hash);
    } else {
      NoWarningNoChange(cfg, db, op, hash);
    }
  }

  /** The database has compiled to the same ever since number v. */
  ghost predicate SameSince(snapshots: Snapshots, v: nat, w: nat) {
    forall u: nat :: v <= u <= w ==> snapshots(u) == snapshots(v)
  }

  ghost predicate SameNext(snapshots: Snapshots, u: nat) { snapshots(u + 1) == snapshots(u) }

  lemma {:induction false} SameStepByStep(snapshots: Snapshots, v: nat, w: nat)
    requires v <= w && forall u: nat :: v <= u < w ==> SameNext(snapshots, u)
    ensures SameSince(snapshots, v, w)
    decreases w
  {
    if w == v {
    } else {
      SameStepByStep(snapshots, v, w - 1);
      assert SameNext(snapshots, w - 1);
    }
  }

  lemma OneSilentEdit(cfg: Config, db: AuthDb, ops: nat -> Op, hash: string -> string, u: nat)
    requires Referential(db) && SilentAt(db, ops, hash, u)
    ensures SameNext(CompiledAt(cfg, db, ops, hash), u)
  {
    DbStaysReferential(db, ops, hash, u);
    SilentEditKeeps(cfg, DbAt(db, ops, hash, u), ops(u), hash);
    assert DbAt(db, ops, hash, u + 1) == Perform(DbAt(db, ops, hash, u), ops(u), hash).0;
  }

  lemma SilenceIsSame(cfg: Config, db: AuthDb, ops: nat -> Op, hash: string -> string, v: nat, w: nat)
    requires Referential(db) && v <= w && SilentFrom(db, ops, hash, v, w)
    ensures SameSince(CompiledAt(cfg, db, ops, hash), v, w)
  {
    var snapshots := CompiledAt(cfg, db, ops, hash);
    forall u: nat | v <= u < w ensures SameNext(snapshots, u) { OneSilentEdit(cfg, db, ops, hash, u); }
    SameStepByStep(snapshots, v, w);
  }

  // ---------- which snapshots are built ----------

  /** Nobody has built from the future, and whoever works has built no earlier than all who have ended. */
  ghost predicate BuiltInv(s: System) {
    && (forall i :: 0 <= i < |s.deployers| && VersionOf(s.deployers[i]).Some? ==> VersionOf(s.deployers[i]).value <= s.version)
    && (forall i, j :: 0 <= i < |s.deployers| && 0 <= j < |s.deployers| && i != j ==> BuiltBefore(s.deployers[i], s.deployers[j]))
  }

  ghost predicate BuiltBefore(d: Deployer, e: Deployer) {
    Over(d) && d.built.Some? && e.Working? ==> d.built.value <= e.version
  }

  lemma StepKeepsBuilt(s: System, a: DeploymentLock.Action, snapshots: Snapshots)
    requires LockInv(s) && BuiltInv(s)
    ensures BuiltInv(Step(s, a, snapshots))
  {
    var n := Step(s, a, snapshots);
    if !a.Edit? && n != s {
      StepIsQuietOrCalls(s, a, snapshots);
      var i := a.i;
      MoverBuilds(s, a, snapshots);
      forall j | 0 <= j < |n.deployers| && j != i
        ensures BuiltBefore(n.deployers[i], n.deployers[j]) && BuiltBefore(n.deployers[j], n.deployers[i])
      {
        assert n.deployers[j] == s.deployers[j];
        assert BuiltBefore(s.deployers[i], s.deployers[j]) && BuiltBefore(s.deployers[j], s.deployers[i]);
        if s.deployers[i].Working? { OnlyTheHolderWorks(s, i, j); }
      }
    }
  }

  /** A deployment's snapshot is the database's at its build, and stays what it was. */
  lemma MoverBuilds(s: System, a: DeploymentLock.Action, snapshots: Snapshots)
    requires BuiltInv(s) && !a.Edit? && Step(s, a, snapshots) != s
    ensures var d, e := s.deployers[a.i], Step(s, a, snapshots).deployers[a.i];
            && (VersionOf(e).Some? ==> VersionOf(e).value <= s.version)
            && (e.Working? && !d.Working? ==> e.version == s.version)
            && (e.Working? && d.Working? ==> e.version == d.version)
            && (Over(e) && e.built.Some? ==> VersionOf(e) == VersionOf(d))
  {
  }

  // ---------- what later deployments do to installed documents ----------

  /** As long as the database compiles to what a success installed, and no documents share a name, that is
      what the cluster holds, whatever is deployed, fails or is under way. */
  ghost predicate Settled(d: Deployer, s: System, snapshots: Snapshots) {
    Over(d) && d.success && d.built.Some? && SameSince(snapshots, d.built.value, s.version)
    && snapshots(d.built.value).Ok? && Agreeing(snapshots(d.built.value).value)
    ==> Managed(s.cluster) == DocMap(snapshots(d.built.value).value)
  }

  ghost predicate SettledInv(s: System, snapshots: Snapshots) {
    forall i :: 0 <= i < |s.deployers| ==> Settled(s.deployers[i], s, snapshots)
  }

  lemma PutKeepsManaged(c: Resources, docs: seq<Document>, d: Document)
    requires Managed(c) == DocMap(docs) && Agreeing(docs) && d in docs
    ensures c[KeyOf(d) := d] == c
  {
    AgreeingIsStored(docs, d);
    assert KeyOf(d) in Managed(c);
  }

  lemma RemovalKeepsManaged(c: Resources, docs: seq<Document>, key: ResourceKey)
    requires Managed(c) == DocMap(docs) && key !in Desired(docs)
    ensures Managed(c - {key}) == DocMap(docs)
  {
    DocMapContents(docs);
    assert key !in Managed(c);
  }

  lemma CallKeepsManaged(s: System, a: DeploymentLock.Action)
    requires IsCall(a) && a.i < |s.deployers| && s.deployers[a.i].Working? && InPhase(s.deployers[a.i], s.cluster)
    requires Managed(s.cluster) == DocMap(s.deployers[a.i].docs) && Agreeing(s.deployers[a.i].docs)
    ensures Managed(WorkStep(s, a).cluster) == DocMap(s.deployers[a.i].docs)
  {
    var d := s.deployers[a.i];
    if a.ApplyNext? && d.progress.Applying? && d.progress.n < |ApplyOrder(d.docs)| {
      ApplyOrderIsSorted(d.docs);
      assert ApplyOrder(d.docs)[d.progress.n] in ApplyOrder(d.docs);
      PutKeepsManaged(s.cluster, d.docs, ApplyOrder(d.docs)[d.progress.n]);
    }
    if a.DeleteItem? && d.progress.Pruning? && a.key in d.progress.items {
      RemovalKeepsManaged(s.cluster, d.docs, a.key);
    }
  }

  lemma MoverStaysSettled(s: System, a: DeploymentLock.Action, snapshots: Snapshots)
    requires ClusterInv(s, snapshots) && SettledInv(s, snapshots) && !a.Edit? && Step(s, a, snapshots) != s
    ensures Settled(Step(s, a, snapshots).deployers[a.i], Step(s, a, snapshots), snapshots)
  {
    var d := s.deployers[a.i];
    assert Settled(d, s, snapshots) && WorkInv(d, s.cluster, snapshots);
    if a.Finish? && d.Working? { FinishInstalls(s, a.i, snapshots); }
  }

  lemma OtherStaysSettled(s: System, a: DeploymentLock.Action, snapshots: Snapshots, i: nat)
    requires ClusterInv(s, snapshots) && BuiltInv(s) && SettledInv(s, snapshots)
    requires !a.Edit? && Step(s, a, snapshots) != s && i < |s.deployers| && i != a.i
    ensures Settled(s.deployers[i], Step(s, a, snapshots), snapshots)
  {
    var d, e := s.deployers[i], s.deployers[a.i];
    assert Settled(d, s, snapshots) && BuiltBefore(d, e);
    if e.Working? && IsCall(a) && Over(d) && d.built.Some? && SameSince(snapshots, d.built.value, s.version) {
      assert WorkInv(e, s.cluster, snapshots) && e.version <= s.version;
      assert snapshots(e.version) == snapshots(d.built.value);
      if d.success && Agreeing(e.docs) { CallKeepsManaged(s, a); }
    }
  }

  /** Every step, of edits and of deployments that succeed or fail, keeps installed documents installed. */
  lemma StepKeepsUpToDate(s: System, a: DeploymentLock.Action, snapshots: Snapshots)
    requires LockInv(s) && ClusterInv(s, snapshots) && BuiltInv(s) && SettledInv(s, snapshots)
    ensures BuiltInv(Step(s, a, snapshots)) && SettledInv(Step(s, a, snapshots), snapshots)
  {
    var n := Step(s, a, snapshots);
    StepKeepsBuilt(s, a, snapshots);
    if a.Edit? {
      forall i | 0 <= i < |n.deployers| ensures Settled(n.deployers[i], n, snapshots) {
        assert Settled(s.deployers[i], s, snapshots);
      }
    } else if n != s {
      StepIsQuietOrCalls(s, a, snapshots);
      MoverStaysSettled(s, a, snapshots);
      forall i | 0 <= i < |n.deployers| && i != a.i ensures Settled(n.deployers[i], n, snapshots) {
        assert n.deployers[i] == s.deployers[i];
        OtherStaysSettled(s, a, snapshots, i);
      }
    }
  }

  lemma {:induction false} RunKeepsUpToDate(s: System, acts: seq<DeploymentLock.Action>, snapshots: Snapshots)
    requires Sound(snapshots) && Inv(s, snapshots) && BuiltInv(s) && SettledInv(s, snapshots)
    ensures var n := Run(s, acts, snapshots);
            Inv(n, snapshots) && BuiltInv(n) && SettledInv(n, snapshots) && |n.deployers| == |s.deployers|
    decreases |acts|
  {
    if acts == [] {
    } else {
      StepKeepsInv(s, acts[0], snapshots);
      StepKeepsUpToDate(s, acts[0], snapshots);
      RunKeepsUpToDate(Step(s, acts[0], snapshots), acts[1..], snapshots);
    }
  }

  // ---------- heeding the warnings ----------

  lemma CompiledAtIsSound(cfg: Config, db: AuthDb, ops: nat -> Op, hash: string -> string)
    ensures Sound(CompiledAt(cfg, db, ops, hash))
  {
    forall v: nat | Compiled(cfg, DbAt(db, ops, hash, v)).Ok? ensures Deployable(Compiled(cfg, DbAt(db, ops, hash, v)).value) {
      CompiledDocumentsQualify(cfg, Grants(Query(DbAt(db, ops, hash, v))), Compiled(cfg, DbAt(db, ops, hash, v)).value);
    }
  }

  /** What is known of every reachable state and every deployment in it. */
  lemma ReachableState(s: System, acts: seq<DeploymentLock.Action>, snapshots: Snapshots, i: nat)
    requires Sound(snapshots) && Start(s) && i < |s.deployers|
    ensures var n := Run(s, acts, snapshots);
            && |n.deployers| == |s.deployers| && BuiltInv(n)
            && Installed(n.deployers[i], n, snapshots) && Settled(n.deployers[i], n, snapshots)
  {
    StartIsInv(s, snapshots);
    RunKeepsUpToDate(s, acts, snapshots);
  }

  lemma SilentSinceTheBuild(n: System, d: Deployer, db: AuthDb, ops: nat -> Op, cfg: Config, hash: string -> string)
    requires Referential(db) && Usable(cfg.naming) && Over(d) && d.success && d.built.Some? && d.built.value <= n.version
    requires Installed(d, n, CompiledAt(cfg, db, ops, hash)) && Settled(d, n, CompiledAt(cfg, db, ops, hash))
    requires SilentFrom(db, ops, hash, d.built.value, n.version)
    ensures var now := DbAt(db, ops, hash, n.version);
            && Compiled(cfg, now).Ok?
            && (d.made == |n.calls| || CollisionFree(cfg, now) ==> Current(n.cluster, cfg, now))
  {
    var now := DbAt(db, ops, hash, n.version);
    SilenceIsSame(cfg, db, ops, hash, d.built.value, n.version);
    assert CompiledAt(cfg, db, ops, hash)(n.version) == CompiledAt(cfg, db, ops, hash)(d.built.value);
    assert Compiled(cfg, now).Ok?;
    DbStaysReferential(db, ops, hash, n.version);
    AgreeingWithoutCollision(cfg, now, Compiled(cfg, now).value);
  }

  /** Over any interleaving of edits with deployments that succeed or fail, call by call: if a deployment has
      succeeded and no warning has been shown since it built its documents, the managed resources are exactly
      those compiled from the database as it is now, provided that nobody has called the cluster since or that
      no two models of a class collide. */
  lemma HeedingWarningsSuffices(s: System, acts: seq<DeploymentLock.Action>, db: AuthDb, ops: nat -> Op, cfg: Config,
                                hash: string -> string, i: nat)
    requires Start(s) && Referential(db) && Usable(cfg.naming) && i < |s.deployers|
    ensures var n := Run(s, acts, CompiledAt(cfg, db, ops, hash));
            && |n.deployers| == |s.deployers|
            && var d, now := n.deployers[i], DbAt(db, ops, hash, n.version);
            Over(d) && d.success ==>
              && d.built.Some? && d.built.value <= n.version
              && (SilentFrom(db, ops, hash, d.built.value, n.version) ==>
                    && Compiled(cfg, now).Ok?
                    && (d.made == |n.calls| || CollisionFree(cfg, now) ==> Current(n.cluster, cfg, now)))
  {
    var n := Run(s, acts, CompiledAt(cfg, db, ops, hash));
    CompiledAtIsSound(cfg, db, ops, hash);
    ReachableState(s, acts, CompiledAt(cfg, db, ops, hash), i);
    var d := n.deployers[i];
    if Over(d) && d.success {
      assert VersionOf(d) == d.built;
      if SilentFrom(db, ops, hash, d.built.value, n.version) { SilentSinceTheBuild(n, d, db, ops, cfg, hash); }
    }
  }

  // ---------- when exactly the cluster is current ----------

  /** Different limits show in the documents, unless a collision hides them. */
  lemma SameResourcesSameGrant(cfg: Config, a: AuthDb, b: AuthDb, g: Grant)
    requires Referential(a) && Referential(b) && Usable(cfg.naming) && CollisionFree(cfg, a) && CollisionFree(cfg, b)
    requires Compiled(cfg, a).Ok? && Compiled(cfg, b).Ok? && DocMap(Compiled(cfg, a).value) == DocMap(Compiled(cfg, b).value)
    requires g in Grants(Query(a))
    ensures g in Grants(Query(b))
  {
    GrantIsStored(cfg, a, g);
    var h := StoredIsAGrant(cfg, b, RouteKey(cfg, g));
    var k := StoredIsAGrant(cfg, b, QuotaKey(cfg, g));
    SameSuffix(Name(cfg, k), Name(cfg, g));
    SameNameSameGrant(cfg, b, h, k);
    SamePairSameGrant(cfg, g, h);
  }

  lemma GrantIsStored(cfg: Config, db: AuthDb, g: Grant)
    requires Referential(db) && Usable(cfg.naming) && CollisionFree(cfg, db) && Compiled(cfg, db).Ok? && g in Grants(Query(db))
    ensures Backed(cfg, g)
    ensures var m := DocMap(Compiled(cfg, db).value);
            && RouteKey(cfg, g) in m && m[RouteKey(cfg, g)] == RouteDocument(cfg, g)
            && QuotaKey(cfg, g) in m && m[QuotaKey(cfg, g)] == QuotaDocument(cfg, g)
  {
    var gs, docs := Grants(Query(db)), Compiled(cfg, db).value;
    var n := LastNamedIsLast(cfg, gs, g);
    assert gs[n] in gs;
    SameNameSameGrant(cfg, db, gs[n], g);
    DocumentsHoldLast(cfg, gs, docs, Name(cfg, g));
  }

  lemma StoredIsAGrant(cfg: Config, db: AuthDb, key: ResourceKey) returns (h: Grant)
    requires Compiled(cfg, db).Ok? && key in DocMap(Compiled(cfg, db).value) && key.kind != SecurityKind
    ensures h in Grants(Query(db)) && Backed(cfg, h)
    ensures var d := DocMap(Compiled(cfg, db).value)[key];
            d == (if key.kind == RouteKind then RouteDocument(cfg, h) else QuotaDocument(cfg, h)) && KeyOf(d) == key
  {
    var gs, docs := Grants(Query(db)), Compiled(cfg, db).value;
    DocMapContents(docs);
    CompiledContents(cfg, gs, docs);
    var i :| 0 <= i < |gs| && (DocMap(docs)[key] == RouteDocument(cfg, gs[i]) || DocMap(docs)[key] == QuotaDocument(cfg, gs[i]));
    h := gs[i];
  }

  /** Two collision-free databases that compile have the same resources exactly when the same limits apply to
      every project. */
  lemma SameResourcesSameLimits(cfg: Config, a: AuthDb, b: AuthDb)
    requires Referential(a) && Referential(b) && Usable(cfg.naming) && CollisionFree(cfg, a) && CollisionFree(cfg, b)
    requires Compiled(cfg, a).Ok? && Compiled(cfg, b).Ok?
    ensures DocMap(Compiled(cfg, a).value) == DocMap(Compiled(cfg, b).value) <==> forall pk :: LimitsOf(a, pk) == LimitsOf(b, pk)
  {
    if DocMap(Compiled(cfg, a).value) == DocMap(Compiled(cfg, b).value) {
      forall g ensures g in Grants(Query(a)) <==> g in Grants(Query(b)) {
        if g in Grants(Query(a)) { SameResourcesSameGrant(cfg, a, b, g); }
        if g in Grants(Query(b)) { SameResourcesSameGrant(cfg, b, a, g); }
      }
      QueryGrants(a);
      QueryGrants(b);
      forall pk ensures LimitsOf(a, pk) == LimitsOf(b, pk) { SameGrantsSameLimits(a, b, pk); }
    }
    if forall pk :: LimitsOf(a, pk) == LimitsOf(b, pk) {
      GrantsAreTheLimits(a, b);
    }
  }

  /** After a success, until somebody calls again, the cluster is current exactly when the database compiles
      to the resources it compiled to at the build; without collisions, exactly when no project's limits
      differ from what they were then. */
  lemma CurrentExactlyWhen(s: System, acts: seq<DeploymentLock.Action>, db: AuthDb, ops: nat -> Op, cfg: Config,
                           hash: string -> string, i: nat)
    requires Start(s) && Referential(db) && Usable(cfg.naming) && i < |s.deployers|
    ensures var n := Run(s, acts, CompiledAt(cfg, db, ops, hash));
            && |n.deployers| == |s.deployers|
            && var d, now := n.deployers[i], DbAt(db, ops, hash, n.version);
            Over(d) && d.success && d.made == |n.calls| ==>
              && d.built.Some? && var built := DbAt(db, ops, hash, d.built.value);
              && Compiled(cfg, built).Ok?
              && (Current(n.cluster, cfg, now) <==>
                  Compiled(cfg, now).Ok? && DocMap(Compiled(cfg, now).value) == DocMap(Compiled(cfg, built).value))
              && (Compiled(cfg, now).Ok? && CollisionFree(cfg, now) && CollisionFree(cfg, built) ==>
                    (Current(n.cluster, cfg, now) <==> forall pk :: LimitsOf(now, pk) == LimitsOf(built, pk)))
  {
    var n := Run(s, acts, CompiledAt(cfg, db, ops, hash));
    CompiledAtIsSound(cfg, db, ops, hash);
    ReachableState(s, acts, CompiledAt(cfg, db, ops, hash), i);
    var d, now := n.deployers[i], DbAt(db, ops, hash, n.version);
    if Over(d) && d.success && d.made == |n.calls| {
      var built := DbAt(db, ops, hash, d.built.value);
      DbStaysReferential(db, ops, hash, n.version);
      DbStaysReferential(db, ops, hash, d.built.value);
      if Compiled(cfg, now).Ok? && CollisionFree(cfg, now) && CollisionFree(cfg, built) {
        SameResourcesSameLimits(cfg, now, built);
      }
    }
  }
  // ---------- an edit during a deployment ----------

  const IDLE := System(None, 0, map[], [Idle], [])

  const OVERTAKEN := [TryLock(0), Build(0, true), Edit, List(0, Works), List(0, Works), List(0, Works), Finish(0)]

  ghost function AtKind(k: nat): System {
    System(Some(0), 1, map[], [Working(0, [], map[], Pruning(k, {}))], [])
  }

  lemma ListsNothing(snapshots: Snapshots)
    ensures Step(System(Some(0), 1, map[], [Working(0, [], map[], Applying(0))], []), List(0, Works), snapshots) == AtKind(0)
    ensures Step(AtKind(0), List(0, Works), snapshots) == AtKind(1) && Step(AtKind(1), List(0, Works), snapshots) == AtKind(2)
    ensures Step(AtKind(2), Finish(0), snapshots) == System(Some(0), 1, map[], [Ending(Some(0), true, 0)], [])
  {
    forall k: nat | k < |PRUNE_ORDER| ensures Listing(map[], [], k) == {} {
    }
    assert ApplyOrder([]) == [];
  }

  lemma RunTwo(s: System, a: DeploymentLock.Action, acts: seq<DeploymentLock.Action>, snapshots: Snapshots)
    ensures Run(s, [a] + acts, snapshots) == Run(Step(s, a, snapshots), acts, snapshots)
  {
    assert ([a] + acts)[1..] == acts;
  }

  const BUILT := System(Some(0), 0, map[], [Working(0, [], map[], Applying(0))], [])

  const LISTINGS := [List(0, Works), List(0, Works), List(0, Works), Finish(0)]

  lemma ListingsFinish(snapshots: Snapshots)
    ensures Run(BUILT.(version := 1), LISTINGS, snapshots) == System(Some(0), 1, map[], [Ending(Some(0), true, 0)], [])
  {
    ListsNothing(snapshots);
    var none: seq<DeploymentLock.Action> := [];
    RunTwo(AtKind(2), Finish(0), none, snapshots);
    RunTwo(AtKind(1), List(0, Works), [Finish(0)] + none, snapshots);
    RunTwo(AtKind(0), List(0, Works), [List(0, Works)] + ([Finish(0)] + none), snapshots);
    RunTwo(BUILT.(version := 1), List(0, Works), [List(0, Works)] + ([List(0, Works)] + ([Finish(0)] + none)), snapshots);
    assert LISTINGS == [List(0, Works)] + ([List(0, Works)] + ([List(0, Works)] + ([Finish(0)] + none)));
  }

  /** Built before the edit, finished after it. */
  lemma OvertakenRun(snapshots: Snapshots)
    requires snapshots(0) == Ok([])
    ensures Start(IDLE)
    ensures Run(IDLE, OVERTAKEN, snapshots) == System(Some(0), 1, map[], [Ending(Some(0), true, 0)], [])
  {
    var held := System(Some(0), 0, map[], [Holding], []);
    assert Step(IDLE, TryLock(0), snapshots) == held && Step(held, Build(0, true), snapshots) == BUILT;
    ListingsFinish(snapshots);
    RunTwo(BUILT, Edit, LISTINGS, snapshots);
    RunTwo(held, Build(0, true), [Edit] + LISTINGS, snapshots);
    RunTwo(IDLE, TryLock(0), [Build(0, true)] + ([Edit] + LISTINGS), snapshots);
    assert OVERTAKEN == [TryLock(0)] + ([Build(0, true)] + ([Edit] + LISTINGS));
  }

  /** A database whose one limit is added by the first edit. */
  lemma AddingALimit(cfg: Config, hash: string -> string, model: string)
    requires model in cfg.backends && 0 < |model| <= 200
    ensures var op := SubmitLimit(None, LimitRef(1, model), LimitRow(1, None));
            && Perform(OneProject(map[]), op, hash) == (OneProject(map[model := LimitRow(1, None)]), Accepted(true))
            && DbAt(OneProject(map[]), (v: nat) => op, hash, 1) == OneProject(map[model := LimitRow(1, None)])
  {
    var db, op := OneProject(map[]), SubmitLimit(None, LimitRef(1, model), LimitRow(1, None));
    SavedLimit(db, None, LimitRef(1, model), LimitRow(1, None));
    assert Stored(db, LimitRef(1, model)) == None;
    assert db.classes[1].limits[model := LimitRow(1, None)] == map[model := LimitRow(1, None)];
    assert Inserted(db, LimitRef(1, model), LimitRow(1, None)) == OneProject(map[model := LimitRow(1, None)]);
    assert DbAt(db, (v: nat) => op, hash, 0) == db;
  }

  lemma EmptyIsNotCurrent(cfg: Config, model: string)
    requires model in cfg.backends
    ensures Compiled(cfg, OneProject(map[model := LimitRow(1, None)])).Ok?
    ensures !Current(map[], cfg, OneProject(map[model := LimitRow(1, None)]))
  {
    var later := OneProject(map[model := LimitRow(1, None)]);
    assert model in map[model := LimitRow(1, None)];
    OneProjectCompiles(cfg, map[model := LimitRow(1, None)]);
    var docs := Compiled(cfg, later).value;
    DocMapContents(docs);
    assert docs[0] in docs && KeyOf(docs[0]) in Desired(docs);
  }

  /** A limit added while a deployment runs: its warning is shown, the deployment then succeeds, and the
      cluster still lacks the limit. No warning since the last success does not suffice. */
  lemma EditDuringDeployment(cfg: Config, hash: string -> string, model: string)
    requires model in cfg.backends && 0 < |model| <= 200
    ensures var db, op := OneProject(map[]), SubmitLimit(None, LimitRef(1, model), LimitRow(1, None));
            var n := Run(IDLE, OVERTAKEN, CompiledAt(cfg, db, (v: nat) => op, hash));
            && Start(IDLE) && Perform(db, op, hash).1 == Accepted(true)
            && n.deployers == [Ending(Some(0), true, 0)] && n.version == 1
            && Compiled(cfg, DbAt(db, (v: nat) => op, hash, 1)).Ok?
            && !Current(n.cluster, cfg, DbAt(db, (v: nat) => op, hash, 1))
  {
    OneProjectCompiles(cfg, map[]);
    AddingALimit(cfg, hash, model);
    EmptyIsNotCurrent(cfg, model);
    var db, op := OneProject(map[]), SubmitLimit(None, LimitRef(1, model), LimitRow(1, None));
    assert CompiledAt(cfg, db, (v: nat) => op, hash)(0) == Ok([]);
    OvertakenRun(CompiledAt(cfg, db, (v: nat) => op, hash));
  }

  // ---------- the code ----------

  /** How a deployment ended: with success, or with an error that left the cluster as stated. */
  datatype Attempt = Succeeded | Stopped(left: Resources)

  /** A deployment succeeds only if the database compiles. One that is turned away, that cannot compile or
      cannot reach the cluster leaves the cluster alone; any other failure leaves it midway. */
  ghost predicate Possible(db: AuthDb, cluster: Resources, attempt: Attempt, cfg: Config) {
    var compiled := Compiled(cfg, db);
    match attempt
    case Succeeded => compiled.Ok?
    case Stopped(left) => left == cluster || (compiled.Ok? && Midway(cluster, compiled.value, left))
  }

  ghost function ClusterAfter(db: AuthDb, cluster: Resources, attempt: Attempt, cfg: Config): Resources
    requires Possible(db, cluster, attempt, cfg)
  {
    match attempt
    case Succeeded => Reconciled(cluster, Compiled(cfg, db).value)
    case Stopped(left) => left
  }

  /** deploy_all_policies: the lock, the compilation inside it, and the deployment. acquired says whether the
      lock was free, projects is what the compiler's query returns. */
  method Redeploy(api: Api, cfg: Config, ghost db: AuthDb, projects: seq<PolicyProject>, acquired: bool, environment: bool,
                  faults: nat -> Fault)
    returns (attempt: Attempt)
    requires projects == Query(db) && WellFormed(api.resources) && Logged([], api.history, api.resources)
    modifies api
    ensures Possible(db, old(api.resources), attempt, cfg)
    ensures api.resources == ClusterAfter(db, old(api.resources), attempt, cfg)
    ensures acquired && environment && Compiled(cfg, db).Ok? && NoFaults(faults) ==> attempt.Succeeded?
  {
    if !acquired { return Stopped(api.resources); }
    var compiled := BuildPolicyDocuments(cfg, projects);
    if compiled.Ok? { CompiledDocumentsQualify(cfg, Grants(projects), compiled.value); }
    ghost var before, earlier := api.resources, api.history;
    var result := api.DeployAllPolicies(compiled, environment, faults);
    attempt := if result.Deployed? then Succeeded else Stopped(api.resources);
    if compiled.Ok? && api.history != earlier {
      LastIsMidway(before, compiled.value, earlier, api.history, api.resources);
    }
  }

  lemma LastIsMidway(c: Resources, docs: seq<Document>, earlier: seq<Resources>, history: seq<Resources>, now: Resources)
    requires Logged(earlier, history, now) && Trail(c, docs, history, |earlier|) && history != earlier
    ensures Midway(c, docs, now)
  {
    assert |earlier| < |history|;
  }
}
