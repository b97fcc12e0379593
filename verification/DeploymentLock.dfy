/** Concurrent deployments under the advisory lock, with database edits in between
    (apps/authz/kubernetes.py:62-77 and 108-157). */
module DeploymentLock {
  import opened Common
  import opened Policies
  import opened Kubernetes

  /** Where a deployment is: n documents applied in order, or the listing of kind number k made and items of
      it still to be visited. */
  datatype Progress = Applying(n: nat) | Pruning(k: nat, items: set<ResourceKey>)

  /** start is the cluster as the deployment found it; made counts the calls of all deployments until the
      body of this one ended. */
  datatype Deployer =
    | Idle
    | TurnedAway
    | Holding
    | Working(version: nat, docs: seq<Document>, start: Resources, progress: Progress)
    | Ending(built: Option<nat>, success: bool, made: nat)
    | Released(built: Option<nat>, success: bool, made: nat)

  /** A change of the cluster requested by deployment who, which compiled snapshot version. */
  datatype Call = Call(who: nat, version: nat)

  /** version counts the edits the database has seen. */
  datatype System = System(lock: Option<nat>, version: nat, cluster: Resources, deployers: seq<Deployer>, calls: seq<Call>)

  /** What the database compiles to after any number of edits. */
  type Snapshots = nat -> Result<seq<Document>, ()>

  datatype Action =
    | Edit
    | TryLock(i: nat)
    | Build(i: nat, environment: bool)
    | ApplyNext(i: nat, fault: Fault)
    | List(i: nat, fault: Fault)
    | DeleteItem(i: nat, key: ResourceKey, fault: Fault)
    | Finish(i: nat)
    | Unlock(i: nat)

  predicate Critical(d: Deployer) { d.Holding? || d.Working? || d.Ending? }

  function Become(s: System, i: nat, d: Deployer): System
    requires i < |s.deployers|
  {
    s.(deployers := s.deployers[i := d])
  }

  /** A call that changes the cluster, unless refused, and ends the deployment's body, unless it works. */
  function Called(s: System, i: nat, fault: Fault, changed: Resources, progress: Progress): System
    requires i < |s.deployers| && s.deployers[i].Working?
  {
    var d := s.deployers[i];
    Become(s, i, if fault.Works? then d.(progress := progress) else Ending(Some(d.version), false, |s.calls| + 1))
    .(cluster := if fault.Refused? then s.cluster else changed, calls := s.calls + [Call(i, d.version)])
  }

  /** The unwanted resources a listing of one kind shows. */
  function Listing(c: Resources, docs: seq<Document>, k: nat): set<ResourceKey>
    requires k < |PRUNE_ORDER|
  {
    set key | key in c && key.kind == PRUNE_ORDER[k] && IsManaged(c[key]) && key.name != "" && key !in Desired(docs)
  }

  /** The kind to list next, once everything is applied or the previous kind is done. */
  function NextKind(d: Deployer): Option<nat>
    requires d.Working?
  {
    match d.progress
    case Applying(n) => if n == |ApplyOrder(d.docs)| then Some(0) else None
    case Pruning(k, items) => if items == {} && k + 1 < |PRUNE_ORDER| then Some(k + 1) else None
  }

  predicate AllPruned(d: Deployer)
    requires d.Working?
  {
    d.progress.Pruning? && d.progress.k + 1 == |PRUNE_ORDER| && d.progress.items == {}
  }

  function BuildStep(s: System, i: nat, environment: bool, snapshots: Snapshots): System
    requires i < |s.deployers|
  {
    match snapshots(s.version)
    case Err(_) => Become(s, i, Ending(None, false, |s.calls|))
    case Ok(docs) =>
      Become(s, i, if environment then Working(s.version, docs, s.cluster, Applying(0)) else Ending(None, false, |s.calls|))
  }

  function ListStep(s: System, i: nat, fault: Fault): System
    requires i < |s.deployers| && s.deployers[i].Working? && NextKind(s.deployers[i]).Some?
    requires NextKind(s.deployers[i]).value < |PRUNE_ORDER|
  {
    var d := s.deployers[i];
    var k := NextKind(d).value;
    Become(s, i, if fault.Works? then d.(progress := Pruning(k, Listing(s.cluster, d.docs, k)))
                 else Ending(Some(d.version), false, |s.calls|))
  }

  function WorkStep(s: System, a: Action): System
    requires (a.ApplyNext? || a.List? || a.DeleteItem? || a.Finish?) && a.i < |s.deployers| && s.deployers[a.i].Working?
  {
    var d := s.deployers[a.i];
    match a
    case ApplyNext(i, fault) =>
      if d.progress.Applying? && d.progress.n < |ApplyOrder(d.docs)| then
        var doc := ApplyOrder(d.docs)[d.progress.n];
        Called(s, i, fault, s.cluster[KeyOf(doc) := doc], Applying(d.progress.n + 1))
      else s
    case List(i, fault) =>
      if NextKind(d).Some? then ListStep(s, i, fault) else s
    case DeleteItem(i, key, fault) =>
      if d.progress.Pruning? && key in d.progress.items
      then Called(s, i, fault, s.cluster - {key}, Pruning(d.progress.k, d.progress.items - {key}))
      else s
    case Finish(i) =>
      if AllPruned(d) then Become(s, i, Ending(Some(d.version), true, |s.calls|)) else s
  }

  /** An action that does not apply leaves the system alone. The lock is given back in a step of its own,
      after success and after failure alike. */
  function Step(s: System, a: Action, snapshots: Snapshots): System {
    if a.Edit? then s.(version := s.version + 1)
    else if a.i >= |s.deployers| then s
    else
      var d := s.deployers[a.i];
      match a
      case TryLock(i) =>
        if !d.Idle? then s
        else if s.lock.Some? then Become(s, i, TurnedAway)
        else Become(s, i, Holding).(lock := Some(i))
      case Build(i, environment) => if d.Holding? then BuildStep(s, i, environment, snapshots) else s
      case Unlock(i) => if d.Ending? then Become(s, i, Released(d.built, d.success, d.made)).(lock := None) else s
      case _ => if d.Working? then WorkStep(s, a) else s
  }

  function Run(s: System, acts: seq<Action>, snapshots: Snapshots): System
    decreases |acts|
  {
    if acts == [] then s else Run(Step(s, acts[0], snapshots), acts[1..], snapshots)
  }

  /** What is asked of the compiler's results; compiled documents meet it. */
  ghost predicate Sound(snapshots: Snapshots) {
    forall v :: snapshots(v).Ok? ==> Deployable(snapshots(v).value)
  }

  ghost predicate Deployable(docs: seq<Document>) {
    Closed(docs) && Named(docs) && forall d :: d in docs ==> IsManaged(d)
  }

  ghost predicate Start(s: System) {
    && s.lock == None && s.calls == [] && WellFormed(s.cluster) && Safe(s.cluster)
    && forall i :: 0 <= i < |s.deployers| ==> s.deployers[i] == Idle
  }

  // ---------- mutual exclusion ----------

  ghost predicate LockInv(s: System) {
    && (forall i :: 0 <= i < |s.deployers| ==> (Critical(s.deployers[i]) <==> s.lock == Some(i)))
    && (s.lock.Some? ==> s.lock.value < |s.deployers|)
  }

  lemma StepKeepsLock(s: System, a: Action, snapshots: Snapshots)
    requires LockInv(s)
    ensures LockInv(Step(s, a, snapshots)) && |Step(s, a, snapshots).deployers| == |s.deployers|
  {
  }

  // ---------- the holder's progress ----------

  /** The cluster is what the deployment's own calls have made of what it found. */
  ghost predicate InPhase(d: Deployer, cluster: Resources)
    requires d.Working?
  {
    match d.progress
    case Applying(n) => n <= |ApplyOrder(d.docs)| && cluster == d.start + DocMap(ApplyOrder(d.docs)[..n])
    case Pruning(k, items) =>
      && k < |PRUNE_ORDER| && items <= StaleOfKind(d.start, d.docs, PRUNE_ORDER[k])
      && cluster == Pruned(d.start, d.docs, k) - (StaleOfKind(d.start, d.docs, PRUNE_ORDER[k]) - items)
  }

  ghost predicate GoodStart(d: Deployer, snapshots: Snapshots)
    requires d.Working?
  {
    && snapshots(d.version) == Ok(d.docs) && Deployable(d.docs) && WellFormed(d.start) && Safe(d.start)
  }

  ghost predicate WorkInv(d: Deployer, cluster: Resources, snapshots: Snapshots) {
    d.Working? ==> GoodStart(d, snapshots) && InPhase(d, cluster)
  }

  ghost predicate ClusterInv(s: System, snapshots: Snapshots) {
    && WellFormed(s.cluster) && Safe(s.cluster)
    && forall i :: 0 <= i < |s.deployers| ==> WorkInv(s.deployers[i], s.cluster, snapshots)
  }

  lemma InPhaseIsMidway(d: Deployer, cluster: Resources)
    requires d.Working? && InPhase(d, cluster)
    ensures Midway(d.start, d.docs, cluster)
  {
    match d.progress
    case Applying(n) =>
      assert PartlyApplied(d.start, ApplyOrder(d.docs), cluster);
    case Pruning(k, items) =>
      assert PartlyDeleted(Pruned(d.start, d.docs, k), StaleOfKind(d.start, d.docs, PRUNE_ORDER[k]), cluster);
  }

  lemma InPhaseIsSafe(d: Deployer, cluster: Resources, snapshots: Snapshots)
    requires d.Working? && GoodStart(d, snapshots) && InPhase(d, cluster)
    ensures WellFormed(cluster) && Safe(cluster)
  {
    InPhaseIsMidway(d, cluster);
    MidwayIsSafe(d.start, d.docs, cluster);
    MidwayIsWellFormed(d.start, d.docs, cluster);
  }

  lemma ApplyKeepsPhase(d: Deployer, cluster: Resources)
    requires d.Working? && InPhase(d, cluster) && d.progress.Applying? && d.progress.n < |ApplyOrder(d.docs)|
    ensures var doc := ApplyOrder(d.docs)[d.progress.n];
            InPhase(d.(progress := Applying(d.progress.n + 1)), cluster[KeyOf(doc) := doc])
  {
    var o, n := ApplyOrder(d.docs), d.progress.n;
    assert o[..n + 1] == o[..n] + [o[n]];
    DocMapSnoc(o[..n], o[n]);
  }

  lemma DeleteKeepsPhase(d: Deployer, cluster: Resources, key: ResourceKey)
    requires d.Working? && InPhase(d, cluster) && d.progress.Pruning? && key in d.progress.items
    ensures InPhase(d.(progress := Pruning(d.progress.k, d.progress.items - {key})), cluster - {key})
  {
    var all, items := StaleOfKind(d.start, d.docs, PRUNE_ORDER[d.progress.k]), d.progress.items;
    assert all - (items - {key}) == (all - items) + {key};
  }

  /** Before a listing the cluster is what the kinds pruned so far leave. */
  lemma ListKeepsPhase(d: Deployer, cluster: Resources, k: nat)
    requires d.Working? && InPhase(d, cluster) && WellFormed(d.start) && Named(d.docs)
    requires NextKind(d) == Some(k) && k < |PRUNE_ORDER|
    ensures Listing(cluster, d.docs, k) == StaleOfKind(d.start, d.docs, PRUNE_ORDER[k])
    ensures InPhase(d.(progress := Pruning(k, Listing(cluster, d.docs, k))), cluster)
  {
    PrunedBefore(d, cluster, k);
    var items := set key | key in cluster && key.kind == PRUNE_ORDER[k] && IsManaged(cluster[key]);
    ListedStale(d.start, d.docs, k, items);
    assert Listing(cluster, d.docs, k) == items - Desired(d.docs);
    var all := StaleOfKind(d.start, d.docs, PRUNE_ORDER[k]);
    assert all - all == {} && cluster - {} == cluster;
  }

  lemma PrunedBefore(d: Deployer, cluster: Resources, k: nat)
    requires d.Working? && InPhase(d, cluster) && NextKind(d) == Some(k) && k < |PRUNE_ORDER|
    ensures cluster == Pruned(d.start, d.docs, k)
  {
    if d.progress.Applying? {
      assert ApplyOrder(d.docs)[..d.progress.n] == ApplyOrder(d.docs);
      ApplyOrderSameResult(d.docs);
      assert PrunedKinds(d.start, d.docs, 0) == {};
    } else {
      assert StaleOfKind(d.start, d.docs, PRUNE_ORDER[k - 1]) - {} == StaleOfKind(d.start, d.docs, PRUNE_ORDER[k - 1]);
      OneMoreKind(d.start, d.docs, k - 1);
    }
  }

  lemma AllPrunedIsReconciled(d: Deployer, cluster: Resources)
    requires d.Working? && InPhase(d, cluster) && AllPruned(d)
    ensures cluster == Reconciled(d.start, d.docs)
  {
    var k := d.progress.k;
    assert StaleOfKind(d.start, d.docs, PRUNE_ORDER[k]) - {} == StaleOfKind(d.start, d.docs, PRUNE_ORDER[k]);
    OneMoreKind(d.start, d.docs, k);
    PruneEnds(d.start, d.docs, |PrunedKinds(d.start, d.docs, |PRUNE_ORDER|)|, cluster);
  }

  lemma ApplyCallKeeps(s: System, i: nat, fault: Fault, snapshots: Snapshots)
    requires i < |s.deployers| && s.deployers[i].Working? && s.deployers[i].progress.Applying?
    requires s.deployers[i].progress.n < |ApplyOrder(s.deployers[i].docs)|
    requires WellFormed(s.cluster) && Safe(s.cluster) && WorkInv(s.deployers[i], s.cluster, snapshots)
    ensures var n := WorkStep(s, ApplyNext(i, fault));
            WorkInv(n.deployers[i], n.cluster, snapshots) && WellFormed(n.cluster) && Safe(n.cluster)
  {
    var d := s.deployers[i];
    var doc := ApplyOrder(d.docs)[d.progress.n];
    ApplyKeepsPhase(d, s.cluster);
    InPhaseIsSafe(d.(progress := Applying(d.progress.n + 1)), s.cluster[KeyOf(doc) := doc], snapshots);
  }

  lemma DeleteCallKeeps(s: System, i: nat, key: ResourceKey, fault: Fault, snapshots: Snapshots)
    requires i < |s.deployers| && s.deployers[i].Working? && s.deployers[i].progress.Pruning? && key in s.deployers[i].progress.items
    requires WellFormed(s.cluster) && Safe(s.cluster) && WorkInv(s.deployers[i], s.cluster, snapshots)
    ensures var n := WorkStep(s, DeleteItem(i, key, fault));
            WorkInv(n.deployers[i], n.cluster, snapshots) && WellFormed(n.cluster) && Safe(n.cluster)
  {
    var d := s.deployers[i];
    DeleteKeepsPhase(d, s.cluster, key);
    InPhaseIsSafe(d.(progress := Pruning(d.progress.k, d.progress.items - {key})), s.cluster - {key}, snapshots);
  }

  /** Whatever befalls a call, the deployment stays in phase or ends, and the cluster stays safe. */
  lemma CallKeepsPhase(s: System, a: Action, snapshots: Snapshots)
    requires (a.ApplyNext? || a.List? || a.DeleteItem? || a.Finish?) && a.i < |s.deployers|
    requires ClusterInv(s, snapshots) && s.deployers[a.i].Working?
    ensures var n := WorkStep(s, a);
            && |n.deployers| == |s.deployers| && WorkInv(n.deployers[a.i], n.cluster, snapshots)
            && WellFormed(n.cluster) && Safe(n.cluster)
  {
    var d := s.deployers[a.i];
    assert WorkInv(d, s.cluster, snapshots);
    match a
    case ApplyNext(i, fault) =>
      if d.progress.Applying? && d.progress.n < |ApplyOrder(d.docs)| { ApplyCallKeeps(s, i, fault, snapshots); }
    case List(i, fault) =>
      if NextKind(d).Some? { ListKeepsPhase(d, s.cluster, NextKind(d).value); }
    case DeleteItem(i, key, fault) =>
      if d.progress.Pruning? && key in d.progress.items { DeleteCallKeeps(s, i, key, fault, snapshots); }
    case Finish(i) =>
  }

  lemma OnlyTheHolderWorks(s: System, i: nat, j: nat)
    requires LockInv(s) && i < |s.deployers| && j < |s.deployers| && s.deployers[i].Working? && i != j
    ensures !s.deployers[j].Working?
  {
    assert Critical(s.deployers[i]) && (Critical(s.deployers[j]) <==> s.lock == Some(j));
  }

  ghost predicate IsCall(a: Action) { a.ApplyNext? || a.List? || a.DeleteItem? || a.Finish? }

  lemma StepKeepsCluster(s: System, a: Action, snapshots: Snapshots)
    requires Sound(snapshots) && LockInv(s) && ClusterInv(s, snapshots)
    ensures ClusterInv(Step(s, a, snapshots), snapshots)
  {
    var n := Step(s, a, snapshots);
    if IsCall(a) && a.i < |s.deployers| && s.deployers[a.i].Working? {
      CallKeepsPhase(s, a, snapshots);
      forall j | 0 <= j < |n.deployers| && j != a.i ensures WorkInv(n.deployers[j], n.cluster, snapshots) {
        OnlyTheHolderWorks(s, a.i, j);
        assert n.deployers[j] == s.deployers[j];
      }
    } else if a.Build? && a.i < |s.deployers| && s.deployers[a.i].Holding? {
      BuildStarts(s, a.i, a.environment, snapshots);
    } else {
      QuietCluster(s, a, snapshots);
    }
  }

  lemma BuildStarts(s: System, i: nat, environment: bool, snapshots: Snapshots)
    requires Sound(snapshots) && ClusterInv(s, snapshots) && i < |s.deployers|
    ensures ClusterInv(BuildStep(s, i, environment, snapshots), snapshots)
  {
    var n := BuildStep(s, i, environment, snapshots);
    if n.deployers[i].Working? {
      assert ApplyOrder(n.deployers[i].docs)[..0] == [] && s.cluster + DocMap([]) == s.cluster;
    }
    forall j | 0 <= j < |n.deployers| && j != i ensures WorkInv(n.deployers[j], n.cluster, snapshots) {
      assert n.deployers[j] == s.deployers[j];
    }
  }

  lemma QuietCluster(s: System, a: Action, snapshots: Snapshots)
    requires ClusterInv(s, snapshots)
    requires !a.Edit? && a.i < |s.deployers| ==> !(IsCall(a) && s.deployers[a.i].Working?) && !(a.Build? && s.deployers[a.i].Holding?)
    ensures ClusterInv(Step(s, a, snapshots), snapshots)
  {
  }

  /** Whoever asks gets the lock if it is free and is turned away at once if it is not; nothing else changes. */
  lemma AskingForTheLock(s: System, i: nat, snapshots: Snapshots)
    requires i < |s.deployers| && s.deployers[i] == Idle
    ensures var n := Step(s, TryLock(i), snapshots);
            && n.cluster == s.cluster && n.calls == s.calls && n.version == s.version
            && n.deployers == s.deployers[i := if s.lock == None then Holding else TurnedAway]
            && n.lock == if s.lock == None then Some(i) else s.lock
  {
  }

  /** Documents are built from the database as it is, inside the lock; without them, or without the cluster's
      environment, the deployment ends before it has called. */
  lemma BuildingInTheLock(s: System, i: nat, environment: bool, snapshots: Snapshots)
    requires i < |s.deployers| && s.deployers[i] == Holding
    ensures var n := Step(s, Build(i, environment), snapshots);
            && n.cluster == s.cluster && n.calls == s.calls && n.version == s.version && n.lock == s.lock
            && n.deployers == s.deployers[i := if snapshots(s.version).Ok? && environment
                                               then Working(s.version, snapshots(s.version).value, s.cluster, Applying(0))
                                               else Ending(None, false, |s.calls|)]
  {
  }

  /** What a call does to the cluster: nothing if it is refused; otherwise an apply stores the next document
      in order and a deletion removes one listed resource, whether or not the reply arrives. Only a reply lets
      the deployment go on. */
  lemma CallsDoWhatTheySay(s: System, i: nat, key: ResourceKey, fault: Fault, snapshots: Snapshots)
    requires i < |s.deployers| && s.deployers[i].Working?
    ensures var d, n := s.deployers[i], Step(s, ApplyNext(i, fault), snapshots);
            d.progress.Applying? && d.progress.n < |ApplyOrder(d.docs)| ==>
              && n.cluster == (if fault == Refused then s.cluster
                               else s.cluster[KeyOf(ApplyOrder(d.docs)[d.progress.n]) := ApplyOrder(d.docs)[d.progress.n]])
              && n.deployers[i] == if fault == Works then d.(progress := Applying(d.progress.n + 1)) else Ending(Some(d.version), false, |s.calls| + 1)
    ensures var d, n := s.deployers[i], Step(s, DeleteItem(i, key, fault), snapshots);
            d.progress.Pruning? && key in d.progress.items ==>
              && n.cluster == (if fault == Refused then s.cluster else s.cluster - {key})
              && n.deployers[i] == if fault == Works then d.(progress := Pruning(d.progress.k, d.progress.items - {key})) else Ending(Some(d.version), false, |s.calls| + 1)
  {
  }

  // ---------- the order of the calls ----------

  function VersionOf(d: Deployer): Option<nat> {
    match d
    case Working(v, _, _, _) => Some(v)
    case Ending(v, _, _) => v
    case Released(v, _, _) => v
    case _ => None
  }

  ghost predicate Attributed(s: System) {
    forall n :: 0 <= n < |s.calls| ==>
      s.calls[n].who < |s.deployers| && VersionOf(s.deployers[s.calls[n].who]) == Some(s.calls[n].version)
  }

  ghost predicate Ordered(calls: seq<Call>) {
    forall n, m :: 0 <= n < m < |calls| ==> calls[n].version <= calls[m].version
  }

  /** Once a deployment has made a call, no other makes one before its last. */
  ghost predicate Unmixed(calls: seq<Call>) {
    forall n, m, p :: 0 <= n < m < p < |calls| && calls[n].who == calls[p].who ==> calls[m].who == calls[n].who
  }

  /** From the holder's first call on, all calls are the holder's. */
  ghost predicate HolderLast(calls: seq<Call>, holder: nat) {
    forall n, m :: 0 <= n < m < |calls| && calls[n].who == holder ==> calls[m].who == holder
  }

  ghost predicate NotAfter(calls: seq<Call>, version: nat) {
    forall n :: 0 <= n < |calls| ==> calls[n].version <= version
  }

  ghost predicate Fresh(s: System) {
    forall i :: 0 <= i < |s.deployers| && s.deployers[i].Working? ==>
      s.deployers[i].version <= s.version && NotAfter(s.calls, s.deployers[i].version)
  }

  ghost predicate CallsInv(s: System) {
    && Attributed(s) && Ordered(s.calls) && Unmixed(s.calls)
    && (s.lock.Some? ==> HolderLast(s.calls, s.lock.value))
    && NotAfter(s.calls, s.version) && Fresh(s)
  }

  /** A step that changes neither cluster nor database, only deployment i and perhaps the lock. */
  ghost predicate Quiet(s: System, n: System, i: nat) {
    && i < |s.deployers| && |n.deployers| == |s.deployers|
    && n.calls == s.calls && n.version == s.version && n.cluster == s.cluster
    && (forall j :: 0 <= j < |s.deployers| && j != i ==> n.deployers[j] == s.deployers[j])
    && (VersionOf(s.deployers[i]).Some? ==> VersionOf(n.deployers[i]) == VersionOf(s.deployers[i]))
    && (n.deployers[i].Working? ==>
          n.deployers[i].version == s.version || (s.deployers[i].Working? && n.deployers[i].version == s.deployers[i].version))
    && (n.lock == s.lock || n.lock == None || (n.lock == Some(i) && VersionOf(s.deployers[i]) == None))
  }

  /** A step that calls the cluster's interface for deployment i. */
  ghost predicate Calls(s: System, n: System, i: nat) {
    && i < |s.deployers| && s.deployers[i].Working?
    && n.calls == s.calls + [Call(i, s.deployers[i].version)] && n.lock == s.lock && n.version == s.version
    && |n.deployers| == |s.deployers| && n.deployers == s.deployers[i := n.deployers[i]]
    && VersionOf(n.deployers[i]) == Some(s.deployers[i].version)
  }

  lemma StepIsQuietOrCalls(s: System, a: Action, snapshots: Snapshots)
    requires !a.Edit? && Step(s, a, snapshots) != s
    ensures Quiet(s, Step(s, a, snapshots), a.i) || Calls(s, Step(s, a, snapshots), a.i)
  {
    var d, n := s.deployers[a.i], Step(s, a, snapshots);
    if IsCall(a) {
      WorkIsQuietOrCalls(s, a);
    } else {
      assert Quiet(s, n, a.i);
    }
  }

  lemma WorkIsQuietOrCalls(s: System, a: Action)
    requires IsCall(a) && a.i < |s.deployers| && s.deployers[a.i].Working?
    ensures Quiet(s, WorkStep(s, a), a.i) || Calls(s, WorkStep(s, a), a.i)
  {
    var n := WorkStep(s, a);
    if a.List? || a.Finish? || n == s {
      assert Quiet(s, n, a.i);
    } else {
      assert Calls(s, n, a.i);
    }
  }

  lemma QuietKeepsCalls(s: System, n: System, i: nat)
    requires CallsInv(s) && Quiet(s, n, i)
    ensures CallsInv(n)
  {
    assert Attributed(n);
    if n.lock == Some(i) && VersionOf(s.deployers[i]) == None {
      assert forall p :: 0 <= p < |s.calls| ==> s.calls[p].who != i;
    }
  }

  lemma CallAppended(calls: seq<Call>, i: nat, v: nat)
    requires Ordered(calls) && Unmixed(calls) && HolderLast(calls, i) && NotAfter(calls, v)
    ensures var more := calls + [Call(i, v)];
            Ordered(more) && Unmixed(more) && HolderLast(more, i) && NotAfter(more, v)
  {
  }

  lemma CallKeepsCalls(s: System, n: System, i: nat)
    requires LockInv(s) && CallsInv(s) && Calls(s, n, i)
    ensures CallsInv(n)
  {
    assert s.lock == Some(i) by { assert Critical(s.deployers[i]); }
    CallAppended(s.calls, i, s.deployers[i].version);
    assert Attributed(n);
    assert forall j :: 0 <= j < |s.deployers| && j != i ==> !Critical(s.deployers[j]);
  }

  lemma StepKeepsCalls(s: System, a: Action, snapshots: Snapshots)
    requires LockInv(s) && CallsInv(s)
    ensures CallsInv(Step(s, a, snapshots))
  {
    var n := Step(s, a, snapshots);
    if !a.Edit? && n != s {
      StepIsQuietOrCalls(s, a, snapshots);
      if Calls(s, n, a.i) { CallKeepsCalls(s, n, a.i); } else { QuietKeepsCalls(s, n, a.i); }
    }
  }

  // ---------- what a success leaves ----------

  /** The deployment's body has ended after made calls of all deployments; if it succeeded and nobody has
      called since, the managed resources are those of its snapshot. */
  ghost predicate Installed(d: Deployer, s: System, snapshots: Snapshots) {
    d.Ending? || d.Released? ==>
      && d.made <= |s.calls|
      && (d.success ==>
            && d.built.Some? && snapshots(d.built.value).Ok?
            && (d.made == |s.calls| ==> Managed(s.cluster) == DocMap(snapshots(d.built.value).value)))
  }

  ghost predicate SuccessInv(s: System, snapshots: Snapshots) {
    forall i :: 0 <= i < |s.deployers| ==> Installed(s.deployers[i], s, snapshots)
  }

  lemma FinishInstalls(s: System, i: nat, snapshots: Snapshots)
    requires i < |s.deployers| && WorkInv(s.deployers[i], s.cluster, snapshots)
    requires s.deployers[i].Working? && AllPruned(s.deployers[i])
    ensures Managed(s.cluster) == DocMap(s.deployers[i].docs)
  {
    AllPrunedIsReconciled(s.deployers[i], s.cluster);
    ReconciledIsDesired(s.deployers[i].start, s.deployers[i].docs);
  }

  lemma StepKeepsSuccess(s: System, a: Action, snapshots: Snapshots)
    requires ClusterInv(s, snapshots) && SuccessInv(s, snapshots)
    ensures SuccessInv(Step(s, a, snapshots), snapshots)
  {
    var n := Step(s, a, snapshots);
    if !a.Edit? && n != s {
      StepIsQuietOrCalls(s, a, snapshots);
      if a.Finish? { FinishInstalls(s, a.i, snapshots); }
      assert Installed(n.deployers[a.i], n, snapshots);
      forall j | 0 <= j < |n.deployers| && j != a.i ensures Installed(n.deployers[j], n, snapshots) {
        assert n.deployers[j] == s.deployers[j] && Installed(s.deployers[j], s, snapshots);
      }
    }
  }

  // ---------- over whole runs ----------

  ghost predicate Inv(s: System, snapshots: Snapshots) {
    LockInv(s) && ClusterInv(s, snapshots) && CallsInv(s) && SuccessInv(s, snapshots)
  }

  lemma StepKeepsInv(s: System, a: Action, snapshots: Snapshots)
    requires Sound(snapshots) && Inv(s, snapshots)
    ensures Inv(Step(s, a, snapshots), snapshots) && |Step(s, a, snapshots).deployers| == |s.deployers|
  {
    StepKeepsLock(s, a, snapshots);
    StepKeepsCluster(s, a, snapshots);
    StepKeepsCalls(s, a, snapshots);
    StepKeepsSuccess(s, a, snapshots);
  }

  lemma {:induction false} RunKeepsInv(s: System, acts: seq<Action>, snapshots: Snapshots)
    requires Sound(snapshots) && Inv(s, snapshots)
    ensures Inv(Run(s, acts, snapshots), snapshots) && |Run(s, acts, snapshots).deployers| == |s.deployers|
    decreases |acts|
  {
    if acts == [] {
    } else {
      StepKeepsInv(s, acts[0], snapshots);
      RunKeepsInv(Step(s, acts[0], snapshots), acts[1..], snapshots);
    }
  }

  lemma StartIsInv(s: System, snapshots: Snapshots)
    requires Start(s)
    ensures Inv(s, snapshots)
  {
  }

  /** In every reachable state at most one deployment is between lock and unlock, the lock is taken exactly
      when one is, and the cluster is what that one's calls, in apply and prune order, have made of what it
      found; whatever failed, every managed policy points at routes that exist. */
  lemma OneDeployerAtATime(s: System, acts: seq<Action>, snapshots: Snapshots, i: nat, j: nat)
    requires Sound(snapshots) && Start(s) && i < |s.deployers| && j < |s.deployers|
    ensures var n := Run(s, acts, snapshots);
            && |n.deployers| == |s.deployers|
            && (Critical(n.deployers[i]) && Critical(n.deployers[j]) ==> i == j)
            && (n.lock == Some(i) <==> Critical(n.deployers[i]))
            && (n.deployers[i].Working? ==> InPhase(n.deployers[i], n.cluster))
            && Safe(n.cluster)
  {
    StartIsInv(s, snapshots);
    RunKeepsInv(s, acts, snapshots);
    assert WorkInv(Run(s, acts, snapshots).deployers[i], Run(s, acts, snapshots).cluster, snapshots);
  }

  /** The calls of one deployment are never mixed with another's, and a call never carries an older
      database snapshot than a call made before it. */
  lemma SnapshotsNeverGoBack(s: System, acts: seq<Action>, snapshots: Snapshots, n: nat, m: nat)
    requires Sound(snapshots) && Start(s) && n < m < |Run(s, acts, snapshots).calls|
    ensures var calls := Run(s, acts, snapshots).calls;
            && calls[n].version <= calls[m].version
            && (calls[n].who == calls[m].who ==>
                  calls[n].version == calls[m].version && forall p :: n <= p <= m ==> calls[p].who == calls[n].who)
  {
    StartIsInv(s, snapshots);
    RunKeepsInv(s, acts, snapshots);
  }

  /** After a deployment that succeeded, as long as nobody has called since, the managed resources are
      exactly those compiled from the snapshot it built. */
  lemma SuccessInstallsItsSnapshot(s: System, acts: seq<Action>, snapshots: Snapshots, i: nat)
    requires Sound(snapshots) && Start(s) && i < |s.deployers|
    ensures var n := Run(s, acts, snapshots);
            && |n.deployers| == |s.deployers| && var d := n.deployers[i];
            (d.Ending? || d.Released?) && d.success ==>
              && d.built.Some? && snapshots(d.built.value).Ok?
              && (d.made == |n.calls| ==> Managed(n.cluster) == DocMap(snapshots(d.built.value).value))
  {
    StartIsInv(s, snapshots);
    RunKeepsInv(s, acts, snapshots);
    assert Installed(Run(s, acts, snapshots).deployers[i], Run(s, acts, snapshots), snapshots);
  }

  predicate Over(d: Deployer) { d.Ending? || d.Released? }

  /** From s to n deployment i, whose body has ended, makes no call and does not change its result. */
  ghost predicate StaysOver(s: System, n: System, i: nat) {
    && i < |s.deployers| && |n.deployers| == |s.deployers| && s.calls <= n.calls
    && Over(s.deployers[i]) && Over(n.deployers[i])
    && n.deployers[i].built == s.deployers[i].built && n.deployers[i].success == s.deployers[i].success
    && forall m :: |s.calls| <= m < |n.calls| ==> n.calls[m].who != i
  }

  lemma StepStaysOver(s: System, a: Action, snapshots: Snapshots, i: nat)
    requires i < |s.deployers| && Over(s.deployers[i])
    ensures StaysOver(s, Step(s, a, snapshots), i)
  {
    if !a.Edit? && Step(s, a, snapshots) != s { StepIsQuietOrCalls(s, a, snapshots); }
  }

  lemma StaysOverTransitive(s: System, n: System, m: System, i: nat)
    requires StaysOver(s, n, i) && StaysOver(n, m, i)
    ensures StaysOver(s, m, i)
  {
    forall p | |s.calls| <= p < |m.calls| ensures m.calls[p].who != i {
      if p < |n.calls| { assert m.calls[p] == n.calls[p]; }
    }
  }

  lemma {:induction false} RunStaysOver(s: System, acts: seq<Action>, snapshots: Snapshots, i: nat)
    requires i < |s.deployers| && Over(s.deployers[i])
    ensures StaysOver(s, Run(s, acts, snapshots), i)
    decreases |acts|
  {
    if acts == [] {
    } else {
      var n := Step(s, acts[0], snapshots);
      StepStaysOver(s, acts[0], snapshots, i);
      RunStaysOver(n, acts[1..], snapshots, i);
      StaysOverTransitive(s, n, Run(n, acts[1..], snapshots), i);
    }
  }

  /** A call that fails, with or without effect, ends its deployment without success, and whatever follows,
      that deployment makes no further call and never comes to report success. */
  lemma FailureEndsTheBody(s: System, a: Action, acts: seq<Action>, snapshots: Snapshots)
    requires a.ApplyNext? || a.List? || a.DeleteItem?
    requires Step(s, a, snapshots) != s && !a.fault.Works?
    ensures var n := Step(s, a, snapshots);
            var m := Run(n, acts, snapshots);
            a.i < |s.deployers| && StaysOver(n, m, a.i) && !m.deployers[a.i].success
  {
    RunStaysOver(Step(s, a, snapshots), acts, snapshots, a.i);
  }

  // ---------- the lock is given back ----------

  /** How many stale resources the kinds from number k on hold. */
  ghost function Unpruned(c: Resources, docs: seq<Document>, k: nat): int
    decreases |PRUNE_ORDER| - k
  {
    if k < |PRUNE_ORDER| then |StaleOfKind(c, docs, PRUNE_ORDER[k])| + Unpruned(c, docs, k + 1) else 0
  }

  /** What remains to be done by a deployment whose documents are built: applies, listings, deletions, the
      end of its body and the unlock. */
  ghost function Left(d: Deployer): int {
    match d
    case Working(_, docs, start, Applying(n)) => |ApplyOrder(docs)| - n + Unpruned(start, docs, 0) + 5
    case Working(_, docs, start, Pruning(k, items)) => |items| + Unpruned(start, docs, k + 1) + 4 - k
    case Ending(_, _, _) => 1
    case _ => 0
  }

  lemma {:induction false} UnprunedNonNegative(c: Resources, docs: seq<Document>, k: nat)
    ensures Unpruned(c, docs, k) >= 0
    decreases |PRUNE_ORDER| - k
  {
    if k >= |PRUNE_ORDER| {
    } else {
      UnprunedNonNegative(c, docs, k + 1);
    }
  }

  lemma StillLeft(d: Deployer, cluster: Resources)
    requires d.Working? && InPhase(d, cluster)
    ensures Left(d) >= 2
  {
    match d.progress
    case Applying(n) => UnprunedNonNegative(d.start, d.docs, 0);
    case Pruning(k, items) => UnprunedNonNegative(d.start, d.docs, k + 1);
  }

  lemma ListingUses(d: Deployer, cluster: Resources, k: nat)
    requires d.Working? && InPhase(d, cluster) && WellFormed(d.start) && Named(d.docs) && NextKind(d) == Some(k) && k < |PRUNE_ORDER|
    ensures Left(d.(progress := Pruning(k, Listing(cluster, d.docs, k)))) < Left(d)
  {
    ListKeepsPhase(d, cluster, k);
  }

  lemma DeletionUses(d: Deployer, key: ResourceKey)
    requires d.Working? && d.progress.Pruning? && key in d.progress.items
    ensures Left(d.(progress := Pruning(d.progress.k, d.progress.items - {key}))) < Left(d)
  {
  }

  lemma WorkUses(s: System, a: Action, snapshots: Snapshots)
    requires IsCall(a) && a.i < |s.deployers| && s.deployers[a.i].Working? && WorkStep(s, a) != s
    requires GoodStart(s.deployers[a.i], snapshots) && InPhase(s.deployers[a.i], s.cluster)
    ensures var n := WorkStep(s, a);
            && |n.deployers| == |s.deployers| && (n.deployers[a.i].Working? || Over(n.deployers[a.i]))
            && Left(n.deployers[a.i]) < Left(s.deployers[a.i])
  {
    var d := s.deployers[a.i];
    StillLeft(d, s.cluster);
    match a
    case ApplyNext(_, _) =>
    case List(_, _) => ListingUses(d, s.cluster, NextKind(d).value);
    case DeleteItem(_, key, _) => DeletionUses(d, key);
    case Finish(_) =>
  }

  lemma OwnStepUses(s: System, a: Action, snapshots: Snapshots, i: nat)
    requires Inv(s, snapshots) && i < |s.deployers| && (s.deployers[i].Working? || Over(s.deployers[i]))
    ensures var n := Step(s, a, snapshots);
            && |n.deployers| == |s.deployers| && (n.deployers[i].Working? || Over(n.deployers[i]))
            && (Own(s, a, snapshots, i) ==> Left(n.deployers[i]) < Left(s.deployers[i]))
            && (!Own(s, a, snapshots, i) ==> n.deployers[i] == s.deployers[i])
  {
    var d := s.deployers[i];
    if Own(s, a, snapshots, i) && d.Working? {
      assert WorkInv(d, s.cluster, snapshots);
      WorkUses(s, a, snapshots);
    } else if !a.Edit? && a.i != i && Step(s, a, snapshots) != s {
      StepIsQuietOrCalls(s, a, snapshots);
    }
  }

  /** A step of deployment i that does something. */
  ghost predicate Own(s: System, a: Action, snapshots: Snapshots, i: nat) {
    !a.Edit? && a.i == i && Step(s, a, snapshots) != s
  }

  ghost function OwnSteps(s: System, acts: seq<Action>, snapshots: Snapshots, i: nat): nat
    decreases |acts|
  {
    if acts == [] then 0
    else (if Own(s, acts[0], snapshots, i) then 1 else 0) + OwnSteps(Step(s, acts[0], snapshots), acts[1..], snapshots, i)
  }

  lemma {:induction false} OwnStepsAreBounded(s: System, acts: seq<Action>, snapshots: Snapshots, i: nat)
    requires Sound(snapshots) && Inv(s, snapshots) && i < |s.deployers| && (s.deployers[i].Working? || Over(s.deployers[i]))
    ensures var n := Run(s, acts, snapshots);
            && Inv(n, snapshots) && |n.deployers| == |s.deployers| && (n.deployers[i].Working? || Over(n.deployers[i]))
            && OwnSteps(s, acts, snapshots, i) + Left(n.deployers[i]) <= Left(s.deployers[i])
    decreases |acts|
  {
    if acts == [] {
    } else {
      StepKeepsInv(s, acts[0], snapshots);
      OwnStepUses(s, acts[0], snapshots, i);
      OwnStepsAreBounded(Step(s, acts[0], snapshots), acts[1..], snapshots, i);
    }
  }

  function NextCall(d: Deployer, i: nat, key: ResourceKey): Action
    requires d.Working?
  {
    match d.progress
    case Applying(n) => if n < |ApplyOrder(d.docs)| then ApplyNext(i, Refused) else List(i, Refused)
    case Pruning(k, items) =>
      if items != {} then DeleteItem(i, key, Refused) else if k + 1 < |PRUNE_ORDER| then List(i, Refused) else Finish(i)
  }

  lemma WorkerCanStep(s: System, snapshots: Snapshots, i: nat, key: ResourceKey)
    requires i < |s.deployers| && s.deployers[i].Working? && InPhase(s.deployers[i], s.cluster)
    requires s.deployers[i].progress.Pruning? && s.deployers[i].progress.items != {} ==> key in s.deployers[i].progress.items
    ensures Own(s, NextCall(s.deployers[i], i, key), snapshots, i)
  {
    var n := Step(s, NextCall(s.deployers[i], i, key), snapshots);
    assert n.deployers[i].Ending?;
  }

  /** A holder is never stuck: whatever point it has reached, some step of its own is possible. */
  lemma HolderCanStep(s: System, snapshots: Snapshots, i: nat) returns (a: Action)
    requires Inv(s, snapshots) && i < |s.deployers| && Critical(s.deployers[i])
    ensures Own(s, a, snapshots, i)
  {
    var d := s.deployers[i];
    if d.Working? {
      var key := ResourceKey(RouteKind, "");
      if d.progress.Pruning? && d.progress.items != {} { key :| key in d.progress.items; }
      assert WorkInv(d, s.cluster, snapshots);
      WorkerCanStep(s, snapshots, i, key);
      a := NextCall(d, i, key);
    } else {
      a := if d.Holding? then Build(i, true) else Unlock(i);
    }
  }

  predicate Entered(d: Deployer) { Critical(d) || d.Released? }

  lemma StepKeepsEntered(s: System, a: Action, snapshots: Snapshots, i: nat)
    requires i < |s.deployers| && Entered(s.deployers[i])
    ensures var n := Step(s, a, snapshots);
            && |n.deployers| == |s.deployers| && Entered(n.deployers[i])
            && (n.deployers[i].Holding? ==> s.deployers[i].Holding? && !Own(s, a, snapshots, i))
  {
    if !a.Edit? && Step(s, a, snapshots) != s { StepIsQuietOrCalls(s, a, snapshots); }
  }

  /** Who has taken the lock stays inside or gives it back, and waits with its documents unbuilt only as long
      as it does nothing at all. */
  lemma {:induction false} RunKeepsEntered(s: System, acts: seq<Action>, snapshots: Snapshots, i: nat)
    requires i < |s.deployers| && Entered(s.deployers[i])
    ensures var n := Run(s, acts, snapshots);
            && |n.deployers| == |s.deployers| && Entered(n.deployers[i])
            && (n.deployers[i].Holding? ==> s.deployers[i].Holding? && OwnSteps(s, acts, snapshots, i) == 0)
    decreases |acts|
  {
    if acts == [] {
    } else {
      StepKeepsEntered(s, acts[0], snapshots, i);
      RunKeepsEntered(Step(s, acts[0], snapshots), acts[1..], snapshots, i);
    }
  }

  /** However its calls fare and whatever others do meanwhile, a deployment that has taken the lock has given
      it back or can take a further step; its first step builds the documents, and from then on the number of
      its own steps until the lock is free is bounded by what was left to do. */
  lemma LockIsGivenBack(s: System, acts: seq<Action>, snapshots: Snapshots, i: nat)
    requires Sound(snapshots) && Inv(s, snapshots) && i < |s.deployers| && Critical(s.deployers[i])
    ensures var n, own := Run(s, acts, snapshots), OwnSteps(s, acts, snapshots, i);
            && |n.deployers| == |s.deployers|
            && (n.lock == Some(i) <==> !n.deployers[i].Released?)
            && (n.lock == Some(i) ==> exists a :: Own(n, a, snapshots, i))
            && (n.deployers[i].Holding? ==> own == 0)
            && (!s.deployers[i].Holding? ==>
                  own <= Left(s.deployers[i]) && (own == Left(s.deployers[i]) ==> n.deployers[i].Released?))
  {
    var n := Run(s, acts, snapshots);
    RunKeepsInv(s, acts, snapshots);
    RunKeepsEntered(s, acts, snapshots, i);
    if !n.deployers[i].Released? {
      var a := HolderCanStep(n, snapshots, i);
      assert Own(n, a, snapshots, i);
    }
    if !s.deployers[i].Holding? {
      OwnStepsAreBounded(s, acts, snapshots, i);
      assert WorkInv(n.deployers[i], n.cluster, snapshots);
      if n.deployers[i].Working? { StillLeft(n.deployers[i], n.cluster); }
    }
  }

  /** What the compiler makes of any sequence of database states meets the assumption of these results. */
  lemma CompiledSnapshotsAreSound(cfg: Config, dbs: nat -> AuthDb)
    ensures Sound((v: nat) => Compile(cfg, Grants(Query(dbs(v)))))
  {
    forall v: nat | Compile(cfg, Grants(Query(dbs(v)))).Ok? ensures Deployable(Compile(cfg, Grants(Query(dbs(v)))).value) {
      CompiledDocumentsQualify(cfg, Grants(Query(dbs(v))), Compile(cfg, Grants(Query(dbs(v)))).value);
    }
  }
}
