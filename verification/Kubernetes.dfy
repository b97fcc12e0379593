/** Reconciling a cluster to the compiled documents (apps/authz/kubernetes.py). */
module Kubernetes {
  import opened Common
  import opened Policies
  import opened PolicyRouting

  datatype Kind = RouteKind | TrafficKind | SecurityKind

  datatype ResourceKey = ResourceKey(kind: Kind, name: string)

  /** The namespace's resources of the three generated kinds. */
  type Resources = map<ResourceKey, Document>

  function KindOf(d: Document): Kind {
    match d
    case AIGatewayRoute(_, _, _, _, _, _) => RouteKind
    case BackendTrafficPolicy(_, _, _, _, _, _) => TrafficKind
    case SecurityPolicy(_, _, _, _, _) => SecurityKind
  }

  function KeyOf(d: Document): ResourceKey { ResourceKey(KindOf(d), d.metadata.name) }

  /** The label selector of the pruner. */
  predicate IsManaged(d: Document) {
    MANAGED_BY_LABEL in d.metadata.labels && d.metadata.labels[MANAGED_BY_LABEL] == MANAGED_BY_VALUE
  }

  /** Each resource is stored under its own kind and name, and names are not empty. */
  ghost predicate WellFormed(c: Resources) {
    forall k :: k in c ==> KeyOf(c[k]) == k && k.name != ""
  }

  ghost predicate Named(docs: seq<Document>) { forall d :: d in docs ==> d.metadata.name != "" }

  function OfKind(kind: Kind): Document -> bool { (d: Document) => KindOf(d) == kind }

  /** sorted(documents, key=APPLY_ORDER), a stable sort over three kinds. */
  function ApplyOrder(docs: seq<Document>): seq<Document> {
    Filter(docs, OfKind(RouteKind)) + Filter(docs, OfKind(TrafficKind)) + Filter(docs, OfKind(SecurityKind))
  }

  const PRUNE_ORDER := [SecurityKind, TrafficKind, RouteKind]

  /** The resources that applying docs in turn leaves; a later document replaces an earlier one. */
  function DocMap(docs: seq<Document>): Resources {
    if docs == [] then map[] else DocMap(docs[..|docs| - 1])[KeyOf(docs[|docs| - 1]) := docs[|docs| - 1]]
  }

  function Desired(docs: seq<Document>): set<ResourceKey> { set d | d in docs :: KeyOf(d) }

  /** Managed resources that are no longer wanted. */
  function Stale(c: Resources, docs: seq<Document>): set<ResourceKey> {
    set k | k in c && IsManaged(c[k]) && k !in Desired(docs)
  }

  /** The intended outcome: everything wanted as compiled, everything stale gone, the rest untouched. */
  function Reconciled(c: Resources, docs: seq<Document>): Resources { (c - Stale(c, docs)) + DocMap(docs) }

  /** The resources a deployer recognises as its own. */
  function Managed(c: Resources): Resources { map k | k in c && IsManaged(c[k]) :: c[k] }

  // ---------- apply order ----------

  lemma {:induction false} DocMapContents(docs: seq<Document>)
    ensures DocMap(docs).Keys == Desired(docs)
    ensures forall k :: k in DocMap(docs) ==> DocMap(docs)[k] in docs && KeyOf(DocMap(docs)[k]) == k
  {
    if docs == [] {
    } else {
      var front, last := docs[..|docs| - 1], docs[|docs| - 1];
      DocMapContents(front);
      assert docs == front + [last];
      assert forall d :: d in docs <==> d in front || d == last;
    }
  }

  lemma {:induction false} DocMapAppend(a: seq<Document>, b: seq<Document>)
    ensures DocMap(a + b) == DocMap(a) + DocMap(b)
    decreases |b|
  {
    if b == [] {
      assert a + b == a;
    } else {
      assert (a + b)[..|a + b| - 1] == a + b[..|b| - 1];
      DocMapAppend(a, b[..|b| - 1]);
    }
  }

  function OnlyKind(c: Resources, kind: Kind): Resources { map k | k in c && k.kind == kind :: c[k] }

  lemma OnlyKindUpdate(c: Resources, kind: Kind, k: ResourceKey, d: Document)
    ensures OnlyKind(c[k := d], kind) == if k.kind == kind then OnlyKind(c, kind)[k := d] else OnlyKind(c, kind)
  {
  }

  lemma {:induction false} DocMapOfKind(docs: seq<Document>, kind: Kind)
    ensures DocMap(Filter(docs, OfKind(kind))) == OnlyKind(DocMap(docs), kind)
    decreases |docs|
  {
    if docs == [] {
    } else {
      var front, last := docs[..|docs| - 1], docs[|docs| - 1];
      DocMapOfKind(front, kind);
      OnlyKindUpdate(DocMap(front), kind, KeyOf(last), last);
      if KindOf(last) == kind {
        DocMapSnoc(Filter(front, OfKind(kind)), last);
      } else {
        assert !OfKind(kind)(last);
        assert Filter(front, OfKind(kind)) + [] == Filter(front, OfKind(kind));
      }
    }
  }

  lemma DocMapSnoc(docs: seq<Document>, d: Document)
    ensures DocMap(docs + [d]) == DocMap(docs)[KeyOf(d) := d]
  {
  }

  /** Applying in dependency order leaves what applying in the compiled order would. */
  lemma ApplyOrderSameResult(docs: seq<Document>)
    ensures DocMap(ApplyOrder(docs)) == DocMap(docs)
  {
    var r, t, s := Filter(docs, OfKind(RouteKind)), Filter(docs, OfKind(TrafficKind)), Filter(docs, OfKind(SecurityKind));
    DocMapAppend(r + t, s);
    DocMapAppend(r, t);
    DocMapOfKind(docs, RouteKind);
    DocMapOfKind(docs, TrafficKind);
    DocMapOfKind(docs, SecurityKind);
    DocMapContents(docs);
  }

  /** APPLY_ORDER */
  function Place(kind: Kind): int { match kind case RouteKind => 0 case TrafficKind => 1 case SecurityKind => 2 }

  function Rank(d: Document): int { Place(KindOf(d)) }

  lemma ApplyOrderIsSorted(docs: seq<Document>)
    ensures var o := ApplyOrder(docs);
            && (forall d :: d in o <==> d in docs)
            && (forall i, j :: 0 <= i < j < |o| ==> Rank(o[i]) <= Rank(o[j]))
  {
    var r, t, s := Filter(docs, OfKind(RouteKind)), Filter(docs, OfKind(TrafficKind)), Filter(docs, OfKind(SecurityKind));
    FilterMembers(docs, OfKind(RouteKind));
    FilterMembers(docs, OfKind(TrafficKind));
    FilterMembers(docs, OfKind(SecurityKind));
    var o := ApplyOrder(docs);
    assert forall i :: 0 <= i < |r| ==> o[i] == r[i] && r[i] in r;
    assert forall i :: |r| <= i < |r| + |t| ==> o[i] == t[i - |r|] && t[i - |r|] in t;
    assert forall i :: |r| + |t| <= i < |o| ==> o[i] == s[i - |r| - |t|] && s[i - |r| - |t|] in s;
  }

  // ---------- the states a deployment passes through ----------

  /** The cluster after applying some prefix of order. */
  ghost predicate PartlyApplied(c: Resources, order: seq<Document>, h: Resources) {
    exists n :: 0 <= n <= |order| && h == c + DocMap(order[..n])
  }

  /** The cluster after deleting some of the unwanted resources. */
  ghost predicate PartlyDeleted(c: Resources, unwanted: set<ResourceKey>, h: Resources) {
    exists removed :: removed <= unwanted && h == c - removed
  }

  /** The stale resources of the first k kinds in prune order. */
  function PrunedKinds(c: Resources, docs: seq<Document>, k: nat): set<ResourceKey>
    requires k <= |PRUNE_ORDER|
  {
    set key | key in Stale(c, docs) && key.kind in PRUNE_ORDER[..k]
  }

  /** The cluster once everything is applied and the first k kinds are pruned. */
  function Pruned(c: Resources, docs: seq<Document>, k: nat): Resources
    requires k <= |PRUNE_ORDER|
  {
    (c + DocMap(docs)) - PrunedKinds(c, docs, k)
  }

  function StaleOfKind(c: Resources, docs: seq<Document>, kind: Kind): set<ResourceKey> {
    set key | key in Stale(c, docs) && key.kind == kind
  }

  /** A cluster state that deploying docs onto c can produce, complete or cut short: routes are applied
      before the policies that need them, and pruned after them. */
  ghost predicate Midway(c: Resources, docs: seq<Document>, h: Resources) {
    || PartlyApplied(c, ApplyOrder(docs), h)
    || (exists k :: 0 <= k < |PRUNE_ORDER| && PartlyDeleted(Pruned(c, docs, k), StaleOfKind(c, docs, PRUNE_ORDER[k]), h))
  }

  /** Every managed policy points at routes that exist. */
  ghost predicate Safe(c: Resources) {
    forall k, t :: k in c && IsManaged(c[k]) && t in Targets(c[k]) ==> ResourceKey(RouteKind, t) in c
  }

  ghost predicate Closed(docs: seq<Document>) {
    forall d :: d in docs ==> Targets(d) <= RouteNamesIn(docs)
  }

  /** When a policy has been applied, so has every route it points at. */
  lemma RoutesComeFirst(docs: seq<Document>, n: nat, d: Document, t: string)
    requires Closed(docs) && n <= |ApplyOrder(docs)| && d in ApplyOrder(docs)[..n] && t in Targets(d)
    ensures ResourceKey(RouteKind, t) in DocMap(ApplyOrder(docs)[..n])
  {
    var o := ApplyOrder(docs);
    ApplyOrderIsSorted(docs);
    DocMapContents(o[..n]);
    var j :| 0 <= j < n && o[j] == d;
    assert d in o && t in RouteNamesIn(docs);
    var route :| route in docs && route.AIGatewayRoute? && route.metadata.name == t;
    var i :| 0 <= i < |o| && o[i] == route;
    assert Rank(o[i]) < Rank(o[j]);
    assert o[..n][i] == route;
    assert KeyOf(route) in Desired(o[..n]);
  }

  lemma AppliedIsSafe(c: Resources, docs: seq<Document>, n: nat)
    requires Safe(c) && Closed(docs) && n <= |ApplyOrder(docs)|
    ensures Safe(c + DocMap(ApplyOrder(docs)[..n]))
  {
    var done := ApplyOrder(docs)[..n];
    var h := c + DocMap(done);
    DocMapContents(done);
    forall k, t | k in h && IsManaged(h[k]) && t in Targets(h[k]) ensures ResourceKey(RouteKind, t) in h {
      if k in DocMap(done) { RoutesComeFirst(docs, n, h[k], t); }
    }
  }

  lemma PruneOrderPrefix(k: nat)
    requires k <= |PRUNE_ORDER|
    ensures forall kind :: kind in PRUNE_ORDER[..k] <==> 2 - Place(kind) < k
    ensures k < |PRUNE_ORDER| ==> Place(PRUNE_ORDER[k]) == 2 - k
  {
    var all := PRUNE_ORDER;
    assert forall kind :: all[2 - Place(kind)] == kind;
    forall kind | 2 - Place(kind) < k ensures kind in all[..k] { assert all[..k][2 - Place(kind)] == kind; }
  }

  lemma PrunedIsSafe(c: Resources, docs: seq<Document>, k: nat, removed: set<ResourceKey>)
    requires WellFormed(c) && Safe(c) && Closed(docs) && k < |PRUNE_ORDER|
    requires removed <= StaleOfKind(c, docs, PRUNE_ORDER[k])
    ensures Safe(Pruned(c, docs, k) - removed)
  {
    var h := Pruned(c, docs, k) - removed;
    DocMapContents(docs);
    PruneOrderPrefix(k);
    forall key, t | key in h && IsManaged(h[key]) && t in Targets(h[key]) ensures ResourceKey(RouteKind, t) in h {
      if key in DocMap(docs) {
        assert t in RouteNamesIn(docs);
        var route :| route in docs && route.AIGatewayRoute? && route.metadata.name == t;
        assert KeyOf(route) == ResourceKey(RouteKind, t);
      } else {
        assert key in Stale(c, docs) && KindOf(c[key]) == key.kind != RouteKind;
      }
    }
  }

  /** No state of a deployment, however it ends, has a managed policy without its route. */
  lemma MidwayIsSafe(c: Resources, docs: seq<Document>, h: Resources)
    requires WellFormed(c) && Safe(c) && Closed(docs) && Midway(c, docs, h)
    ensures Safe(h)
  {
    if PartlyApplied(c, ApplyOrder(docs), h) {
      var n :| 0 <= n <= |ApplyOrder(docs)| && h == c + DocMap(ApplyOrder(docs)[..n]);
      AppliedIsSafe(c, docs, n);
    } else {
      var k :| 0 <= k < |PRUNE_ORDER| && PartlyDeleted(Pruned(c, docs, k), StaleOfKind(c, docs, PRUNE_ORDER[k]), h);
      var removed :| removed <= StaleOfKind(c, docs, PRUNE_ORDER[k]) && h == Pruned(c, docs, k) - removed;
      PrunedIsSafe(c, docs, k, removed);
    }
  }

  /** Unmanaged resources outside the wanted names are the same in every state, and nothing appears that
      was neither there nor wanted. */
  lemma MidwayTouchesOnlyItsOwn(c: Resources, docs: seq<Document>, h: Resources)
    requires Midway(c, docs, h)
    ensures forall k :: k in c && !IsManaged(c[k]) && k !in Desired(docs) ==> k in h && h[k] == c[k]
    ensures forall k :: k in h && k !in Desired(docs) ==> k in c && h[k] == c[k]
  {
    DocMapContents(docs);
    if PartlyApplied(c, ApplyOrder(docs), h) {
      var n :| 0 <= n <= |ApplyOrder(docs)| && h == c + DocMap(ApplyOrder(docs)[..n]);
      ApplyOrderIsSorted(docs);
      DocMapContents(ApplyOrder(docs)[..n]);
      assert Desired(ApplyOrder(docs)[..n]) <= Desired(docs);
    }
  }

  /** The resource says that GrantDeck manages it. */
  ghost predicate Labelled(d: Document) {
    && "app.kubernetes.io/managed-by" in d.metadata.labels
    && d.metadata.labels["app.kubernetes.io/managed-by"] == "grantdeck-export"
  }

  ghost predicate Wanted(docs: seq<Document>, k: ResourceKey) { exists d :: d in docs && KeyOf(d) == k }

  /** Every policy that says GrantDeck manages it has the routes it is aimed at. */
  ghost predicate PoliciesRouted(c: Resources) {
    && (forall k :: k in c && Labelled(c[k]) && c[k].BackendTrafficPolicy? ==> ResourceKey(RouteKind, c[k].target) in c)
    && (forall k, t :: k in c && Labelled(c[k]) && c[k].SecurityPolicy? && t in c[k].targets ==> ResourceKey(RouteKind, t) in c)
  }

  lemma SafeMeans(c: Resources)
    ensures Safe(c) <==> PoliciesRouted(c)
  {
    if Safe(c) {
      forall k | k in c && Labelled(c[k]) && c[k].BackendTrafficPolicy? ensures ResourceKey(RouteKind, c[k].target) in c {
        assert c[k].target in Targets(c[k]);
      }
      forall k, t | k in c && Labelled(c[k]) && c[k].SecurityPolicy? && t in c[k].targets ensures ResourceKey(RouteKind, t) in c {
        assert t in Targets(c[k]);
      }
    }
  }

  /** No deployment, however it ends, leaves a policy of ours without its routes. */
  lemma PoliciesStayRouted(c: Resources, docs: seq<Document>, h: Resources)
    requires WellFormed(c) && PoliciesRouted(c) && Closed(docs) && (Midway(c, docs, h) || h == Reconciled(c, docs))
    ensures PoliciesRouted(h)
  {
    SafeMeans(c);
    SafeMeans(h);
    if h == Reconciled(c, docs) { ReconciledIsMidway(c, docs); }
    MidwayIsSafe(c, docs, h);
  }

  /** A resource that does not carry GrantDeck's label, or another manager's value under it, is left as it is
      by every state of a deployment unless a wanted document has its kind and name. */
  lemma ForeignSurvives(c: Resources, docs: seq<Document>, h: Resources, k: ResourceKey)
    requires Midway(c, docs, h) || h == Reconciled(c, docs)
    requires k in c && !Labelled(c[k]) && !Wanted(docs, k)
    ensures k in h && h[k] == c[k]
  {
    if h == Reconciled(c, docs) { ReconciledIsMidway(c, docs); }
    MidwayTouchesOnlyItsOwn(c, docs, h);
  }

  /** A resource that carries the label and is not wanted any more is gone after success. */
  lemma UnwantedIsGone(c: Resources, docs: seq<Document>, k: ResourceKey)
    requires k in c && Labelled(c[k]) && !Wanted(docs, k)
    ensures k !in Reconciled(c, docs)
  {
    DocMapContents(docs);
  }

  lemma ReconciledIsMidway(c: Resources, docs: seq<Document>)
    ensures Midway(c, docs, Reconciled(c, docs))
  {
    var k := |PRUNE_ORDER| - 1;
    var last := StaleOfKind(c, docs, PRUNE_ORDER[k]);
    OneMoreKind(c, docs, k);
    PruneEnds(c, docs, |PrunedKinds(c, docs, |PRUNE_ORDER|)|, Pruned(c, docs, |PRUNE_ORDER|));
    assert PartlyDeleted(Pruned(c, docs, k), last, Reconciled(c, docs));
  }

  /** Deploying again from wherever an earlier attempt stopped reaches the state an undisturbed attempt
      would have reached. */
  lemma RerunConverges(c: Resources, docs: seq<Document>, h: Resources)
    requires Midway(c, docs, h)
    ensures Reconciled(h, docs) == Reconciled(c, docs)
  {
    DocMapContents(docs);
    MidwayTouchesOnlyItsOwn(c, docs, h);
    MidwayKeepsStale(c, docs, h);
    var x, y := Reconciled(h, docs), Reconciled(c, docs);
    forall k ensures k in x <==> k in y ensures k in x ==> x[k] == y[k] {
      if k !in Desired(docs) && k in c {
        assert k in Stale(c, docs) || !IsManaged(c[k]);
      }
    }
  }

  lemma MidwayIsWellFormed(c: Resources, docs: seq<Document>, h: Resources)
    requires WellFormed(c) && Named(docs) && Midway(c, docs, h)
    ensures WellFormed(h)
  {
    DocMapContents(docs);
    if PartlyApplied(c, ApplyOrder(docs), h) {
      var n :| 0 <= n <= |ApplyOrder(docs)| && h == c + DocMap(ApplyOrder(docs)[..n]);
      ApplyOrderIsSorted(docs);
      DocMapContents(ApplyOrder(docs)[..n]);
    }
  }

  /** Compiled documents meet what the results above ask of a list of documents. */
  lemma CompiledDocumentsQualify(cfg: Config, gs: seq<Grant>, docs: seq<Document>)
    requires Compile(cfg, gs) == Ok(docs)
    ensures Closed(docs) && Named(docs) && forall d :: d in docs ==> IsManaged(d)
  {
    CompiledReferencesClosed(cfg, gs, docs);
  }

  lemma MidwayKeepsStale(c: Resources, docs: seq<Document>, h: Resources)
    requires Midway(c, docs, h)
    ensures Stale(h, docs) <= Stale(c, docs)
    ensures forall k :: k in h && k in Stale(c, docs) ==> k in Stale(h, docs)
  {
    MidwayTouchesOnlyItsOwn(c, docs, h);
  }

  /** What success means: the managed resources are exactly the compiled documents, a second deployment
      finds nothing stale and changes nothing. */
  lemma ReconciledIsDesired(c: Resources, docs: seq<Document>)
    requires forall d :: d in docs ==> IsManaged(d)
    ensures Managed(Reconciled(c, docs)) == DocMap(docs)
    ensures forall k :: k in DocMap(docs) <==> k in Desired(docs)
    ensures Stale(Reconciled(c, docs), docs) == {} && Reconciled(Reconciled(c, docs), docs) == Reconciled(c, docs)
  {
    DocMapContents(docs);
    var r := Reconciled(c, docs);
    assert Stale(r, docs) == {};
    assert r - {} == r;
  }

  // ---------- the deployer ----------

  /** The states from position n on all belong to one deployment. */
  ghost predicate Trail(c: Resources, docs: seq<Document>, history: seq<Resources>, n: nat) {
    forall i :: n <= i < |history| ==> Midway(c, docs, history[i])
  }

  /** history extends earlier and ends in the current state. */
  ghost predicate Logged(earlier: seq<Resources>, history: seq<Resources>, now: Resources) {
    earlier <= history && history != [] && history[|history| - 1] == now
  }

  /** What every step of a deployment of docs onto c keeps, earlier being the states before it. */
  ghost predicate Deploying(c: Resources, docs: seq<Document>, earlier: seq<Resources>, history: seq<Resources>, now: Resources) {
    Logged(earlier, history, now) && Trail(c, docs, history, |earlier|)
  }

  ghost predicate ApplyTrail(c: Resources, order: seq<Document>, history: seq<Resources>, n: nat) {
    forall i :: n <= i < |history| ==> PartlyApplied(c, order, history[i])
  }

  ghost predicate DeleteTrail(c: Resources, unwanted: set<ResourceKey>, history: seq<Resources>, n: nat) {
    forall i :: n <= i < |history| ==> PartlyDeleted(c, unwanted, history[i])
  }

  /** One more apply, whether or not it takes effect. */
  lemma ApplyStep(c: Resources, order: seq<Document>, i: nat, earlier: seq<Resources>, history: seq<Resources>)
    requires i < |order|
    requires Logged(earlier, history, c + DocMap(order[..i])) && ApplyTrail(c, order, history, |earlier|)
    ensures var now, next := c + DocMap(order[..i]), c + DocMap(order[..i + 1]);
            && next == now[KeyOf(order[i]) := order[i]]
            && Logged(earlier, history + [now], now) && Logged(earlier, history + [next], next)
            && ApplyTrail(c, order, history + [now], |earlier|) && ApplyTrail(c, order, history + [next], |earlier|)
  {
    DocMapSnoc(order[..i], order[i]);
    assert order[..i + 1] == order[..i] + [order[i]];
    assert PartlyApplied(c, order, c + DocMap(order[..i])) && PartlyApplied(c, order, c + DocMap(order[..i + 1]));
  }

  /** One more deletion, whether or not it takes effect. */
  lemma DeleteStep(c: Resources, unwanted: set<ResourceKey>, removed: set<ResourceKey>, item: ResourceKey,
                   earlier: seq<Resources>, history: seq<Resources>)
    requires removed <= unwanted && item in unwanted
    requires Logged(earlier, history, c - removed) && DeleteTrail(c, unwanted, history, |earlier|)
    ensures var now, next := c - removed, c - (removed + {item});
            && next == now - {item}
            && Logged(earlier, history + [now], now) && Logged(earlier, history + [next], next)
            && DeleteTrail(c, unwanted, history + [now], |earlier|) && DeleteTrail(c, unwanted, history + [next], |earlier|)
  {
  }

  /** A call to the Kubernetes API works, is refused, or takes effect although its reply is lost. */
  datatype Fault = Works | Refused | ReplyLost

  ghost predicate NoFaults(faults: nat -> Fault) { forall n :: faults(n).Works? }

  datatype Deployment = Deployed(applied: nat, pruned: nat) | DeploymentError

  class Api {
    var resources: Resources
    /** Every state the cluster has been in since the client was created. */
    ghost var history: seq<Resources>

    constructor (initial: Resources)
      ensures resources == initial && history == [initial]
    {
      resources, history := initial, [initial];
    }

    /** Forced server-side apply: the document replaces whatever had its kind and name. */
    method Apply(document: Document, fault: Fault) returns (ok: bool)
      modifies this
      ensures ok == fault.Works?
      ensures resources == if fault.Refused? then old(resources) else old(resources)[KeyOf(document) := document]
      ensures history == old(history) + [resources]
    {
      if !fault.Refused? { resources := resources[KeyOf(document) := document]; }
      history := history + [resources];
      ok := fault.Works?;
    }

    method Delete(key: ResourceKey, fault: Fault) returns (ok: bool)
      modifies this
      ensures ok == fault.Works?
      ensures resources == if fault.Refused? then old(resources) else old(resources) - {key}
      ensures history == old(history) + [resources]
    {
      if !fault.Refused? { resources := resources - {key}; }
      history := history + [resources];
      ok := fault.Works?;
    }

    method ListManaged(kind: Kind) returns (items: set<ResourceKey>)
      ensures items == set k | k in resources && k.kind == kind && IsManaged(resources[k])
    {
      items := set k | k in resources && k.kind == kind && IsManaged(resources[k]);
    }

    /** The apply loop; faults says what befalls API call number n of the deployment. */
    method ApplyAll(order: seq<Document>, faults: nat -> Fault) returns (ok: bool)
      requires Logged([], history, resources)
      modifies this
      ensures Logged(old(history), history, resources)
      ensures ApplyTrail(old(resources), order, history, |old(history)|)
      ensures ok ==> resources == old(resources) + DocMap(order)
      ensures NoFaults(faults) ==> ok
    {
      ghost var start := resources;
      for i := 0 to |order|
        invariant resources == start + DocMap(order[..i])
        invariant Logged(old(history), history, resources)
        invariant ApplyTrail(start, order, history, |old(history)|)
      {
        ApplyStep(start, order, i, old(history), history);
        ok := Apply(order[i], faults(i));
        if !ok { return; }
      }
      assert order[..|order|] == order;
      ok := true;
    }

    /** The delete loop of _prune for one kind's listing; made counts the API calls before it. */
    method DeleteUnwanted(listed: set<ResourceKey>, desired: set<ResourceKey>, made: nat, faults: nat -> Fault)
      returns (result: Option<nat>, calls: nat)
      requires Logged([], history, resources) && forall key :: key in listed ==> key.name != ""
      modifies this
      ensures Logged(old(history), history, resources)
      ensures DeleteTrail(old(resources), listed - desired, history, |old(history)|)
      ensures result.Some? ==>
                resources == old(resources) - (listed - desired) && result.value == |listed - desired|
      ensures NoFaults(faults) ==> result.Some?
    {
      ghost var start, unwanted := resources, listed - desired;
      ghost var removed: set<ResourceKey> := {};
      var items, pruned := listed, 0;
      calls := made;
      while items != {}
        invariant items <= listed && removed == unwanted - items && pruned == |removed|
        invariant resources == start - removed
        invariant Logged(old(history), history, resources)
        invariant DeleteTrail(start, unwanted, history, |old(history)|)
        decreases items
      {
        var item :| item in items;
        OneFewer(unwanted, items, item);
        if item.name != "" && item !in desired {
          DeleteStep(start, unwanted, removed, item, old(history), history);
          var ok := Delete(item, faults(calls));
          calls := calls + 1;
          if !ok { return None, calls; }
          removed := removed + {item};
          pruned := pruned + 1;
        }
        items := items - {item};
      }
      result := Some(pruned);
    }

    /** The body of _prune's loop over kinds; the states after those in earlier belong to this deployment. */
    method PruneKind(ghost start: Resources, ghost documents: seq<Document>, ghost earlier: seq<Resources>, k: nat,
                     ghost pruned: nat, desired: set<ResourceKey>, made: nat, faults: nat -> Fault)
      returns (result: Option<nat>, calls: nat)
      requires WellFormed(start) && Named(documents) && desired == Desired(documents) && k < |PRUNE_ORDER|
      requires PrunedSoFar(start, documents, k, pruned, resources)
      requires Deploying(start, documents, earlier, history, resources)
      modifies this
      ensures Deploying(start, documents, earlier, history, resources)
      ensures result.Some? ==> result.value == |StaleOfKind(start, documents, PRUNE_ORDER[k])|
      ensures result.Some? ==> PrunedSoFar(start, documents, k + 1, pruned + result.value, resources)
      ensures NoFaults(faults) ==> result.Some?
    {
      if !faults(made).Works? { return None, made; }
      var items := ListManaged(PRUNE_ORDER[k]);
      ListedStale(start, documents, k, items);
      OneMoreKind(start, documents, k);
      result, calls := DeleteUnwanted(items, desired, made + 1, faults);
      PruneTrail(start, documents, k, old(history), history, |earlier|);
      if result.Some? { PruneGoesOn(start, documents, k, pruned, result.value); }
    }

    /** _prune; None when a call failed. */
    method Prune(ghost start: Resources, ghost documents: seq<Document>, desired: set<ResourceKey>, made: nat, faults: nat -> Fault)
      returns (result: Option<nat>)
      requires WellFormed(start) && Named(documents) && desired == Desired(documents)
      requires resources == start + DocMap(documents) && Logged([], history, resources)
      modifies this
      ensures Deploying(start, documents, old(history), history, resources)
      ensures result.Some? ==>
                resources == Reconciled(start, documents) && result.value == |Stale(start, documents)|
      ensures NoFaults(faults) ==> result.Some?
    {
      ghost var earlier := history;
      PruneStarts(start, documents, history);
      var calls: nat, pruned: nat := made, 0;
      for k := 0 to |PRUNE_ORDER|
        invariant PrunedSoFar(start, documents, k, pruned, resources)
        invariant Deploying(start, documents, earlier, history, resources)
      {
        var more: Option<nat>;
        more, calls := PruneKind(start, documents, earlier, k, pruned, desired, calls, faults);
        if more.None? { return None; }
        pruned := pruned + more.value;
      }
      PruneEnds(start, documents, pruned, resources);
      result := Some(pruned);
    }

    /** deploy_all_policies inside its lock. compiled is what build_policy_documents gave, environment
        whether the namespace and the credentials could be loaded. */
    method DeployAllPolicies(compiled: Result<seq<Document>, ()>, environment: bool, faults: nat -> Fault)
      returns (result: Deployment)
      requires WellFormed(resources) && Logged([], history, resources) && (compiled.Ok? ==> Named(compiled.value))
      modifies this
      ensures Logged(old(history), history, resources)
      ensures compiled.Err? || !environment ==> result.DeploymentError? && history == old(history)
      ensures compiled.Ok? ==> Trail(old(resources), compiled.value, history, |old(history)|)
      ensures result.Deployed? ==>
                && resources == Reconciled(old(resources), compiled.value)
                && result.applied == |compiled.value|
                && result.pruned == |Stale(old(resources), compiled.value)|
      ensures compiled.Ok? && environment && NoFaults(faults) ==> result.Deployed?
      ensures forall k :: k in old(resources) && !Labelled(old(resources)[k]) && (compiled.Ok? ==> !Wanted(compiled.value, k)) ==>
                k in resources && resources[k] == old(resources)[k]
      ensures result.Deployed? ==>
                forall k :: k in old(resources) && Labelled(old(resources)[k]) && !Wanted(compiled.value, k) ==> k !in resources
    {
      if compiled.Err? || !environment { return DeploymentError; }
      var documents := compiled.value;
      var order := ApplyOrder(documents);
      ghost var start := resources;
      var ok := ApplyAll(order, faults);
      assert Trail(start, documents, history, |old(history)|);
      EndsAsItShould(start, documents, old(history), history, resources);
      if !ok { return DeploymentError; }
      ApplyOrderSameResult(documents);
      var pruned := Prune(start, documents, Desired(documents), |order|, faults);
      EndsAsItShould(start, documents, old(history), history, resources);
      result := match pruned case None => DeploymentError case Some(n) => Deployed(|documents|, n);
    }
  }

  /** Whatever a deployment has come to, foreign resources are as they were; and after success ours are. */
  lemma EndsAsItShould(c: Resources, docs: seq<Document>, earlier: seq<Resources>, history: seq<Resources>, now: Resources)
    requires Logged([], earlier, c) && Deploying(c, docs, earlier, history, now)
    ensures forall k :: k in c && !Labelled(c[k]) && !Wanted(docs, k) ==> k in now && now[k] == c[k]
    ensures now == Reconciled(c, docs) ==> forall k :: k in c && Labelled(c[k]) && !Wanted(docs, k) ==> k !in now
  {
    if history == earlier {
      assert now == c;
    } else {
      assert Midway(c, docs, history[|history| - 1]);
      forall k | k in c && !Labelled(c[k]) && !Wanted(docs, k) ensures k in now && now[k] == c[k] { ForeignSurvives(c, docs, now, k); }
    }
    if now == Reconciled(c, docs) {
      forall k | k in c && Labelled(c[k]) && !Wanted(docs, k) ensures k !in now { UnwantedIsGone(c, docs, k); }
    }
  }

  // ---------- the steps of the pruner ----------

  /** The first k kinds are pruned, and pruned counts what that removed. */
  ghost predicate PrunedSoFar(c: Resources, docs: seq<Document>, k: nat, pruned: nat, now: Resources) {
    k <= |PRUNE_ORDER| && now == Pruned(c, docs, k) && pruned == |PrunedKinds(c, docs, k)|
  }

  lemma PruneStarts(c: Resources, docs: seq<Document>, history: seq<Resources>)
    requires Logged([], history, c + DocMap(docs))
    ensures PrunedSoFar(c, docs, 0, 0, c + DocMap(docs))
    ensures Deploying(c, docs, history, history, c + DocMap(docs))
  {
  }

  lemma PruneGoesOn(c: Resources, docs: seq<Document>, k: nat, pruned: nat, more: nat)
    requires k < |PRUNE_ORDER| && PrunedSoFar(c, docs, k, pruned, Pruned(c, docs, k))
    requires more == |StaleOfKind(c, docs, PRUNE_ORDER[k])|
    ensures PrunedSoFar(c, docs, k + 1, pruned + more, Pruned(c, docs, k + 1))
  {
    OneMoreKind(c, docs, k);
  }

  lemma PruneEnds(c: Resources, docs: seq<Document>, pruned: nat, now: Resources)
    requires PrunedSoFar(c, docs, |PRUNE_ORDER|, pruned, now)
    ensures now == Reconciled(c, docs) && pruned == |Stale(c, docs)|
  {
    DocMapContents(docs);
    PruneOrderPrefix(|PRUNE_ORDER|);
    assert PrunedKinds(c, docs, |PRUNE_ORDER|) == Stale(c, docs);
  }

  lemma OneFewer(unwanted: set<ResourceKey>, items: set<ResourceKey>, item: ResourceKey)
    requires item in items
    ensures item in unwanted ==>
              unwanted - (items - {item}) == (unwanted - items) + {item}
              && |unwanted - (items - {item})| == |unwanted - items| + 1
    ensures item !in unwanted ==> unwanted - (items - {item}) == unwanted - items
  {
  }

  /** What the list call returns, apart from wanted resources, is what was stale of that kind at the start. */
  lemma ListedStale(c: Resources, docs: seq<Document>, k: nat, items: set<ResourceKey>)
    requires WellFormed(c) && Named(docs) && k < |PRUNE_ORDER|
    requires var r := Pruned(c, docs, k);
             items == set key | key in r && key.kind == PRUNE_ORDER[k] && IsManaged(r[key])
    ensures items - Desired(docs) == StaleOfKind(c, docs, PRUNE_ORDER[k])
    ensures forall key :: key in items ==> key.name != ""
  {
    DocMapContents(docs);
    PruneOrderPrefix(k);
    var r, kind := Pruned(c, docs, k), PRUNE_ORDER[k];
    forall key ensures key in items && key !in Desired(docs) <==> key in StaleOfKind(c, docs, kind) {
      if key.kind == kind { assert key !in PrunedKinds(c, docs, k); }
    }
  }

  lemma OneMoreKind(c: Resources, docs: seq<Document>, k: nat)
    requires k < |PRUNE_ORDER|
    ensures var more := StaleOfKind(c, docs, PRUNE_ORDER[k]);
            && |PrunedKinds(c, docs, k + 1)| == |PrunedKinds(c, docs, k)| + |more|
            && Pruned(c, docs, k) - more == Pruned(c, docs, k + 1)
  {
    KindsSplit(c, docs, k);
  }

  lemma KindsSplit(c: Resources, docs: seq<Document>, k: nat)
    requires k < |PRUNE_ORDER|
    ensures var more := StaleOfKind(c, docs, PRUNE_ORDER[k]);
            PrunedKinds(c, docs, k + 1) == PrunedKinds(c, docs, k) + more && PrunedKinds(c, docs, k) !! more
  {
  }

  lemma PruneTrail(c: Resources, docs: seq<Document>, k: nat, before: seq<Resources>, history: seq<Resources>, from: nat)
    requires k < |PRUNE_ORDER| && before <= history && from <= |before| && Trail(c, docs, before, from)
    requires DeleteTrail(Pruned(c, docs, k), StaleOfKind(c, docs, PRUNE_ORDER[k]), history, |before|)
    ensures Trail(c, docs, history, from)
  {
  }
}
