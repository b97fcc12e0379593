/** The dashboard's quota rows and their agreement with the event log (apps/usage/dashboard.py:7-65). */
module Dashboard {
  import opened Common
  import opened Usage
  import opened Policies

  /** Whose rows are shown: one user's own, or those of every holder of an active token, given as
      (username, project) pairs. */
  datatype Scope = OneUser(user: string) | AllUsers(active: set<(string, nat)>)

  datatype Row = Row(project: nat, user: string, model: Option<string>, consumed: Option<int>,
                     dailyLimit: Option<nat>, parallel: Option<nat>, resetAt: Option<int>)

  /** What one request reads: the aggregate, its keys in the order the database lists them, which is by
      shortcut in the database's order of text, and the clock. */
  datatype View = View(daily: map<UsageKey, DailyRow>, listing: seq<UsageKey>, collation: (string, string) -> bool,
                       scope: Scope, now: int)

  ghost predicate Lists(v: View) {
    && (forall k :: k in v.listing <==> k in v.daily)
    && (forall i, j :: 0 <= i < j < |v.listing| ==> v.listing[i] != v.listing[j])
    && TotalOrder(v.collation)
    && (forall i, j :: 0 <= i < j < |v.listing| ==> v.collation(v.listing[i].shortcut, v.listing[j].shortcut))
  }

  const NOBODY := "\U{2014}"

  function Today(now: int): int { now / SECONDS_PER_DAY }

  function ResetAt(now: int): int { (Today(now) + 1) * SECONDS_PER_DAY }

  /** The identities shown for a project; a project without any shows a dash. */
  function Shown(scope: Scope, pk: nat): set<string> {
    match scope
    case OneUser(u) => {if u == "" then NOBODY else u}
    case AllUsers(active) =>
      var names := set pair | pair in active && pair.1 == pk :: if pair.0 == "" then NOBODY else pair.0;
      if names == {} then {NOBODY} else names
  }

  function For(day: int, user: string, pk: int, model: string): UsageKey -> bool {
    (k: UsageKey) => k.day == day && k.user == user && k.projectId == pk && k.model == model
  }

  /** The count a dictionary keyed by (user, project, model) ends up with: the last listed row's. */
  function Consumed(v: View, user: string, pk: nat, model: string): int {
    var rows := Filter(v.listing, For(Today(v.now), user, pk, model));
    if rows == [] || rows[|rows| - 1] !in v.daily then 0 else v.daily[rows[|rows| - 1]].tokens
  }

  // ---------- the rows ----------

  function UserRows(v: View, p: PolicyProject, user: string): seq<Row> {
    if p.limits == [] then [Row(p.pk, user, None, None, None, None, None)]
    else seq(|p.limits|, i requires 0 <= i < |p.limits| => LimitRow(v, p.pk, user, p.limits[i]))
  }

  function LimitRow(v: View, pk: nat, user: string, l: ModelLimit): Row {
    Row(pk, user, Some(l.model), Some(Consumed(v, user, pk, l.model)), Some(l.daily), l.parallel, Some(ResetAt(v.now)))
  }

  function NamesRows(v: View, p: PolicyProject, names: seq<string>): seq<Row> {
    if names == [] then [] else NamesRows(v, p, names[..|names| - 1]) + UserRows(v, p, names[|names| - 1])
  }

  /** sorted() of a set of names */
  ghost function InOrder(names: set<string>): seq<string> {
    LexIsTotalOrder();
    Sorted(names, LexLeq)
  }

  /** All rows: projects as given, identities in order, limits as listed. */
  ghost function Rows(v: View, ps: seq<PolicyProject>): seq<Row> {
    if ps == [] then []
    else
      var p := ps[|ps| - 1];
      Rows(v, ps[..|ps| - 1]) + NamesRows(v, p, InOrder(Shown(v.scope, p.pk)))
  }

  predicate LeastName(m: string, names: set<string>) { m in names && forall x :: x in names ==> LexLeq(m, x) }

  lemma LeastNameExists(names: set<string>)
    requires names != {}
    ensures exists m :: LeastName(m, names)
  {
    LexIsTotalOrder();
    LeastExists(names, LexLeq);
    var m :| IsLeast(m, names, LexLeq);
    assert LeastName(m, names);
  }

  lemma InOrderHead(names: set<string>, m: string)
    requires LeastName(m, names)
    ensures InOrder(names) == [m] + InOrder(names - {m})
  {
    LexIsTotalOrder();
    SortedHead(names, m, LexLeq);
  }

  ghost predicate Pending(names: set<string>, r: seq<string>, rest: set<string>) {
    InOrder(names) == r + InOrder(rest)
  }

  lemma PendingStart(names: set<string>)
    ensures Pending(names, [], names)
  {
  }

  lemma PendingStep(names: set<string>, r: seq<string>, rest: set<string>, m: string)
    requires Pending(names, r, rest) && LeastName(m, rest)
    ensures Pending(names, r + [m], rest - {m})
  {
    InOrderHead(rest, m);
    Regroup(r, m, InOrder(rest - {m}));
  }

  lemma Regroup(r: seq<string>, m: string, t: seq<string>)
    ensures r + ([m] + t) == r + [m] + t
  {
  }

  lemma PendingEnd(names: set<string>, r: seq<string>)
    requires Pending(names, r, {})
    ensures r == InOrder(names)
  {
  }

  method TakeLeast(names: set<string>) returns (m: string)
    requires names != {}
    ensures LeastName(m, names)
  {
    LeastNameExists(names);
    m :| m in names && LeastName(m, names);
  }

  method SortNames(names: set<string>) returns (r: seq<string>)
    ensures r == InOrder(names)
  {
    var rest := names;
    r := [];
    PendingStart(names);
    while rest != {}
      invariant Pending(names, r, rest)
      decreases |rest|
    {
      var m := TakeLeast(rest);
      PendingStep(names, r, rest, m);
      r := r + [m];
      rest := rest - {m};
    }
    PendingEnd(names, r);
  }

  // ---------- the view's code ----------

  type UsageTable = map<(string, int, string), int>

  function Lookup(usage: UsageTable, user: string, pk: int, model: string): int {
    if (user, pk, model) in usage then usage[(user, pk, model)] else 0
  }

  ghost predicate Correct(v: View, usage: UsageTable, pk: nat) {
    forall user, model :: Lookup(usage, user, pk, model) == Consumed(v, user, pk, model)
  }

  /** The usage dictionary: today's rows of the given projects, later rows overwriting earlier ones. */
  method UsageDict(v: View, pks: set<nat>) returns (usage: UsageTable)
    requires Lists(v)
    ensures forall pk :: pk in pks ==> Correct(v, usage, pk)
  {
    usage := map[];
    for i := 0 to |v.listing|
      invariant forall pk :: pk in pks ==> Correct(v.(listing := v.listing[..i]), usage, pk)
    {
      var k := v.listing[i];
      ghost var before := usage;
      if k.day == Today(v.now) && k.projectId >= 0 && k.projectId in pks {
        usage := usage[(k.user, k.projectId, k.model) := v.daily[k].tokens];
      }
      forall pk | pk in pks ensures Correct(v.(listing := v.listing[..i + 1]), usage, pk) {
        forall user, model
          ensures Lookup(usage, user, pk, model) == Consumed(v.(listing := v.listing[..i + 1]), user, pk, model)
        {
          NextListed(v, i, user, pk, model);
          assert Lookup(before, user, pk, model) == Consumed(v.(listing := v.listing[..i]), user, pk, model);
        }
      }
    }
    assert v.listing[..|v.listing|] == v.listing;
    assert v.(listing := v.listing) == v;
  }

  lemma NextListed(v: View, i: nat, user: string, pk: nat, model: string)
    requires Lists(v) && i < |v.listing|
    ensures Consumed(v.(listing := v.listing[..i + 1]), user, pk, model) ==
            if For(Today(v.now), user, pk, model)(v.listing[i]) then v.daily[v.listing[i]].tokens
            else Consumed(v.(listing := v.listing[..i]), user, pk, model)
  {
    assert v.listing[..i + 1][..i] == v.listing[..i];
    assert v.listing[i] in v.listing;
  }

  /** The rows of one identity. */
  method RowsOf(v: View, p: PolicyProject, usage: UsageTable, user: string) returns (rows: seq<Row>)
    requires Correct(v, usage, p.pk)
    ensures rows == UserRows(v, p, user)
  {
    if p.limits == [] { return [Row(p.pk, user, None, None, None, None, None)]; }
    rows := [];
    for l := 0 to |p.limits|
      invariant rows == UserRows(v, p, user)[..l]
    {
      var m := p.limits[l];
      var row := Row(p.pk, user, Some(m.model), Some(Lookup(usage, user, p.pk, m.model)), Some(m.daily), m.parallel,
                     Some(ResetAt(v.now)));
      assert row == LimitRow(v, p.pk, user, m) == UserRows(v, p, user)[l];
      rows := rows + [row];
    }
  }

  lemma OneMoreName(v: View, p: PolicyProject, names: seq<string>, n: nat)
    requires n < |names|
    ensures NamesRows(v, p, names[..n + 1]) == NamesRows(v, p, names[..n]) + UserRows(v, p, names[n])
  {
    assert names[..n + 1][..n] == names[..n];
  }

  lemma RowsOfOneMoreProject(v: View, ps: seq<PolicyProject>, p: nat)
    requires p < |ps|
    ensures Rows(v, ps[..p + 1]) == Rows(v, ps[..p]) + NamesRows(v, ps[p], InOrder(Shown(v.scope, ps[p].pk)))
  {
    assert ps[..p + 1][..p] == ps[..p];
  }

  /** The rows of one project. */
  method RowsOfProject(v: View, p: PolicyProject, usage: UsageTable) returns (rows: seq<Row>)
    requires Correct(v, usage, p.pk)
    ensures rows == NamesRows(v, p, InOrder(Shown(v.scope, p.pk)))
  {
    var names := SortNames(Shown(v.scope, p.pk));
    rows := [];
    for n := 0 to |names|
      invariant rows == NamesRows(v, p, names[..n])
    {
      OneMoreName(v, p, names, n);
      var more := RowsOf(v, p, usage, names[n]);
      rows := rows + more;
    }
    assert names[..|names|] == names;
  }

  /** usage_rows_for_projects */
  method UsageRowsForProjects(v: View, ps: seq<PolicyProject>) returns (rows: seq<Row>)
    requires Lists(v)
    ensures rows == Rows(v, ps)
  {
    var usage := UsageDict(v, set p | p in ps :: p.pk);
    rows := [];
    for p := 0 to |ps|
      invariant rows == Rows(v, ps[..p])
    {
      RowsOfOneMoreProject(v, ps, p);
      var more := RowsOfProject(v, ps[p], usage);
      rows := rows + more;
    }
    assert ps[..|ps|] == ps;
  }

  // ---------- which rows there are ----------

  /** A row is shown exactly for each project, identity and limit of the project, and once more for an
      identity whose project has no limit at all. */
  lemma {:induction false} RowsAre(v: View, ps: seq<PolicyProject>)
    ensures forall r :: r in Rows(v, ps) <==>
              exists p, user :: p in ps && user in Shown(v.scope, p.pk) && r in UserRows(v, p, user)
    decreases |ps|
  {
    if ps == [] {
    } else {
      var front, p := ps[..|ps| - 1], ps[|ps| - 1];
      RowsAre(v, front);
      assert ps == front + [p];
      InOrderMembers(Shown(v.scope, p.pk));
      NamesRowsAre(v, p, InOrder(Shown(v.scope, p.pk)));
    }
  }

  /** Who is shown for a project: the one user asked about, or everyone with a token of that very project; a
      dash stands for an empty name and for a project nobody has a token of. */
  ghost predicate ShownFor(scope: Scope, pk: nat, user: string) {
    match scope
    case OneUser(u) => user == if u == "" then "\U{2014}" else u
    case AllUsers(active) =>
      || (exists name :: (name, pk) in active && user == if name == "" then "\U{2014}" else name)
      || (user == "\U{2014}" && forall name :: (name, pk) !in active)
  }

  lemma ShownIs(scope: Scope, pk: nat, user: string)
    ensures user in Shown(scope, pk) <==> ShownFor(scope, pk, user)
  {
    match scope
    case OneUser(u) =>
    case AllUsers(active) =>
      var names := set pair | pair in active && pair.1 == pk :: if pair.0 == "" then NOBODY else pair.0;
      forall name | (name, pk) in active ensures (if name == "" then NOBODY else name) in names {
        assert (name, pk).1 == pk && (name, pk).0 == name;
      }
      if user in names {
        var pair :| pair in active && pair.1 == pk && user == if pair.0 == "" then NOBODY else pair.0;
        assert (pair.0, pk) == pair;
      }
  }

  /** What a row of a project and an identity says, with a limit or, if the project has none, without. */
  ghost predicate RowFor(v: View, p: PolicyProject, user: string, r: Row) {
    && r.project == p.pk && r.user == user
    && ((p.limits == [] && r.model == None && r.consumed == None && r.dailyLimit == None && r.parallel == None && r.resetAt == None)
        || exists l :: l in p.limits && r.model == Some(l.model) && r.consumed == Some(Consumed(v, user, p.pk, l.model))
             && r.dailyLimit == Some(l.daily) && r.parallel == l.parallel && r.resetAt == Some((v.now / 86400 + 1) * 86400))
  }

  lemma UserRowsAre(v: View, p: PolicyProject, user: string, r: Row)
    ensures r in UserRows(v, p, user) <==> RowFor(v, p, user, r)
  {
    var rows := UserRows(v, p, user);
    if p.limits != [] {
      if r in rows {
        var i :| 0 <= i < |rows| && rows[i] == r;
        assert p.limits[i] in p.limits;
      }
      if RowFor(v, p, user, r) {
        var l :| l in p.limits && r.model == Some(l.model) && r.consumed == Some(Consumed(v, user, p.pk, l.model))
          && r.dailyLimit == Some(l.daily) && r.parallel == l.parallel && r.resetAt == Some((v.now / 86400 + 1) * 86400);
        var i :| 0 <= i < |p.limits| && p.limits[i] == l;
        assert rows[i] == r;
      }
    }
  }

  /** Which rows are shown, in full. */
  lemma RowsSay(v: View, ps: seq<PolicyProject>, r: Row)
    ensures r in Rows(v, ps) <==> exists p, user :: p in ps && ShownFor(v.scope, p.pk, user) && RowFor(v, p, user, r)
  {
    RowsAre(v, ps);
    if r in Rows(v, ps) {
      var p, user :| p in ps && user in Shown(v.scope, p.pk) && r in UserRows(v, p, user);
      ShownIs(v.scope, p.pk, user);
      UserRowsAre(v, p, user, r);
    }
    if p, user :| p in ps && ShownFor(v.scope, p.pk, user) && RowFor(v, p, user, r) {
      ShownIs(v.scope, p.pk, user);
      UserRowsAre(v, p, user, r);
    }
  }

  lemma {:induction false} NamesRowsAre(v: View, p: PolicyProject, names: seq<string>)
    ensures forall r :: r in NamesRows(v, p, names) <==> exists user :: user in names && r in UserRows(v, p, user)
    decreases |names|
  {
    if names == [] {
    } else {
      var front, last := names[..|names| - 1], names[|names| - 1];
      NamesRowsAre(v, p, front);
      assert forall user :: user in names <==> user in front || user == last by { assert names == front + [last]; }
    }
  }

  lemma InOrderMembers(names: set<string>)
    ensures forall x :: x in InOrder(names) <==> x in names
  {
    LexIsTotalOrder();
  }

  function RowsEach(p: PolicyProject): nat { if p.limits == [] then 1 else |p.limits| }

  lemma {:induction false} NamesRowsCount(v: View, p: PolicyProject, names: seq<string>)
    ensures |NamesRows(v, p, names)| == |names| * RowsEach(p)
    decreases |names|
  {
    if names == [] {
    } else {
      NamesRowsCount(v, p, names[..|names| - 1]);
      assert |UserRows(v, p, names[|names| - 1])| == RowsEach(p);
      OneMoreTimes(|names|, RowsEach(p));
    }
  }

  lemma OneMoreTimes(n: int, w: int)
    ensures n * w == (n - 1) * w + w
  {
  }

  lemma {:induction false} InOrderLength(names: set<string>)
    ensures |InOrder(names)| == |names|
    decreases |names|
  {
    if names == {} {
      LexIsTotalOrder();
    } else {
      LeastNameExists(names);
      var m :| LeastName(m, names);
      InOrderHead(names, m);
      InOrderLength(names - {m});
    }
  }

  ghost function RowsPerProject(v: View): PolicyProject -> int {
    (p: PolicyProject) => |Shown(v.scope, p.pk)| * RowsEach(p)
  }

  /** There are as many rows as pairs of an identity and a limit, counting one for a project without limits. */
  lemma {:induction false} RowCount(v: View, ps: seq<PolicyProject>)
    ensures |Rows(v, ps)| == Sum(ps, RowsPerProject(v))
    decreases |ps|
  {
    if ps == [] {
    } else {
      var front, p := ps[..|ps| - 1], ps[|ps| - 1];
      RowCount(v, front);
      assert ps == front + [p];
      SumAppend(front, p, RowsPerProject(v));
      NamesRowsCount(v, p, InOrder(Shown(v.scope, p.pk)));
      InOrderLength(Shown(v.scope, p.pk));
    }
  }

  // ---------- agreement with the event log ----------

  /** An event that counts towards a row, whatever shortcut its project had. */
  predicate Counts(r: UsageRecord, day: int, user: string, pk: int, model: string) {
    Day(r) == day && r.user == user && r.projectId == pk && r.model == model
  }

  function CountedTokens(day: int, user: string, pk: int, model: string): UsageRecord -> int {
    (r: UsageRecord) => if Counts(r, day, user, pk, model) then r.tokens else 0
  }

  /** The reset shown is the next midnight, and the events that count for today are exactly those of the
      identity in the 24 hours that end with it, in which the present lies too. */
  lemma CountedEventsLieInTheDay(v: View, r: UsageRecord, user: string, pk: int, model: string)
    ensures Counts(r, Today(v.now), user, pk, model) <==>
            && r.user == user && r.projectId == pk && r.model == model
            && ResetAt(v.now) - 86400 <= r.occurredAt < ResetAt(v.now)
    ensures ResetAt(v.now) - 86400 <= v.now < ResetAt(v.now) && ResetAt(v.now) % 86400 == 0
  {
  }

  ghost function TokensUnder(events: map<string, UsageRecord>): UsageKey -> int {
    k => SumOver(events, TokenWeight(k))
  }

  function WeightUnder(r: UsageRecord): UsageKey -> int { (k: UsageKey) => if Key(r) == k then r.tokens else 0 }

  /** Every event that counts is counted under exactly one of the keys. */
  ghost predicate Covers(keys: seq<UsageKey>, events: map<string, UsageRecord>, day: int, user: string, pk: int, model: string) {
    && (forall i, j :: 0 <= i < j < |keys| ==> keys[i] != keys[j])
    && (forall k :: k in keys ==> For(day, user, pk, model)(k))
    && (forall id :: id in events && Counts(events[id], day, user, pk, model) ==> Key(events[id]) in keys)
  }

  lemma {:induction false} WeightsAdd(keys: seq<UsageKey>, r: UsageRecord)
    requires forall i, j :: 0 <= i < j < |keys| ==> keys[i] != keys[j]
    ensures Sum(keys, WeightUnder(r)) == if Key(r) in keys then r.tokens else 0
  {
    if keys == [] {
    } else {
      WeightsAdd(keys[1..], r);
      assert forall k :: k in keys <==> k == keys[0] || k in keys[1..];
      assert keys[0] !in keys[1..];
      assert WeightUnder(r)(keys[0]) == if Key(r) == keys[0] then r.tokens else 0;
    }
  }

  lemma {:induction false} SumSplits(keys: seq<UsageKey>, events: map<string, UsageRecord>, id: string)
    requires id in events
    ensures Sum(keys, TokensUnder(events)) == Sum(keys, WeightUnder(events[id])) + Sum(keys, TokensUnder(events - {id}))
    decreases |keys|
  {
    if keys == [] {
    } else {
      SumRemove(events, id, TokenWeight(keys[0]));
      SumSplits(keys[1..], events, id);
    }
  }

  lemma {:induction false} SumOfNothing(keys: seq<UsageKey>)
    ensures Sum(keys, TokensUnder(map[])) == 0
  {
    if keys == [] {
    } else {
      SumOfNothing(keys[1..]);
    }
  }

  lemma OneCounted(keys: seq<UsageKey>, events: map<string, UsageRecord>, id: string, day: int, user: string, pk: int, model: string)
    requires Covers(keys, events, day, user, pk, model) && id in events
    ensures Covers(keys, events - {id}, day, user, pk, model)
    ensures Sum(keys, WeightUnder(events[id])) == CountedTokens(day, user, pk, model)(events[id])
  {
    WeightsAdd(keys, events[id]);
    if Key(events[id]) in keys {
      assert For(day, user, pk, model)(Key(events[id]));
    }
  }

  /** One event, taken out of both ways of counting. */
  lemma CountStep(keys: seq<UsageKey>, events: map<string, UsageRecord>, id: string, day: int, user: string, pk: int, model: string)
    requires Covers(keys, events, day, user, pk, model) && id in events
    requires SumOver(events - {id}, CountedTokens(day, user, pk, model)) == Sum(keys, TokensUnder(events - {id}))
    ensures SumOver(events, CountedTokens(day, user, pk, model)) == Sum(keys, TokensUnder(events))
  {
    SumRemove(events, id, CountedTokens(day, user, pk, model));
    SumSplits(keys, events, id);
    OneCounted(keys, events, id, day, user, pk, model);
  }

  /** Counting event by event and counting key by key agree. */
  lemma {:induction false} TotalByKeys(keys: seq<UsageKey>, events: map<string, UsageRecord>, day: int, user: string, pk: int, model: string)
    requires Covers(keys, events, day, user, pk, model)
    ensures SumOver(events, CountedTokens(day, user, pk, model)) == Sum(keys, TokensUnder(events))
    decreases |events|
  {
    if events == map[] {
      SumOfNothing(keys);
    } else {
      var id :| id in events;
      OneCounted(keys, events, id, day, user, pk, model);
      TotalByKeys(keys, events - {id}, day, user, pk, model);
      CountStep(keys, events, id, day, user, pk, model);
    }
  }

  /** The daily rows that share one dictionary key, in the order the database lists them. */
  function Matching(v: View, user: string, pk: nat, model: string): seq<UsageKey> {
    Filter(v.listing, For(Today(v.now), user, pk, model))
  }

  ghost predicate Reads(v: View, db: Db) { Agrees(db) && v.daily == db.daily && Lists(v) }

  /** What the log itself says the identity has used today. */
  ghost function UsedToday(v: View, db: Db, user: string, pk: nat, model: string): int {
    SumOver(db.events, CountedTokens(Today(v.now), user, pk, model))
  }

  lemma MatchingCovers(v: View, db: Db, user: string, pk: nat, model: string)
    requires Reads(v, db)
    ensures Covers(Matching(v, user, pk, model), db.events, Today(v.now), user, pk, model)
    ensures forall k :: k in Matching(v, user, pk, model) ==> k in v.daily && v.daily[k].tokens == TokensUnder(db.events)(k)
  {
    var keys := Matching(v, user, pk, model);
    FilterMembers(v.listing, For(Today(v.now), user, pk, model));
    FilterPairwise(v.listing, For(Today(v.now), user, pk, model), (a: UsageKey, b: UsageKey) => a != b);
    forall id | id in db.events && Counts(db.events[id], Today(v.now), user, pk, model)
      ensures Key(db.events[id]) in keys
    {
      assert Key(db.events[id]) in Recount(db.events);
    }
  }

  lemma {:induction false} TokensNonNegative(events: map<string, UsageRecord>, k: UsageKey)
    requires forall id :: id in events ==> events[id].tokens >= 0
    ensures SumOver(events, TokenWeight(k)) >= 0
    decreases |events|
  {
    if events == map[] {
    } else {
      var id :| id in events;
      SumRemove(events, id, TokenWeight(k));
      TokensNonNegative(events - {id}, k);
    }
  }

  lemma {:induction false} SumIsItsLast(s: seq<UsageKey>, f: UsageKey -> int)
    requires s != [] && forall k :: k in s ==> f(k) >= 0
    ensures Sum(s, f) >= f(s[|s| - 1])
    ensures Sum(s, f) == f(s[|s| - 1]) <==> forall i :: 0 <= i < |s| - 1 ==> f(s[i]) == 0
  {
    if |s| == 1 {
      assert Sum(s[1..], f) == 0;
    } else {
      SumIsItsLast(s[1..], f);
      assert forall i :: 1 <= i < |s| ==> s[i] == s[1..][i - 1];
      if forall i :: 0 <= i < |s[1..]| - 1 ==> f(s[1..][i]) == 0 {
        assert forall i :: 1 <= i < |s| - 1 ==> f(s[i]) == 0;
      }
    }
  }

  /** All of the key's daily rows before the last one listed are empty. */
  ghost predicate OthersEmpty(v: View, user: string, pk: nat, model: string) {
    var rows := Matching(v, user, pk, model);
    forall i :: 0 <= i < |rows| - 1 ==> rows[i] in v.daily && v.daily[rows[i]].tokens == 0
  }

  lemma MatchingTotal(v: View, db: Db, user: string, pk: nat, model: string)
    requires Reads(v, db)
    ensures UsedToday(v, db, user, pk, model) == Sum(Matching(v, user, pk, model), TokensUnder(db.events))
    ensures forall k :: k in Matching(v, user, pk, model) ==> TokensUnder(db.events)(k) >= 0
  {
    var keys := Matching(v, user, pk, model);
    MatchingCovers(v, db, user, pk, model);
    TotalByKeys(keys, db.events, Today(v.now), user, pk, model);
    forall k | k in keys ensures TokensUnder(db.events)(k) >= 0 { TokensNonNegative(db.events, k); }
  }

  lemma LastListedCounts(v: View, db: Db, user: string, pk: nat, model: string)
    requires Reads(v, db)
    ensures var keys := Matching(v, user, pk, model);
            && (keys == [] ==> Consumed(v, user, pk, model) == 0)
            && (keys != [] ==> Consumed(v, user, pk, model) == TokensUnder(db.events)(keys[|keys| - 1]))
            && (OthersEmpty(v, user, pk, model) <==>
                  forall i :: 0 <= i < |keys| - 1 ==> TokensUnder(db.events)(keys[i]) == 0)
  {
    var keys := Matching(v, user, pk, model);
    MatchingCovers(v, db, user, pk, model);
    forall i | 0 <= i < |keys| ensures keys[i] in v.daily && v.daily[keys[i]].tokens == TokensUnder(db.events)(keys[i]) {
      assert keys[i] in keys;
    }
  }

  // ---------- which of several shortcuts is shown ----------

  /** Event number id counts towards the row. */
  ghost predicate Counted(v: View, db: Db, user: string, pk: nat, model: string, id: string) {
    id in db.events && Counts(db.events[id], Today(v.now), user, pk, model)
  }

  /** It counts, and no event that counts has a greater shortcut. */
  ghost predicate Greatest(v: View, db: Db, user: string, pk: nat, model: string, id: string) {
    && Counted(v, db, user, pk, model, id)
    && forall other :: Counted(v, db, user, pk, model, other) ==> v.collation(db.events[other].shortcut, db.events[id].shortcut)
  }

  lemma MatchingKeysHaveEvents(v: View, db: Db, user: string, pk: nat, model: string, k: UsageKey) returns (id: string)
    requires Reads(v, db) && k in Matching(v, user, pk, model)
    ensures Counted(v, db, user, pk, model, id) && Key(db.events[id]) == k
  {
    MatchingCovers(v, db, user, pk, model);
    assert k in Recount(db.events);
    id :| id in db.events && Key(db.events[id]) == k;
  }

  lemma MatchingByShortcut(v: View, user: string, pk: nat, model: string)
    requires Lists(v)
    ensures var keys := Matching(v, user, pk, model);
            forall i, j :: 0 <= i < j < |keys| ==> v.collation(keys[i].shortcut, keys[j].shortcut)
  {
    FilterPairwise(v.listing, For(Today(v.now), user, pk, model), (a: UsageKey, b: UsageKey) => v.collation(a.shortcut, b.shortcut));
  }

  lemma ListedKey(v: View, db: Db, user: string, pk: nat, model: string, id: string) returns (n: nat)
    requires Reads(v, db) && Counted(v, db, user, pk, model, id)
    ensures n < |Matching(v, user, pk, model)| && Matching(v, user, pk, model)[n] == Key(db.events[id])
  {
    MatchingCovers(v, db, user, pk, model);
    n :| 0 <= n < |Matching(v, user, pk, model)| && Matching(v, user, pk, model)[n] == Key(db.events[id]);
  }

  lemma UpToTheLast(v: View, db: Db, user: string, pk: nat, model: string, id: string)
    requires Reads(v, db) && Counted(v, db, user, pk, model, id)
    ensures var keys := Matching(v, user, pk, model);
            keys != [] && v.collation(db.events[id].shortcut, keys[|keys| - 1].shortcut)
  {
    var keys := Matching(v, user, pk, model);
    var n := ListedKey(v, db, user, pk, model, id);
    MatchingByShortcut(v, user, pk, model);
    if n == |keys| - 1 { assert v.collation(keys[n].shortcut, keys[n].shortcut); }
  }

  lemma GreatestIsLast(v: View, db: Db, user: string, pk: nat, model: string, id: string)
    requires Reads(v, db) && Greatest(v, db, user, pk, model, id)
    ensures var keys := Matching(v, user, pk, model);
            keys != [] && Key(db.events[id]) == keys[|keys| - 1]
  {
    var keys, k := Matching(v, user, pk, model), Key(db.events[id]);
    UpToTheLast(v, db, user, pk, model, id);
    var last := keys[|keys| - 1];
    var top := MatchingKeysHaveEvents(v, db, user, pk, model, last);
    assert v.collation(last.shortcut, k.shortcut) && v.collation(k.shortcut, last.shortcut);
  }

  /** The last matching row is the one of the greatest shortcut among the events that count. */
  lemma LastIsGreatest(v: View, db: Db, user: string, pk: nat, model: string, id: string)
    requires Reads(v, db) && Counted(v, db, user, pk, model, id)
    ensures var keys := Matching(v, user, pk, model);
            keys != [] && (Greatest(v, db, user, pk, model, id) <==> Key(db.events[id]) == keys[|keys| - 1])
  {
    UpToTheLast(v, db, user, pk, model, id);
    if Greatest(v, db, user, pk, model, id) { GreatestIsLast(v, db, user, pk, model, id); }
    forall other | Counted(v, db, user, pk, model, other)
      ensures v.collation(db.events[other].shortcut, Matching(v, user, pk, model)[|Matching(v, user, pk, model)| - 1].shortcut)
    {
      UpToTheLast(v, db, user, pk, model, other);
    }
  }

  /** What is shown: the tokens recorded under the greatest of the shortcuts that today's events of the
      identity give the project, and nothing if there are no events. */
  lemma ShowsTheGreatestShortcut(v: View, db: Db, user: string, pk: nat, model: string)
    requires Reads(v, db)
    ensures forall id :: Greatest(v, db, user, pk, model, id) ==>
              Consumed(v, user, pk, model) == SumOver(db.events, TokenWeight(Key(db.events[id])))
    ensures (exists id :: Counted(v, db, user, pk, model, id)) ==> exists id :: Greatest(v, db, user, pk, model, id)
    ensures (forall id :: !Counted(v, db, user, pk, model, id)) ==> Consumed(v, user, pk, model) == 0
  {
    var keys := Matching(v, user, pk, model);
    LastListedCounts(v, db, user, pk, model);
    forall id | Greatest(v, db, user, pk, model, id)
      ensures Consumed(v, user, pk, model) == SumOver(db.events, TokenWeight(Key(db.events[id])))
    {
      LastIsGreatest(v, db, user, pk, model, id);
    }
    if keys == [] {
      MatchingCovers(v, db, user, pk, model);
    } else {
      var top := MatchingKeysHaveEvents(v, db, user, pk, model, keys[|keys| - 1]);
      LastIsGreatest(v, db, user, pk, model, top);
    }
  }

  lemma {:induction false} NothingUnderKey(events: map<string, UsageRecord>, k: UsageKey)
    requires forall id :: id in events ==> events[id].tokens >= 0
    ensures SumOver(events, TokenWeight(k)) == 0 <==> forall id :: id in events && Key(events[id]) == k ==> events[id].tokens == 0
    decreases |events|
  {
    if events == map[] {
    } else {
      var id :| id in events;
      SumRemove(events, id, TokenWeight(k));
      TokensNonNegative(events - {id}, k);
      NothingUnderKey(events - {id}, k);
      assert forall other :: other in events <==> other == id || other in events - {id};
    }
  }

  /** Whatever was used today was used under the greatest shortcut. */
  ghost predicate OnlyTheGreatestCounts(v: View, db: Db, user: string, pk: nat, model: string) {
    forall id :: Counted(v, db, user, pk, model, id) && !Greatest(v, db, user, pk, model, id) ==> db.events[id].tokens == 0
  }

  lemma OthersEmptyMeans(v: View, db: Db, user: string, pk: nat, model: string)
    requires Reads(v, db)
    ensures OthersEmpty(v, user, pk, model) <==> OnlyTheGreatestCounts(v, db, user, pk, model)
  {
    LastListedCounts(v, db, user, pk, model);
    if OthersEmpty(v, user, pk, model) {
      forall id | Counted(v, db, user, pk, model, id) && !Greatest(v, db, user, pk, model, id) ensures db.events[id].tokens == 0 {
        BelowTheGreatestIsEmpty(v, db, user, pk, model, id);
      }
    }
    if OnlyTheGreatestCounts(v, db, user, pk, model) {
      forall i | 0 <= i < |Matching(v, user, pk, model)| - 1 ensures TokensUnder(db.events)(Matching(v, user, pk, model)[i]) == 0 {
        BelowTheLastIsEmpty(v, db, user, pk, model, i);
      }
    }
  }

  lemma BelowTheGreatestIsEmpty(v: View, db: Db, user: string, pk: nat, model: string, id: string)
    requires Reads(v, db) && OthersEmpty(v, user, pk, model)
    requires Counted(v, db, user, pk, model, id) && !Greatest(v, db, user, pk, model, id)
    ensures db.events[id].tokens == 0
  {
    var keys := Matching(v, user, pk, model);
    MatchingCovers(v, db, user, pk, model);
    LastIsGreatest(v, db, user, pk, model, id);
    var n :| 0 <= n < |keys| && keys[n] == Key(db.events[id]);
    assert TokensUnder(db.events)(keys[n]) == 0;
    NothingUnderKey(db.events, keys[n]);
  }

  lemma BelowTheLastIsEmpty(v: View, db: Db, user: string, pk: nat, model: string, i: nat)
    requires Reads(v, db) && OnlyTheGreatestCounts(v, db, user, pk, model) && i < |Matching(v, user, pk, model)| - 1
    ensures TokensUnder(db.events)(Matching(v, user, pk, model)[i]) == 0
  {
    var keys := Matching(v, user, pk, model);
    MatchingCovers(v, db, user, pk, model);
    assert keys[i] in keys;
    forall id | id in db.events && Key(db.events[id]) == keys[i] ensures db.events[id].tokens == 0 {
      assert Counted(v, db, user, pk, model, id);
      LastIsGreatest(v, db, user, pk, model, id);
    }
    NothingUnderKey(db.events, keys[i]);
  }

  /** The number shown never exceeds the naive sum over today's events, and equals it exactly when no tokens
      were used under a shortcut that is not the greatest. */
  lemma ConsumedAgainstTheLog(v: View, db: Db, user: string, pk: nat, model: string)
    requires Reads(v, db)
    ensures 0 <= Consumed(v, user, pk, model) <= UsedToday(v, db, user, pk, model)
    ensures Consumed(v, user, pk, model) == UsedToday(v, db, user, pk, model) <==> OnlyTheGreatestCounts(v, db, user, pk, model)
  {
    var keys := Matching(v, user, pk, model);
    MatchingTotal(v, db, user, pk, model);
    LastListedCounts(v, db, user, pk, model);
    OthersEmptyMeans(v, db, user, pk, model);
    if keys != [] {
      SumIsItsLast(keys, TokensUnder(db.events));
      assert keys[|keys| - 1] in keys;
    }
  }

  /** Today's events of the identity all name the project by one shortcut. */
  ghost predicate OneShortcut(v: View, db: Db, user: string, pk: nat, model: string) {
    forall a, b :: Counted(v, db, user, pk, model, a) && Counted(v, db, user, pk, model, b) ==>
      db.events[a].shortcut == db.events[b].shortcut
  }

  /** With one shortcut a day the number shown is the sum. */
  lemma OneShortcutShowsTheSum(v: View, db: Db, user: string, pk: nat, model: string)
    requires Reads(v, db) && OneShortcut(v, db, user, pk, model)
    ensures Consumed(v, user, pk, model) == UsedToday(v, db, user, pk, model)
  {
    forall id | Counted(v, db, user, pk, model, id) ensures Greatest(v, db, user, pk, model, id) {
    }
    ConsumedAgainstTheLog(v, db, user, pk, model);
  }

  // ---------- a project renamed during the day ----------

  const EARLY := UsageRecord("r1", "ann", 1, "a", "m", "", 3, None, 0)
  const LATE := UsageRecord("r2", "ann", 1, "b", "m", "", 5, None, 0)
  const NO_USAGE := Db(map[], map[])

  function RenamedDb(): Db { Record(Record(NO_USAGE, EARLY).0, LATE).0 }

  function RenamedView(): View { View(RenamedDb().daily, [Key(EARLY), Key(LATE)], LexLeq, OneUser("ann"), 0) }

  lemma RenamedTables()
    ensures Agrees(RenamedDb()) && RenamedDb().events == map["r1" := EARLY]["r2" := LATE]
    ensures RenamedDb().daily == map[Key(EARLY) := DailyRow(3, 1)][Key(LATE) := DailyRow(5, 1)]
  {
    assert KeysOf(NO_USAGE.events) == {};
    RecordKeepsAgreement(NO_USAGE, EARLY);
    RenamedOnce();
    RecordKeepsAgreement(Record(NO_USAGE, EARLY).0, LATE);
  }

  lemma RenamedOnce()
    ensures Record(NO_USAGE, EARLY) == (Db(map["r1" := EARLY], map[Key(EARLY) := DailyRow(3, 1)]), Recorded)
    ensures Record(Record(NO_USAGE, EARLY).0, LATE).1 == Recorded && Key(EARLY) != Key(LATE)
  {
    assert Key(EARLY).shortcut != Key(LATE).shortcut;
  }

  lemma RenamedUsage()
    ensures SumOver(map["r1" := EARLY]["r2" := LATE], CountedTokens(0, "ann", 1, "m")) == 8
  {
    var g := CountedTokens(0, "ann", 1, "m");
    assert SumOver(map[], g) == 0;
    SumAdd(map[], EARLY, g);
    SumAdd(map["r1" := EARLY], LATE, g);
  }

  lemma LateUsage()
    ensures SumOver(map["r1" := EARLY]["r2" := LATE], TokenWeight(Key(LATE))) == 5
  {
    assert Key(EARLY).shortcut != Key(LATE).shortcut;
    assert SumOver(map[], TokenWeight(Key(LATE))) == 0;
    SumAdd(map[], EARLY, TokenWeight(Key(LATE)));
    SumAdd(map["r1" := EARLY], LATE, TokenWeight(Key(LATE)));
  }

  lemma RenamedIsRead()
    ensures Reads(RenamedView(), RenamedDb()) && RenamedView().collation("a", "b")
  {
    RenamedTables();
    RenamedOnce();
    LexIsTotalOrder();
  }

  /** A project renamed from "a" to "b" during the day, with two calls answered by the same model: wherever
      "a" sorts before "b", the dashboard shows 5 of 8 tokens. */
  lemma RenamedProjectLosesTokens(v: View)
    requires Reads(v, RenamedDb()) && Today(v.now) == 0 && v.collation("a", "b")
    ensures Consumed(v, "ann", 1, "m") == 5 && UsedToday(v, RenamedDb(), "ann", 1, "m") == 8
  {
    RenamedTables();
    RenamedUsage();
    LateUsage();
    assert RenamedDb().events["r2"] == LATE;
    assert Greatest(v, RenamedDb(), "ann", 1, "m", "r2");
    ShowsTheGreatestShortcut(v, RenamedDb(), "ann", 1, "m");
  }

  /** What every row with a limit shows: a project and one of its limits, an identity of that project, the
      reset that ends the day, and the log's own sum under the stated condition. */
  lemma RowShowsTheLog(v: View, db: Db, ps: seq<PolicyProject>, r: Row)
    requires Reads(v, db) && r in Rows(v, ps) && r.model.Some?
    ensures exists p, l :: p in ps && l in p.limits && r.project == p.pk && r.user in Shown(v.scope, p.pk) &&
              r.model == Some(l.model) && r.dailyLimit == Some(l.daily) && r.parallel == l.parallel
    ensures r.resetAt == Some(ResetAt(v.now)) && r.consumed.Some?
    ensures r.consumed.value == UsedToday(v, db, r.user, r.project, r.model.value) <==>
              OnlyTheGreatestCounts(v, db, r.user, r.project, r.model.value)
    ensures OneShortcut(v, db, r.user, r.project, r.model.value) ==>
              r.consumed.value == UsedToday(v, db, r.user, r.project, r.model.value)
  {
    RowsAre(v, ps);
    var p, user :| p in ps && user in Shown(v.scope, p.pk) && r in UserRows(v, p, user);
    var i :| 0 <= i < |UserRows(v, p, user)| && UserRows(v, p, user)[i] == r;
    assert r == LimitRow(v, p.pk, user, p.limits[i]);
    assert p.limits[i] in p.limits;
    ConsumedAgainstTheLog(v, db, r.user, r.project, r.model.value);
    if OneShortcut(v, db, r.user, r.project, r.model.value) {
      OneShortcutShowsTheSum(v, db, r.user, r.project, r.model.value);
    }
  }
}
