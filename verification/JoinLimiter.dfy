/** The limiter of join attempts: a fixed window opened by the first attempt, kept in a cache with expiry
    (apps/frontend/views.py:35-42 and 149-169). */
module JoinLimiter {
  import opened Common

  /** A live cache cell. */
  datatype Cell = Cell(count: int, expiry: int)

  datatype Limits = Limits(attempts: int, window: int)

  /** The cell a cache operation at time t sees; an expired one is gone. */
  function Live(cell: Option<Cell>, t: int): Option<Cell> {
    if cell.Some? && cell.value.expiry > t then cell else None
  }

  /** cache.add(key, 0, window) */
  function Add(cell: Option<Cell>, window: int, t: int): Option<Cell> {
    if Live(cell, t).Some? then cell else Some(Cell(0, t + window))
  }

  /** cache.incr(key); the cell keeps its expiry. On a missing key it raises ValueError. */
  function Incr(cell: Option<Cell>, t: int): Option<Cell> {
    match Live(cell, t) case None => None case Some(c) => Some(Cell(c.count + 1, c.expiry))
  }

  /** An operation on one user's cell at a time. Requests of the same user may interleave between any two. */
  datatype Op = AddOp(t: int) | IncrOp(t: int) | DeleteOp(t: int)

  function After(cell: Option<Cell>, op: Op, limits: Limits): Option<Cell> {
    match op
    case AddOp(t) => Add(cell, limits.window, t)
    case IncrOp(t) => Incr(cell, t)
    case DeleteOp(_) => None
  }

  /** The increment lets its attempt past the limiter. */
  predicate Admits(cell: Option<Cell>, op: Op, limits: Limits) {
    op.IncrOp? && Incr(cell, op.t).Some? && Incr(cell, op.t).value.count <= limits.attempts
  }

  // ---------- the view's code ----------

  datatype Attempt = Limited | CacheError | NoCode | WrongCode | Joined

  class Limiter {
    var cell: Option<Cell>
    const limits: Limits

    constructor (limits: Limits)
      ensures cell == None && this.limits == limits
    {
      this.cell, this.limits := None, limits;
    }

    /** project_join_limited, added at time t and incremented at time u; None when incr raised. */
    method ProjectJoinLimited(t: int, u: int) returns (limited: Option<bool>)
      requires t <= u
      modifies this
      ensures cell == After(After(old(cell), AddOp(t), limits), IncrOp(u), limits)
      ensures limited == Some(false) <==> Admits(After(old(cell), AddOp(t), limits), IncrOp(u), limits)
      ensures limited == None <==> u >= Add(old(cell), limits.window, t).value.expiry
    {
      if !(cell.Some? && cell.value.expiry > t) { cell := Some(Cell(0, t + limits.window)); }
      if cell.value.expiry <= u {
        cell := None;
        return None;
      }
      cell := Some(Cell(cell.value.count + 1, cell.value.expiry));
      limited := Some(cell.value.count > limits.attempts);
    }

    method ResetProjectJoinLimit(t: int)
      modifies this
      ensures cell == After(old(cell), DeleteOp(t), limits)
    {
      cell := None;
    }

    /** join_project for a POST: matches says whether the code belongs to a joinable project. */
    method JoinProject(code: string, matches: bool, t: int, u: int, v: int) returns (result: Attempt)
      requires t <= u <= v
      modifies this
      ensures var added := After(old(cell), AddOp(t), limits);
              var counted := After(added, IncrOp(u), limits);
              && (result.Joined? <==> Admits(added, IncrOp(u), limits) && code != "" && matches)
              && cell == (if result.Joined? then After(counted, DeleteOp(v), limits) else counted)
              && (result.NoCode? || result.WrongCode? ==> Admits(added, IncrOp(u), limits))
              && (result.Limited? || result.CacheError? ==> !Admits(added, IncrOp(u), limits))
    {
      var limited := ProjectJoinLimited(t, u);
      if limited == None { return CacheError; }
      if limited.value { return Limited; }
      if code == "" { return NoCode; }
      if !matches { return WrongCode; }
      ResetProjectJoinLimit(v);
      result := Joined;
    }
  }

  // ---------- the window ----------

  /** A live window is never extended, by blocked attempts or by any other; only a reset or its own expiry
      ends it. */
  lemma WindowIsNeverExtended(cell: Option<Cell>, op: Op, limits: Limits)
    requires cell.Some? && op.t < cell.value.expiry && !op.DeleteOp?
    ensures After(cell, op, limits).Some? && After(cell, op, limits).value.expiry == cell.value.expiry
    ensures After(cell, op, limits).value.count == cell.value.count + if op.IncrOp? then 1 else 0
  {
  }

  /** The first attempt at or after expiry, or with no window open, is admitted if any attempt ever is. */
  lemma FreshWindowAdmits(cell: Option<Cell>, limits: Limits, t: int)
    requires (cell.Some? ==> cell.value.expiry <= t) && limits.window > 0
    ensures After(cell, AddOp(t), limits) == Some(Cell(0, t + limits.window))
    ensures Admits(After(cell, AddOp(t), limits), IncrOp(t), limits) <==> limits.attempts >= 1
  {
  }

  // ---------- the bound over any interval of one window's length ----------

  predicate Within(op: Op, from: int, limits: Limits) { from <= op.t < from + limits.window }

  function AdmittedIn(cell: Option<Cell>, ops: seq<Op>, limits: Limits, from: int): int
    decreases |ops|
  {
    if ops == [] then 0
    else (if Within(ops[0], from, limits) && Admits(cell, ops[0], limits) then 1 else 0)
         + AdmittedIn(After(cell, ops[0], limits), ops[1..], limits, from)
  }

  function ResetsIn(ops: seq<Op>, limits: Limits, from: int): int {
    if ops == [] then 0
    else (if ops[0].DeleteOp? && Within(ops[0], from, limits) then 1 else 0) + ResetsIn(ops[1..], limits, from)
  }

  ghost predicate InTimeOrder(ops: seq<Op>) {
    forall i, j :: 0 <= i < j < |ops| ==> ops[i].t <= ops[j].t
  }

  function NonNegative(n: int): int { if n < 0 then 0 else n }

  /** How many more attempts the current window admits. */
  function Left(cell: Option<Cell>, limits: Limits): int {
    if cell.None? then 0 else NonNegative(limits.attempts - cell.value.count)
  }

  /** What can still be admitted before the interval ends, apart from resets to come: the rest of the current
      window, and one whole further window unless the current one was opened inside the interval. */
  function Budget(cell: Option<Cell>, limits: Limits, from: int): int {
    Left(cell, limits) +
    if cell.Some? && cell.value.expiry >= from + limits.window then 0 else NonNegative(limits.attempts)
  }

  ghost predicate CellInv(cell: Option<Cell>) { cell.Some? ==> cell.value.count >= 0 }

  /** One operation inside the interval pays for what it admits out of the budget; a reset refills it. */
  lemma BudgetStep(cell: Option<Cell>, op: Op, limits: Limits, from: int)
    requires CellInv(cell) && Within(op, from, limits)
    ensures CellInv(After(cell, op, limits))
    ensures (if Admits(cell, op, limits) then 1 else 0) + Budget(After(cell, op, limits), limits, from)
            <= Budget(cell, limits, from) + if op.DeleteOp? then NonNegative(limits.attempts) else 0
  {
  }

  lemma {:induction false} NothingLater(cell: Option<Cell>, ops: seq<Op>, limits: Limits, from: int)
    requires forall i :: 0 <= i < |ops| ==> ops[i].t >= from + limits.window
    ensures AdmittedIn(cell, ops, limits, from) == 0 && ResetsIn(ops, limits, from) == 0
    decreases |ops|
  {
    if ops == [] {
    } else {
      NothingLater(After(cell, ops[0], limits), ops[1..], limits, from);
    }
  }

  lemma {:induction false} BudgetBounds(cell: Option<Cell>, ops: seq<Op>, limits: Limits, from: int)
    requires CellInv(cell) && InTimeOrder(ops) && (ops != [] ==> ops[0].t >= from)
    ensures AdmittedIn(cell, ops, limits, from) <=
            Budget(cell, limits, from) + ResetsIn(ops, limits, from) * NonNegative(limits.attempts)
    decreases |ops|
  {
    if ops == [] {
    } else {
      var op, rest := ops[0], ops[1..];
      assert forall i :: 0 <= i < |rest| ==> rest[i] == ops[i + 1];
      if Within(op, from, limits) {
        BudgetStep(cell, op, limits, from);
        BudgetBounds(After(cell, op, limits), rest, limits, from);
        OneMoreRound(ResetsIn(rest, limits, from), NonNegative(limits.attempts));
      } else {
        NothingLater(cell, ops, limits, from);
      }
    }
  }

  /** In any interval of one window's length, one user's attempts that get past the limiter number at most
      (2 + k) times the limit, k being the successful joins in the interval, however the cache operations of
      concurrent requests interleave. */
  lemma {:induction false} AttemptsAreBounded(cell: Option<Cell>, ops: seq<Op>, limits: Limits, from: int)
    requires CellInv(cell) && InTimeOrder(ops)
    ensures AdmittedIn(cell, ops, limits, from) <= (2 + ResetsIn(ops, limits, from)) * NonNegative(limits.attempts)
    decreases |ops|
  {
    if ops != [] && ops[0].t < from {
      var rest := ops[1..];
      assert forall i :: 0 <= i < |rest| ==> rest[i] == ops[i + 1];
      AttemptsAreBounded(After(cell, ops[0], limits), rest, limits, from);
    } else {
      BudgetBounds(cell, ops, limits, from);
      OneMoreRound(ResetsIn(ops, limits, from), NonNegative(limits.attempts));
    }
  }

  lemma OneMoreRound(k: int, m: int)
    ensures k * m == (k - 1) * m + m && (1 + k) * m == m + k * m && (2 + k) * m == 2 * m + k * m
  {
  }

  // ---------- the bound cannot be lowered ----------

  /** A request to join: its add, its increment and, if it joins, its reset. */
  datatype Request = Request(added: int, counted: int, joined: Option<int>)

  function OpsOf(r: Request): seq<Op> {
    [AddOp(r.added), IncrOp(r.counted)] + match r.joined case None => [] case Some(t) => [DeleteOp(t)]
  }

  /** The operations of requests that follow each other. */
  function AllOps(rs: seq<Request>): seq<Op> { if rs == [] then [] else OpsOf(rs[0]) + AllOps(rs[1..]) }

  /** The cell after one request. */
  function AfterRequest(cell: Option<Cell>, r: Request, limits: Limits): Option<Cell> {
    var counted := After(After(cell, AddOp(r.added), limits), IncrOp(r.counted), limits);
    match r.joined case None => counted case Some(t) => After(counted, DeleteOp(t), limits)
  }

  predicate RequestAdmitted(cell: Option<Cell>, r: Request, limits: Limits) {
    Admits(After(cell, AddOp(r.added), limits), IncrOp(r.counted), limits)
  }

  /** Only requests that get past the limiter join. */
  predicate Genuine(cell: Option<Cell>, rs: seq<Request>, limits: Limits)
    decreases |rs|
  {
    rs != [] ==>
      && (rs[0].joined.Some? ==> RequestAdmitted(cell, rs[0], limits))
      && Genuine(AfterRequest(cell, rs[0], limits), rs[1..], limits)
  }

  /** n requests at time t, none of which joins. */
  function Attempts(n: nat, t: int): seq<Request> { seq(n, _ => Request(t, t, None)) }

  /** One window after another, all at time t: each is used up, and all but the last end with a join. */
  function Windows(k: nat, attempts: nat, t: int): seq<Request>
    requires attempts >= 1
  {
    Attempts(attempts - 1, t) +
    if k == 0 then [Request(t, t, None)] else [Request(t, t, Some(t))] + Windows(k - 1, attempts, t)
  }

  /** A window opened just before the interval is used up at its start, another at its end, and k more after
      as many joins. */
  function Busiest(k: nat, limits: Limits, from: int): seq<Request>
    requires limits.attempts >= 1
  {
    [Request(from - 1, from, None)] + (Attempts(limits.attempts - 1, from) + Windows(k, limits.attempts, from + limits.window - 1))
  }

  lemma AfterOne(cell: Option<Cell>, op: Op, rest: seq<Op>, limits: Limits, from: int)
    ensures AdmittedIn(cell, [op] + rest, limits, from) ==
            (if Within(op, from, limits) && Admits(cell, op, limits) then 1 else 0)
            + AdmittedIn(After(cell, op, limits), rest, limits, from)
    ensures ResetsIn([op] + rest, limits, from) ==
            (if op.DeleteOp? && Within(op, from, limits) then 1 else 0) + ResetsIn(rest, limits, from)
  {
    assert ([op] + rest)[1..] == rest;
  }

  /** Joins inside the interval, and admissions: what a request adds to either count. */
  function Joins(r: Request, limits: Limits, from: int): int {
    if r.joined.Some? && from <= r.joined.value < from + limits.window then 1 else 0
  }

  lemma AfterOneRequest(cell: Option<Cell>, r: Request, rest: seq<Request>, limits: Limits, from: int)
    requires from <= r.counted < from + limits.window
    ensures AdmittedIn(cell, AllOps([r] + rest), limits, from) ==
            (if RequestAdmitted(cell, r, limits) then 1 else 0) + AdmittedIn(AfterRequest(cell, r, limits), AllOps(rest), limits, from)
    ensures ResetsIn(AllOps([r] + rest), limits, from) == Joins(r, limits, from) + ResetsIn(AllOps(rest), limits, from)
    ensures Genuine(cell, [r] + rest, limits) <==>
            (r.joined.Some? ==> RequestAdmitted(cell, r, limits)) && Genuine(AfterRequest(cell, r, limits), rest, limits)
  {
    assert ([r] + rest)[1..] == rest;
    var tail := (match r.joined case None => [] case Some(t) => [DeleteOp(t)]) + AllOps(rest);
    assert AllOps([r] + rest) == [AddOp(r.added)] + ([IncrOp(r.counted)] + tail);
    AfterOne(cell, AddOp(r.added), [IncrOp(r.counted)] + tail, limits, from);
    AfterOne(After(cell, AddOp(r.added), limits), IncrOp(r.counted), tail, limits, from);
    var counted := After(After(cell, AddOp(r.added), limits), IncrOp(r.counted), limits);
    match r.joined
    case None => assert tail == AllOps(rest);
    case Some(t) => AfterOne(counted, DeleteOp(t), AllOps(rest), limits, from);
  }

  /** What a run of requests achieves: genuine, so many admitted, so many resets. */
  ghost predicate Achieves(cell: Option<Cell>, rs: seq<Request>, limits: Limits, from: int, admitted: int, resets: int) {
    && Genuine(cell, rs, limits)
    && AdmittedIn(cell, AllOps(rs), limits, from) == admitted && ResetsIn(AllOps(rs), limits, from) == resets
  }

  /** As long as the window is open and has room, every attempt is admitted. */
  lemma {:induction false} AttemptsAreAdmitted(n: nat, t: int, cell: Cell, rest: seq<Request>, limits: Limits, from: int, admitted: int, resets: int)
    requires from <= t < from + limits.window && cell.expiry > t && cell.count + n <= limits.attempts
    requires Achieves(Some(Cell(cell.count + n, cell.expiry)), rest, limits, from, admitted, resets)
    ensures Achieves(Some(cell), Attempts(n, t) + rest, limits, from, n + admitted, resets)
    decreases n
  {
    if n == 0 {
      assert Attempts(0, t) + rest == rest;
    } else {
      assert Attempts(n, t) + rest == [Request(t, t, None)] + (Attempts(n - 1, t) + rest);
      AttemptsAreAdmitted(n - 1, t, Cell(cell.count + 1, cell.expiry), rest, limits, from, admitted, resets);
      AfterOneRequest(Some(cell), Request(t, t, None), Attempts(n - 1, t) + rest, limits, from);
    }
  }

  /** A request that finds no window behaves as one that finds a window just opened. */
  lemma FreshWindow(cell: Option<Cell>, r: Request, rest: seq<Request>, limits: Limits, from: int, admitted: int, resets: int)
    requires Live(cell, r.added) == None && limits.window > 0
    requires Achieves(Some(Cell(0, r.added + limits.window)), [r] + rest, limits, from, admitted, resets)
    requires from <= r.counted < from + limits.window
    ensures Achieves(cell, [r] + rest, limits, from, admitted, resets)
  {
    AfterOneRequest(cell, r, rest, limits, from);
    AfterOneRequest(Some(Cell(0, r.added + limits.window)), r, rest, limits, from);
  }

  /** A window is used up, and its last attempt may join. */
  lemma OneWindow(cell: Option<Cell>, t: int, last: Request, rest: seq<Request>, limits: Limits, from: int, admitted: int, resets: int)
    requires from <= t < from + limits.window && limits.attempts >= 1 && Live(cell, t) == None
    requires last.added == t && last.counted == t && (last.joined.Some? ==> last.joined.value == t)
    requires var full := Some(Cell(limits.attempts - 1, t + limits.window));
             Achieves(AfterRequest(full, last, limits), rest, limits, from, admitted, resets)
    ensures Achieves(cell, Attempts(limits.attempts - 1, t) + ([last] + rest), limits, from,
                     limits.attempts + admitted, (if last.joined.Some? then 1 else 0) + resets)
  {
    var m, unused := limits.attempts, Cell(0, t + limits.window);
    var full := Some(Cell(m - 1, t + limits.window));
    AfterOneRequest(full, last, rest, limits, from);
    var joins := if last.joined.Some? then 1 else 0;
    AttemptsAreAdmitted(m - 1, t, unused, [last] + rest, limits, from, 1 + admitted, joins + resets);
    var all := Attempts(m - 1, t) + ([last] + rest);
    assert all == [all[0]] + all[1..] && all[0].added == t && all[0].counted == t;
    FreshWindow(cell, all[0], all[1..], limits, from, m + admitted, joins + resets);
  }

  lemma {:induction false} WindowsAdmit(k: nat, cell: Option<Cell>, t: int, limits: Limits, from: int)
    requires from <= t < from + limits.window && limits.attempts >= 1 && Live(cell, t) == None
    ensures Achieves(cell, Windows(k, limits.attempts, t), limits, from, (1 + k) * limits.attempts, k)
    decreases k
  {
    OneMoreRound(k, limits.attempts);
    if k == 0 {
      assert [Request(t, t, None)] + [] == [Request(t, t, None)];
      OneWindow(cell, t, Request(t, t, None), [], limits, from, 0, 0);
    } else {
      WindowsAdmit(k - 1, None, t, limits, from);
      OneWindow(cell, t, Request(t, t, Some(t)), Windows(k - 1, limits.attempts, t), limits, from, k * limits.attempts, k - 1);
    }
  }

  /** All operations of ops take place between the two times. */
  ghost predicate Between(ops: seq<Op>, low: int, high: int) { forall i :: 0 <= i < |ops| ==> low <= ops[i].t <= high }

  lemma OrderOfConcatenation(a: seq<Op>, b: seq<Op>, low: int, mid: int, high: int)
    requires InTimeOrder(a) && InTimeOrder(b) && Between(a, low, mid) && Between(b, mid, high) && low <= mid <= high
    ensures InTimeOrder(a + b) && Between(a + b, low, high)
  {
  }

  ghost predicate AllAt(rs: seq<Request>, t: int) {
    forall i :: 0 <= i < |rs| ==> rs[i].added == t && rs[i].counted == t && (rs[i].joined.Some? ==> rs[i].joined.value == t)
  }

  lemma {:induction false} AtOneTime(rs: seq<Request>, t: int)
    requires AllAt(rs, t)
    ensures InTimeOrder(AllOps(rs)) && Between(AllOps(rs), t, t)
  {
    if rs == [] {
    } else {
      AtOneTime(rs[1..], t);
      OrderOfConcatenation(OpsOf(rs[0]), AllOps(rs[1..]), t, t, t);
    }
  }

  lemma {:induction false} WindowsAtOneTime(k: nat, attempts: nat, t: int)
    requires attempts >= 1
    ensures AllAt(Windows(k, attempts, t), t)
    decreases k
  {
    if k == 0 {
    } else {
      WindowsAtOneTime(k - 1, attempts, t);
    }
  }

  lemma {:induction false} AllOpsAppend(a: seq<Request>, b: seq<Request>)
    ensures AllOps(a + b) == AllOps(a) + AllOps(b)
  {
    if a == [] {
      assert a + b == b;
    } else {
      assert (a + b)[0] == a[0] && (a + b)[1..] == a[1..] + b;
      AllOpsAppend(a[1..], b);
    }
  }

  lemma BusiestIsInOrder(k: nat, limits: Limits, from: int)
    requires limits.attempts >= 1 && limits.window >= 2
    ensures InTimeOrder(AllOps(Busiest(k, limits, from)))
  {
    var last := from + limits.window - 1;
    var first, second, opening := Attempts(limits.attempts - 1, from), Windows(k, limits.attempts, last), Request(from - 1, from, None);
    AtOneTime(first, from);
    WindowsAtOneTime(k, limits.attempts, last);
    AtOneTime(second, last);
    AllOpsAppend(first, second);
    OrderOfConcatenation(AllOps(first), AllOps(second), from, from, last);
    AllOpsAppend([opening], first + second);
    assert AllOps([opening]) == OpsOf(opening) + [] == [AddOp(from - 1), IncrOp(from)];
    OrderOfConcatenation(AllOps([opening]), AllOps(first + second), from - 1, from, last);
  }

  /** The bound is attained, for every limit of at least one, every window of at least two units of time,
      every interval and every number of joins, by requests that follow one another and of which only
      admitted ones join. */
  lemma BoundIsAttained(k: nat, limits: Limits, from: int)
    requires limits.attempts >= 1 && limits.window >= 2
    ensures InTimeOrder(AllOps(Busiest(k, limits, from)))
    ensures Achieves(None, Busiest(k, limits, from), limits, from, (2 + k) * NonNegative(limits.attempts), k)
  {
    var m, last := limits.attempts, from + limits.window - 1;
    var windows, opening := Windows(k, m, last), Request(from - 1, from, None);
    BusiestIsInOrder(k, limits, from);
    WindowsAdmit(k, Some(Cell(m, last)), last, limits, from);
    AttemptsAreAdmitted(m - 1, from, Cell(1, last), windows, limits, from, (1 + k) * m, k);
    AfterOneRequest(None, opening, Attempts(m - 1, from) + windows, limits, from);
    OneMoreRound(k, m);
  }
}
